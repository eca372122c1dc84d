// An outside caller's time limit, and the windows of a book cut to fit it
// (internal/books/listen.go, internal/books/agi.go).
module Listening {
  import opened Basics

  // Times are nanoseconds of one clock that never goes back.
  const SECOND := 1_000_000_000
  const MILLISECOND := 1_000_000
  const RATE := 16000
  const END_LEAD := 5 * SECOND
  const WAIT_MS := 10000

  const LEAST := SECOND / 10

  datatype Command =
    | Warning
    | Ended
    | Whole(samples: int)
    // Samples [from, to) of a window of `all`.
    | Piece(from: int, to: int, all: int)
    | WaitDigit(ms: int)
    | Other(text: string)

  // What a call does: a check or a look at the limit reads the clock, a command
  // reaches Asterisk. A look finds when the limit next has something to say.
  datatype Event = Checked(at: int) | Looked(at: int, next: int) | Sent(c: Command)

  datatype Look = Look(at: int, next: int)

  datatype Failure = TimeUp | Hangup | Broken

  // Whether an error is a failure, and not the end of the call's time.
  function Fault(err: Option<Failure>): nat { if err.None? || err.value.TimeUp? then 0 else 1 }

  datatype Response = Response(key: int, samples: int)

  function Trunc(a: int, b: int): int
    requires b > 0
  {
    if a < 0 then -((-a) / b) else a / b
  }

  function SamplesIn(d: int): int { Trunc(d * RATE, SECOND) }

  // How long samples last, at 62500 nanoseconds each.
  function Span(samples: int): int { 62_500 * samples }

  // The commands that are measured against the limit, and how long they run.
  predicate Timed(c: Command) { c.Whole? || c.Piece? || c.WaitDigit? }

  function Length(c: Command): int {
    match c
    case Whole(samples) => Span(samples)
    case Piece(from, to, _) => Span(to - from)
    case WaitDigit(ms) => ms * MILLISECOND
    case _ => 0
  }

  function NextWord(warnAt: int, endAt: int, warned: bool): int {
    if !warned && warnAt < endAt then warnAt else endAt
  }

  // ---- What a log must show ----

  // The latest reading of the clock.
  function LastReading(log: seq<Event>): Option<Event> {
    if log == [] then None
    else if log[|log| - 1].Sent? then LastReading(log[..|log| - 1])
    else Some(log[|log| - 1])
  }

  // The latest look at the limit, while no timed command has used it.
  function LastLook(log: seq<Event>): Option<Look> {
    if log == [] then None
    else
      match log[|log| - 1]
      case Looked(at, next) => Some(Look(at, next))
      case Sent(c) => if Timed(c) then None else LastLook(log[..|log| - 1])
      case Checked(_) => LastLook(log[..|log| - 1])
  }

  function Warnings(log: seq<Event>): nat {
    if log == [] then 0 else Warnings(log[..|log| - 1]) + if log[|log| - 1] == Sent(Warning) then 1 else 0
  }

  // A check let it through before the end, the clock not read since, and the
  // warning has been given if that check found it due.
  ghost predicate Cleared(log: seq<Event>, warnAt: int, endAt: int) {
    var last := LastReading(log);
    last.Some? && last.value.Checked? && last.value.at < endAt && (last.value.at >= warnAt ==> Warnings(log) > 0)
  }

  // It runs no longer than a look of its own found time for, or a tenth of a
  // second; and it is cut short by less than a sample, or a millisecond.
  ghost predicate InTime(c: Command, look: Option<Look>) {
    && look.Some?
    && Length(c) <= Max(look.value.next - look.value.at, LEAST)
    && (c.Piece? && c.to != c.all ==> Length(c) >= LEAST && Length(c) > look.value.next - look.value.at - Span(1))
    && (c.WaitDigit? && c.ms != WAIT_MS ==> Length(c) >= LEAST && Length(c) > look.value.next - look.value.at - MILLISECOND)
  }

  // What may come next after a log.
  ghost predicate May(log: seq<Event>, warnAt: int, endAt: int, e: Event) {
    match e
    case Checked(_) => true
    case Looked(_, next) => next == NextWord(warnAt, endAt, Warnings(log) > 0)
    case Sent(Warning) =>
      var last := LastReading(log);
      last.Some? && last.value.Checked? && warnAt <= last.value.at < endAt && Warnings(log) == 0
    case Sent(c) => Cleared(log, warnAt, endAt) && (Timed(c) ==> InTime(c, LastLook(log)))
  }

  ghost predicate Orderly(log: seq<Event>, warnAt: int, endAt: int) {
    forall n | 0 <= n < |log| :: May(log[..n], warnAt, endAt, log[n])
  }

  // The clock is read later and later, never past `clock`.
  ghost predicate Rising(log: seq<Event>, clock: int) {
    && (forall i | 0 <= i < |log| && !log[i].Sent? :: log[i].at <= clock)
    && (forall i, j | 0 <= i < j < |log| && !log[i].Sent? && !log[j].Sent? :: log[i].at <= log[j].at)
  }

  // The pieces of windows streamed.
  function Streams(log: seq<Event>): seq<Command> {
    if log == [] then []
    else
      var e := log[|log| - 1];
      Streams(log[..|log| - 1]) + if e.Sent? && e.c.Piece? then [e.c] else []
  }

  // Pieces end to end from the start of a window.
  ghost predicate Tiles(pieces: seq<Command>, samples: int) {
    && (forall k | 0 <= k < |pieces| :: pieces[k].Piece? && pieces[k].from < pieces[k].to <= samples == pieces[k].all)
    && (pieces != [] ==> pieces[0].from == 0)
    && (forall k | 0 < k < |pieces| :: pieces[k].from == pieces[k - 1].to)
  }

  function Reach(pieces: seq<Command>): int {
    if pieces != [] && pieces[|pieces| - 1].Piece? then pieces[|pieces| - 1].to else 0
  }

  // Where the last piece starts.
  function LastFrom(pieces: seq<Command>): int {
    if pieces != [] && pieces[|pieces| - 1].Piece? then pieces[|pieces| - 1].from else 0
  }

  // Where a piece from `offset` ends, when `room` samples' time is left.
  function PieceEnd(offset: int, room: int, samples: int, have: int): int {
    var end := if offset + room < samples then Max(offset + room, offset + RATE / 10) else samples;
    Min(end, have)
  }

  // A file shorter than its window stalls a piece at its end; a longer one runs
  // it past the window's. Neither can happen exactly when it holds the window.
  lemma PiecesFitExactly(samples: int, have: int)
    requires samples > 0
    ensures have == samples <==>
              forall offset, room | 0 <= offset < samples :: offset < PieceEnd(offset, room, samples, have) <= samples
  {
    if have < samples {
      assert PieceEnd(samples - 1, 0, samples, have) <= samples - 1;
    } else if have > samples {
      assert PieceEnd(samples - 1, 0, samples, have) > samples;
    }
  }

  lemma LogSnoc(log: seq<Event>, e: Event, warnAt: int, endAt: int, clock: int)
    ensures Warnings(log + [e]) == Warnings(log) + if e == Sent(Warning) then 1 else 0
    ensures Orderly(log, warnAt, endAt) && May(log, warnAt, endAt, e) ==> Orderly(log + [e], warnAt, endAt)
    ensures Rising(log, clock) && (!e.Sent? ==> e.at == clock) ==> Rising(log + [e], clock)
    ensures Streams(log + [e]) == Streams(log) + if e.Sent? && e.c.Piece? then [e.c] else []
    ensures LastReading(log + [e]) == if e.Sent? then LastReading(log) else Some(e)
    ensures e.Looked? ==> LastLook(log + [e]) == Some(Look(e.at, e.next))
    ensures !e.Looked? && !(e.Sent? && Timed(e.c)) ==> LastLook(log + [e]) == LastLook(log)
  {
    hide May;
    var more := log + [e];
    assert more[..|log|] == log;
    if Orderly(log, warnAt, endAt) && May(log, warnAt, endAt, e) {
      forall n | 0 <= n < |more| ensures May(more[..n], warnAt, endAt, more[n]) {
        if n < |log| {
          assert more[..n] == log[..n];
        }
      }
    }
  }

  lemma {:induction false} LastIsLatest(log: seq<Event>, clock: int, i: nat, n: nat)
    requires Rising(log, clock) && i < n <= |log| && !log[i].Sent?
    ensures LastReading(log[..n]).Some? && !LastReading(log[..n]).value.Sent? && LastReading(log[..n]).value.at >= log[i].at
  {
    assert log[..n][..n - 1] == log[..n - 1];
    if log[n - 1].Sent? {
      LastIsLatest(log, clock, i, n - 1);
    }
  }

  // Once a check has read the clock at or past the end, no command follows.
  lemma NothingAfterTheEnd(log: seq<Event>, warnAt: int, endAt: int, clock: int, i: nat, j: nat)
    requires Orderly(log, warnAt, endAt) && Rising(log, clock)
    requires i < j < |log| && log[i].Checked? && log[i].at >= endAt
    ensures !log[j].Sent?
  {
    LastIsLatest(log, clock, i, j);
    assert May(log[..j], warnAt, endAt, log[j]);
  }

  lemma {:induction false} WarnedWhen(log: seq<Event>)
    ensures Warnings(log) > 0 <==> Sent(Warning) in log
  {
    if log != [] {
      WarnedWhen(log[..|log| - 1]);
      assert log == log[..|log| - 1] + [log[|log| - 1]];
    }
  }

  // The warning is given once at most.
  lemma OneWarning(log: seq<Event>, warnAt: int, endAt: int, i: nat, j: nat)
    requires Orderly(log, warnAt, endAt) && i < j < |log| && log[i] == Sent(Warning)
    ensures log[j] != Sent(Warning)
  {
    assert May(log[..j], warnAt, endAt, log[j]);
    assert log[..j][i] == Sent(Warning);
    WarnedWhen(log[..j]);
  }

  lemma {:induction false} FindLook(log: seq<Event>, n: nat) returns (k: nat)
    requires n <= |log| && LastLook(log[..n]).Some?
    ensures k < n && log[k].Looked? && LastLook(log[..n]) == Some(Look(log[k].at, log[k].next))
    ensures forall i | k < i < n && log[i].Sent? :: !Timed(log[i].c)
  {
    assert log[..n][..n - 1] == log[..n - 1];
    if log[n - 1].Looked? {
      k := n - 1;
    } else {
      k := FindLook(log, n - 1);
    }
  }

  // Every piece, whole window and wait was measured against a look of its own:
  // from the moment of that look it ends by the limit's next word, or within a
  // tenth of a second, and less than a tenth of a second past the end at most.
  // A piece that leaves some of its window runs up to that word but for less
  // than a sample, and a wait of less than ten seconds but for less than a
  // millisecond, unless it is a tenth of a second long.
  lemma EndsByTheNextWord(log: seq<Event>, warnAt: int, endAt: int, clock: int, n: nat) returns (k: nat, d: int)
    requires Orderly(log, warnAt, endAt) && Rising(log, clock)
    requires n < |log| && log[n].Sent? && (log[n].c.Whole? || log[n].c.Piece? || log[n].c.WaitDigit?)
    ensures d == match log[n].c
                 case Whole(samples) => samples * 62_500
                 case Piece(from, to, _) => (to - from) * 62_500
                 case WaitDigit(ms) => ms * 1_000_000
                 case _ => 0
    ensures k < n && log[k].Looked?
    ensures forall i | k < i < n && log[i].Sent? :: !log[i].c.Whole? && !log[i].c.Piece? && !log[i].c.WaitDigit?
    ensures log[k].next == if Sent(Warning) in log[..k] || endAt <= warnAt then endAt else warnAt
    ensures log[k].at + d <= log[k].next || d <= 100_000_000
    ensures log[k].at < endAt && log[k].at + d < endAt + 100_000_000
    ensures log[n].c.Piece? && log[n].c.to != log[n].c.all ==> d >= 100_000_000 && log[k].at + d > log[k].next - 62_500
    ensures log[n].c.WaitDigit? && log[n].c.ms != 10000 ==> d >= 100_000_000 && log[k].at + d > log[k].next - 1_000_000
  {
    assert May(log[..n], warnAt, endAt, log[n]);
    k := FindLook(log, n);
    d := Length(log[n].c);
    LastIsLatest(log, clock, k, n);
    assert May(log[..k], warnAt, endAt, log[k]);
    WarnedWhen(log[..k]);
  }

  lemma PieceFits(offset: int, room: int, samples: int, look: Look)
    requires 0 <= offset < samples && room == SamplesIn(look.next - look.at)
    ensures InTime(Piece(offset, PieceEnd(offset, room, samples, samples), samples), Some(look))
    ensures PieceEnd(offset, room, samples, samples) >= samples && offset == 0 ==> InTime(Whole(samples), Some(look))
  {
    hide SamplesIn, PieceEnd, InTime;
    SamplesFit(look.next - look.at);
    RoomFits(offset, room, samples, look);
  }

  lemma RoomFits(offset: int, room: int, samples: int, look: Look)
    requires 0 <= offset < samples && (room > 0 ==> Span(room) <= look.next - look.at)
    requires look.next - look.at < Span(room + 1)
    ensures InTime(Piece(offset, PieceEnd(offset, room, samples, samples), samples), Some(look))
    ensures PieceEnd(offset, room, samples, samples) >= samples && offset == 0 ==> InTime(Whole(samples), Some(look))
  {
  }

  lemma SamplesFit(d: int)
    ensures SamplesIn(d) > 0 ==> Span(SamplesIn(d)) <= d
    ensures d < Span(SamplesIn(d) + 1)
    ensures Span(RATE / 10) == LEAST && Span(RATE) == SECOND
  {
  }

  lemma WaitFits(ms: int, look: Look)
    requires ms == Max(Trunc(look.next - look.at, MILLISECOND), 100) || (ms == WAIT_MS && Trunc(look.next - look.at, MILLISECOND) >= ms)
    ensures InTime(WaitDigit(ms), Some(look))
  {
  }

  // ---- The call ----

  class Call {
    const warnAt: int
    const endAt: int
    // Whether the limit is set, and whether it has warned.
    var lim: bool
    var warned: bool
    var clock: int

    ghost var log: seq<Event>
    // How often a file or an exchange failed, or the caller hung up.
    ghost var faults: nat

    // newLimit: the limit of a call that starts now.
    constructor (start: int, total: int, warning: int)
      ensures warnAt == start + total - warning && endAt == start + total - END_LEAD
      ensures Safe() && lim && !warned && log == []
    {
      warnAt := start + total - warning;
      endAt := start + total - END_LEAD;
      lim, warned, clock, log, faults := true, false, start, [], 0;
    }

    ghost predicate Safe()
      reads this
    {
      && Orderly(log, warnAt, endAt) && Rising(log, clock)
      && Warnings(log) == if warned then 1 else 0
    }

    method Now() returns (now: int)
      modifies this`clock
      ensures now == clock >= old(clock)
      ensures old(Safe()) ==> Safe()
    {
      hide Orderly, Warnings;
      var passed: nat := Any();
      clock := clock + passed;
      now := clock;
      assert old(Safe()) ==> Rising(log, clock);
    }

    // The protocol exchange itself, and what Asterisk makes of it.
    method Exchange(c: Command) returns (r: Response, err: Option<Failure>)
      modifies this`log, this`faults
      ensures log == old(log) + [Sent(c)]
      ensures err != Some(TimeUp) && (err == Some(Hangup) <==> r.key < 0)
      ensures faults == old(faults) + Fault(err)
    {
      log := log + [Sent(c)];
      r := Any();
      var failed: bool := Any();
      err := if r.key < 0 then Some(Hangup) else if failed then Some(Broken) else None;
      faults := faults + if err.None? then 0 else 1;
    }

    // The samples of a window's file, read once.
    method Load(have: int) returns (file: Option<int>)
      modifies this`faults
      ensures faults == old(faults) + if file.None? then 1 else 0
      ensures file.Some? ==> file.value == have
    {
      var failed: bool := Any();
      file := if failed then None else Some(have);
      faults := faults + if failed then 1 else 0;
    }

    // A piece cut out of a window, as a file of its own.
    method Cut(from: int, to: int, all: int) returns (file: Option<Command>)
      modifies this`faults
      ensures faults == old(faults) + if file.None? then 1 else 0
      ensures file.Some? ==> file.value == Piece(from, to, all)
    {
      var failed: bool := Any();
      file := if failed then None else Some(Piece(from, to, all));
      faults := faults + if failed then 1 else 0;
    }

    // command: with a limit, every command is checked first; the limit is unset
    // while it is, so the warning is not checked against itself.
    method Do(c: Command) returns (r: Response, err: Option<Failure>, ghost sent: bool)
      requires Safe() && c != Warning && lim && (Timed(c) ==> InTime(c, LastLook(log)))
      modifies this
      ensures Safe() && lim && old(log) <= log && old(clock) <= clock
      ensures Streams(log) == Streams(old(log)) + if sent && c.Piece? then [c] else []
      ensures sent ==> log != [] && log[|log| - 1] == Sent(c)
      ensures if sent then err != Some(TimeUp) else err.Some? && r == Response(0, 0)
      ensures err.None? ==> r.key >= 0
      ensures faults == old(faults) + Fault(err) && (err == Some(TimeUp) ==> clock >= endAt)
    {
      hide Orderly, Rising, Warnings, Streams, LastReading, LastLook, Cleared, InTime;
      r, sent := Response(0, 0), false;
      lim := false;
      err := Check();
      lim := true;
      if err.Some? {
        return;
      }
      LogSnoc(log, Sent(c), warnAt, endAt, clock);
      sent := true;
      r, err := Exchange(c);
    }

    // check: past the end it refuses; past the warning it says so, once.
    method Check() returns (err: Option<Failure>)
      requires Safe() && !lim
      modifies this
      ensures Safe() && !lim && old(log) <= log && old(clock) <= clock && Streams(log) == Streams(old(log))
      ensures LastLook(log) == LastLook(old(log))
      ensures err.None? ==> Cleared(log, warnAt, endAt) && clock < endAt && (warned <==> old(warned) || clock >= warnAt)
      ensures faults == old(faults) + Fault(err) && (err == Some(TimeUp) ==> clock >= endAt)
    {
      hide Orderly, Rising, Warnings, Streams, LastReading, LastLook;
      var now := Now();
      LogSnoc(log, Checked(now), warnAt, endAt, clock);
      log := log + [Checked(now)];
      if now >= endAt {
        return Some(TimeUp);
      }
      err := None;
      if !warned && now >= warnAt {
        LogSnoc(log, Sent(Warning), warnAt, endAt, clock);
        warned := true;
        var r;
        r, err := Exchange(Warning);
      }
    }

    // until: how long before the limit next has something to say.
    method Until() returns (d: int)
      requires Safe()
      modifies this`clock, this`log
      ensures Safe() && old(clock) <= clock && old(log) <= log && Streams(log) == Streams(old(log))
      ensures LastLook(log) == Some(Look(clock, clock + d))
    {
      hide Orderly, Rising, Warnings, Streams, LastReading, LastLook;
      var now := Now();
      d := if !warned && warnAt < endAt then warnAt - now else endAt - now;
      LogSnoc(log, Looked(now, now + d), warnAt, endAt, clock);
      log := log + [Looked(now, now + d)];
    }

    // wait: never past the next thing the limit has to say, or a tenth of a
    // second.
    method Wait() returns (key: int, err: Option<Failure>, ghost ms: int)
      requires Safe() && lim
      modifies this
      ensures Safe() && lim && old(log) <= log && Streams(log) == Streams(old(log))
      ensures 0 < ms <= WAIT_MS
      ensures err.None? ==> log != [] && log[|log| - 1] == Sent(WaitDigit(ms))
      ensures faults == old(faults) + Fault(err) && (err == Some(TimeUp) ==> clock >= endAt)
    {
      hide Orderly, Rising, Warnings, Streams, LastReading, LastLook, Cleared, InTime;
      var wait := WAIT_MS;
      var left := Until();
      if Trunc(left, MILLISECOND) < wait {
        wait := Max(Trunc(left, MILLISECOND), 100);
      }
      ms := wait;
      WaitFits(wait, Look(clock, clock + left));
      var r;
      ghost var sent;
      r, err, sent := Do(WaitDigit(wait));
      key := r.key;
      assert Streams(old(log)) + [] == Streams(old(log));
    }

    // Settle anything due, and measure how far the next piece may run.
    method Settle() returns (err: Option<Failure>, room: int)
      requires Safe() && lim
      modifies this
      ensures Safe() && lim && old(log) <= log && Streams(log) == Streams(old(log))
      ensures faults == old(faults) + Fault(err) && (err == Some(TimeUp) ==> clock >= endAt)
      // It looks no further once a check has failed.
      ensures err.Some? ==> LastLook(log) == LastLook(old(log))
      ensures err.None? ==> LastLook(log).Some? && room == SamplesIn(LastLook(log).value.next - LastLook(log).value.at)
    {
      hide Orderly, Rising, Warnings, Streams, LastReading, LastLook, Cleared, SamplesIn;
      room := 0;
      lim := false;
      err := Check();
      lim := true;
      if err.Some? {
        return;
      }
      var left := Until();
      room := SamplesIn(left);
    }

    // playWindow with a limit: the window whole, or in pieces.
    method PlayWindow(samples: int, have: int) returns (r: Response, err: Option<Failure>, ghost whole: bool, ghost pieces: seq<Command>)
      // The window's file holds the window.
      requires Safe() && lim && have == samples > 0
      modifies this
      ensures Safe() && lim && old(log) <= log
      // What is streamed is a prefix of the window, without gap or overlap.
      ensures Tiles(pieces, samples) && Streams(log) == Streams(old(log)) + pieces
      // A window that fits is not cut.
      ensures Piece(0, samples, samples) !in pieces
      ensures whole ==> pieces == [] && (err.None? ==> log != [] && log[|log| - 1] == Sent(Whole(samples)))
      // The reported position is in the last piece; that of a window played
      // whole is what Asterisk says.
      ensures !whole ==> LastFrom(pieces) <= r.samples <= Reach(pieces) <= samples
      // It stops for an error, for a key, or because the window is over.
      ensures !whole && err.None? && r.key == 0 ==> Reach(pieces) == samples
      ensures faults == old(faults) + Fault(err)
      ensures err == Some(TimeUp) ==> clock >= endAt && (whole || r == Response(0, Reach(pieces)))
    {
      hide Orderly, Rising, Warnings, Streams, Tiles, SamplesIn, Reach, LastFrom, LastReading, LastLook, Cleared, InTime;
      r, err, whole, pieces := Response(0, 0), None, false, [];
      NoPieces(samples);
      assert Streams(log) + [] == Streams(log);
      var offset, file := 0, None;
      while true
        invariant Safe() && lim && old(log) <= log
        invariant Tiles(pieces, samples) && Streams(log) == Streams(old(log)) + pieces && Piece(0, samples, samples) !in pieces
        invariant faults == old(faults) && (file.Some? ==> file.value == have)
        invariant 0 <= LastFrom(pieces) <= offset == Reach(pieces) < samples && (offset == 0 ==> pieces == [])
        decreases samples - offset
      {
        var room;
        err, room := Settle();
        if err.Some? {
          return Response(0, offset), err, false, pieces;
        }
        var end := samples;
        if offset + room < end {
          end := Max(offset + room, offset + RATE / 10);
        }
        PieceFits(offset, room, samples, LastLook(log).value);
        if end >= samples && offset == 0 {
          ghost var sent;
          r, err, sent := Do(Whole(samples));
          whole := true;
          return;
        }
        if file.None? {
          file := Load(have);
          if file.None? {
            return Response(0, offset), Some(Broken), false, pieces;
          }
        }
        end := Min(end, file.value);
        TilesSnoc(pieces, samples, offset, end, room);
        ghost var sent;
        r, err, sent := PlayPiece(offset, end, samples);
        if sent {
          StreamsSnoc(old(log), log, pieces, Piece(offset, end, samples));
          pieces := pieces + [Piece(offset, end, samples)];
        }
        if err.Some? || r.key != 0 || end >= samples {
          return;
        }
        offset := end;
      }
    }

    // One piece, written to a file of its own and streamed. The response counts
    // samples from the window's start.
    method PlayPiece(offset: int, end: int, samples: int) returns (r: Response, err: Option<Failure>, ghost sent: bool)
      requires Safe() && lim && 0 <= offset < end && InTime(Piece(offset, end, samples), LastLook(log))
      modifies this
      ensures Safe() && lim && old(log) <= log
      ensures Streams(log) == if sent then Streams(old(log)) + [Piece(offset, end, samples)] else Streams(old(log))
      ensures offset <= r.samples <= end && (!sent ==> r == Response(0, offset) && err.Some?)
      ensures faults == old(faults) + Fault(err) && (err == Some(TimeUp) ==> clock >= endAt && !sent)
    {
      hide Orderly, Rising, Warnings, Streams, LastReading, LastLook, Cleared, InTime;
      var piece := Cut(offset, end, samples);
      if piece.None? {
        return Response(0, offset), Some(Broken), false;
      }
      r, err, sent := Do(piece.value);
      r := r.(samples := offset + Min(Max(r.samples, 0), end - offset));
      assert Streams(old(log)) + [] == Streams(old(log));
    }

    // listenIn: the menus, whatever they do, and then the goodbye.
    method ListenIn() returns (err: Option<Failure>, ghost menus: seq<Event>)
      requires Safe() && lim && log == []
      modifies this
      // No command follows a check past the end but the goodbye itself, the
      // warning is spoken at most once, and what is played or waited for fits.
      ensures Orderly(menus, warnAt, endAt) && Rising(menus, clock) && Warnings(menus) <= 1
      ensures log == menus || (log == menus + [Sent(Ended)] && !lim && clock >= endAt)
      // An error is a failure; the end of the time is none.
      ensures err != Some(TimeUp) && (err.Some? <==> faults > old(faults))
    {
      hide Orderly, Rising, Warnings, Streams, Tiles, LastReading, LastLook, Cleared, InTime;
      err := None;
      var more: nat := Any();
      while more > 0 && err.None?
        invariant Safe() && lim && faults == old(faults) + Fault(err) && (err == Some(TimeUp) ==> clock >= endAt)
      {
        var turn: nat := Any();
        if turn % 3 == 0 {
          var text: string := Any();
          var r;
          ghost var sent;
          r, err, sent := Do(Other(text));
        } else if turn % 3 == 1 {
          var key;
          ghost var ms;
          key, err, ms := Wait();
        } else {
          var samples: nat := Any();
          var r;
          ghost var whole, pieces;
          r, err, whole, pieces := PlayWindow(samples + 1, samples + 1);
        }
        more := more - 1;
      }
      menus := log;
      if err == Some(TimeUp) {
        lim := false;
        var r;
        r, err := Exchange(Ended);
      }
    }
  }

  lemma StreamsSnoc(before: seq<Event>, now: seq<Event>, pieces: seq<Command>, c: Command)
    requires Streams(now) == Streams(before) + pieces + [c]
    ensures Streams(now) == Streams(before) + (pieces + [c])
  {
  }

  lemma NoPieces(samples: int)
    ensures Tiles([], samples) && Reach([]) == LastFrom([]) == 0
  {
  }

  lemma TilesSnoc(pieces: seq<Command>, samples: int, offset: int, end: int, room: int)
    requires Tiles(pieces, samples) && 0 <= offset == Reach(pieces) && end == PieceEnd(offset, room, samples, samples) && offset < samples
    ensures Tiles(pieces + [Piece(offset, end, samples)], samples) && Reach(pieces + [Piece(offset, end, samples)]) == end
    ensures offset < end <= samples && LastFrom(pieces + [Piece(offset, end, samples)]) == offset
  {
  }
}
