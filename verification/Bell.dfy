// The bell's own side: when it rings and what it reports
// (internal/bell/bell.go).
module Bell {
  import opened Basics

  const MIN_BACKOFF := 1_000_000_000
  const MAX_BACKOFF := 300 * MIN_BACKOFF
  const STABLE := 60 * MIN_BACKOFF
  const REFUSED_CHECK := 30 * MIN_BACKOFF

  datatype Why = Connected | Asked | Gone

  datatype Incoming = Pong | SyncSignal | Noise

  // What a dial, or the credential for it, comes to.
  datatype Dial = Conn | IsGone | Refused | Unavailable(retryAfter: int)

  // A dial with a credential; a frame of the socket, and its loss; a report of
  // the bell's health; a ring; a wait of its own; a look at the credential that
  // is stored now.
  datatype Event =
    | Dialled(tag: nat, dial: Dial, at: int)
    | Heard(frame: Incoming)
    | Lost(at: int)
    | Reported(up: bool)
    | Rang(why: Why)
    | Slept(at: int, d: int)
    | Checked(now: Option<nat>, gone: bool)

  function Healthy(log: seq<Event>): bool {
    log != [] && (if log[|log| - 1].Reported? then log[|log| - 1].up else Healthy(log[..|log| - 1]))
  }

  // What must come next at once: a first pong is reported, a report up is rung
  // for, a sync signal is rung for.
  predicate Reports(log: seq<Event>) { log != [] && log[|log| - 1] == Heard(Pong) && !Healthy(log) }

  predicate Connects(log: seq<Event>) { log != [] && log[|log| - 1] == Reported(true) }

  predicate Asks(log: seq<Event>) { log != [] && log[|log| - 1] == Heard(SyncSignal) }

  predicate IsOver(log: seq<Event>) { log != [] && log[|log| - 1] == Rang(Gone) }

  predicate Settled(log: seq<Event>) { !Reports(log) && !Connects(log) && !Asks(log) && !IsOver(log) }

  // Only the first pong is reported as up, only a report up and a signal are
  // rung for as such, reports are transitions, and nothing follows the ring for
  // a removed box.
  ghost predicate ProperAt(log: seq<Event>, n: nat)
    requires n < |log|
  {
    var before := log[..n];
    && (log[n] == Reported(true) <==> Reports(before))
    && (log[n] == Rang(Connected) <==> Connects(before))
    && (log[n] == Rang(Asked) <==> Asks(before))
    && (log[n].Reported? ==> log[n].up != Healthy(before))
    // Lost health is reported before anything else is tried.
    && (log[n].Dialled? || log[n].Slept? || log[n].Checked? ==> !Healthy(before))
    && !IsOver(before)
  }

  ghost predicate Proper(log: seq<Event>) { forall n | 0 <= n < |log| :: ProperAt(log, n) }

  lemma ProperSnoc(log: seq<Event>, e: Event)
    requires Proper(log)
    requires match e
      case Heard(_) => Settled(log)
      case Lost(_) => Settled(log)
      case Dialled(_, _, _) => Settled(log) && !Healthy(log)
      case Slept(_, _) => Settled(log) && !Healthy(log)
      case Checked(_, _) => Settled(log) && !Healthy(log)
      case Reported(up) => if up then Reports(log) else Settled(log) && Healthy(log)
      case Rang(why) => if why.Connected? then Connects(log) else if why.Asked? then Asks(log) else Settled(log)
    ensures Proper(log + [e]) && Healthy(log + [e]) == if e.Reported? then e.up else Healthy(log)
  {
    var more := log + [e];
    assert more[..|log|] == log;
    forall n | 0 <= n < |more| ensures ProperAt(more, n) {
      if n < |log| {
        assert ProperAt(log, n) && more[..n] == log[..n];
      }
    }
  }

  // Every transition up rings exactly once, and so does every sync signal.
  lemma {:induction false} OneRingEach(log: seq<Event>)
    requires Proper(log)
    ensures multiset(log)[Reported(true)] == multiset(log)[Rang(Connected)] + if Connects(log) then 1 else 0
    ensures multiset(log)[Heard(SyncSignal)] == multiset(log)[Rang(Asked)] + if Asks(log) then 1 else 0
  {
    if log != [] {
      var less := log[..|log| - 1];
      forall n | 0 <= n < |less| ensures ProperAt(less, n) {
        assert ProperAt(log, n) && log[..n] == less[..n];
      }
      assert ProperAt(log, |less|);
      OneRingEach(less);
      assert log == less + [log[|less|]];
    }
  }

  function Doubled(k: nat): int { if k == 0 then MIN_BACKOFF else 2 * Doubled(k - 1) }

  // The full wait before attempt k + 1.
  function FullWait(k: nat): int {
    if k < 30 && Doubled(k) < MAX_BACKOFF then Doubled(k) else MAX_BACKOFF
  }

  lemma {:induction false} DoubledGrows(k: nat, n: nat)
    requires k <= n
    ensures MIN_BACKOFF <= Doubled(k) <= Doubled(n)
  {
    if k < n {
      DoubledGrows(k, n - 1);
    } else if k > 0 {
      DoubledGrows(k - 1, k - 1);
    }
  }

  // Waits only grow, up to five minutes, and the cut at thirty changes nothing.
  lemma WaitsGrow(k: nat, n: nat)
    requires k <= n
    ensures MIN_BACKOFF <= FullWait(k) <= FullWait(n) <= MAX_BACKOFF
    ensures FullWait(k) == Min(Doubled(k), MAX_BACKOFF)
  {
    DoubledGrows(k, n);
    if k >= 9 {
      NineDoublings();
      DoubledGrows(9, k);
    }
    if n >= 9 {
      NineDoublings();
      DoubledGrows(9, n);
    }
  }

  lemma NineDoublings()
    ensures Doubled(9) == 512 * MIN_BACKOFF
  {
    assert Doubled(3) == 2 * Doubled(2) && Doubled(2) == 2 * Doubled(1) && Doubled(1) == 2 * MIN_BACKOFF;
    assert Doubled(6) == 2 * Doubled(5) && Doubled(5) == 2 * Doubled(4) && Doubled(4) == 2 * Doubled(3);
    assert Doubled(9) == 2 * Doubled(8) && Doubled(8) == 2 * Doubled(7) && Doubled(7) == 2 * Doubled(6);
  }

  // ---- When it dials ----

  // Free to dial; connected since a time; to wait before the next attempt; with
  // a refused credential, and whether it has waited since it last looked; to
  // ring for the removal; done.
  datatype Phase = Ready | Up(since: int) | Failing(retryAfter: int) | Refusing(tag: nat, waited: bool) | Leaving | Left

  datatype View = View(phase: Phase, failures: nat, time: int)

  function Dialling(tag: nat, dial: Dial, at: int): Phase {
    match dial
    case Conn => Up(at)
    case IsGone => Leaving
    case Refused => Refusing(tag, false)
    case Unavailable(retryAfter) => Failing(retryAfter)
  }

  function After(v: View, e: Event): View {
    match e
    case Dialled(tag, dial, at) =>
      v.(time := at, phase := Dialling(tag, dial, at))
    case Lost(at) =>
      // A connection that stayed up clears the failures before it.
      v.(time := at, phase := Failing(0), failures := if v.phase.Up? && at - v.phase.since >= STABLE then 0 else v.failures)
    case Slept(at, d) =>
      if v.phase.Refusing? then v.(time := at + d, phase := Refusing(v.phase.tag, true))
      else v.(time := at + d, phase := Ready, failures := v.failures + 1)
    case Checked(now, gone) =>
      if gone then v.(phase := Leaving)
      else if v.phase.Refusing? && now.Some? && now.value != v.phase.tag then v.(phase := Ready, failures := 0)
      else if v.phase.Refusing? then v.(phase := Refusing(v.phase.tag, false))
      else v
    case Rang(why) => if why.Gone? then v.(phase := Left) else v
    case _ => v
  }

  function Read(log: seq<Event>): View {
    if log == [] then View(Ready, 0, 0) else After(Read(log[..|log| - 1]), log[|log| - 1])
  }

  // Half to all of the full wait of the failures so far, or longer when the
  // service says so.
  predicate WaitFits(failures: nat, retryAfter: int, d: int) {
    FullWait(failures) / 2 <= d && retryAfter <= d <= Max(FullWait(failures), retryAfter)
  }

  predicate May(v: View, e: Event) {
    match e
    case Dialled(_, _, at) => v.phase.Ready? && v.time <= at
    case Heard(_) => v.phase.Up?
    case Lost(at) => v.phase.Up? && v.time <= at
    case Reported(up) => if up then v.phase.Up? else v.phase.Failing?
    case Rang(why) => if why.Gone? then v.phase.Leaving? else v.phase.Up?
    case Slept(at, d) =>
      && v.time <= at
      && (v.phase.Failing? || v.phase.Refusing?)
      && (v.phase.Failing? ==> WaitFits(v.failures, v.phase.retryAfter, d))
      && (v.phase.Refusing? ==> !v.phase.waited && d == REFUSED_CHECK)
    case Checked(_, _) => v.phase.Refusing? && v.phase.waited
  }

  ghost predicate PacedAt(log: seq<Event>, n: nat)
    requires n < |log|
  {
    May(Read(log[..n]), log[n])
  }

  ghost predicate Paced(log: seq<Event>) { forall n | 0 <= n < |log| :: PacedAt(log, n) }

  lemma LogSnoc(log: seq<Event>, e: Event)
    ensures Read(log + [e]) == After(Read(log), e)
    ensures Paced(log) && May(Read(log), e) ==> Paced(log + [e])
  {
    hide May, After;
    var more := log + [e];
    assert more[..|log|] == log;
    if Paced(log) && May(Read(log), e) {
      forall n | 0 <= n < |more| ensures PacedAt(more, n) {
        if n < |log| {
          assert PacedAt(log, n) && more[..n] == log[..n];
        }
      }
    }
  }

  lemma Before(log: seq<Event>, j: nat)
    requires 0 < j <= |log|
    ensures Read(log[..j]) == After(Read(log[..j - 1]), log[j - 1])
  {
    assert log[..j][..j - 1] == log[..j - 1];
  }

  // A refused credential is not dialled with again: until a look at the store
  // shows another one there is no dial at all.
  lemma {:induction false} NotUntilItChanges(log: seq<Event>, m: nat, n: nat)
    requires Paced(log) && m < n <= |log| && log[m].Dialled? && log[m].dial.Refused?
    requires forall k | m < k < n :: !(log[k].Checked? && !log[k].gone && log[k].now.Some? && log[k].now.value != log[m].tag)
    ensures forall k | m < k < n :: !log[k].Dialled?
    ensures var v := Read(log[..n]); v.phase.Leaving? || v.phase.Left? || (v.phase.Refusing? && v.phase.tag == log[m].tag)
    decreases n
  {
    Before(log, n);
    if m < n - 1 {
      NotUntilItChanges(log, m, n - 1);
      assert PacedAt(log, n - 1);
    }
  }

  // Before every look at the store it waits half a minute.
  lemma LooksApart(log: seq<Event>, m: nat, n: nat) returns (k: nat)
    requires Paced(log) && m < n < |log| && log[n].Checked?
    requires log[m].Checked? || (log[m].Dialled? && log[m].dial.Refused?)
    ensures m < k < n && log[k].Slept? && log[k].d == 30_000_000_000
  {
    assert PacedAt(log, n);
    Before(log, m + 1);
    k := LastSleep(log, m, n);
    assert PacedAt(log, k);
  }

  lemma {:induction false} LastSleep(log: seq<Event>, m: nat, n: nat) returns (k: nat)
    requires m < n <= |log|
    requires var v := Read(log[..m + 1]); !(v.phase.Refusing? && v.phase.waited)
    requires var v := Read(log[..n]); v.phase.Refusing? && v.phase.waited
    ensures m < k < n && log[k].Slept? && Read(log[..k]).phase.Refusing?
  {
    Before(log, n);
    k := n - 1;
    if !log[k].Slept? {
      k := LastSleep(log, m, n - 1);
    }
  }

  // After a failed dial or a lost connection, the next dial comes after one wait
  // that fits the failures in a row.
  lemma {:induction false} WaitsBetween(log: seq<Event>, m: nat, n: nat) returns (k: nat)
    requires Paced(log) && m < n < |log| && log[n].Dialled?
    requires log[m].Lost? || (log[m].Dialled? && log[m].dial.Unavailable?)
    requires forall j | m < j < n :: !log[j].Dialled?
    ensures m < k < n && log[k].Slept? && log[m].at <= log[k].at && log[k].at + log[k].d <= log[n].at
    // Half to all of a second doubled for every failure, of five minutes at
    // most, or what the service asked for when that is longer.
    ensures var full := Min(Doubled(Read(log[..m + 1]).failures), 300_000_000_000);
            var asked := if log[m].Dialled? then log[m].dial.retryAfter else 0;
            full / 2 <= log[k].d && asked <= log[k].d <= Max(full, asked)
  {
    hide WaitFits, Doubled, FullWait;
    assert PacedAt(log, n);
    Before(log, m + 1);
    k := FirstSleep(log, m, n);
    StaysFailing(log, m, k);
    assert PacedAt(log, k);
    FitsMeans(Read(log[..k]).failures, Read(log[..k]).phase.retryAfter, log[k].d);
    Before(log, k + 1);
    TimeRises(log, k + 1, n);
  }

  lemma FitsMeans(failures: nat, retryAfter: int, d: int)
    requires WaitFits(failures, retryAfter, d)
    ensures var full := Min(Doubled(failures), MAX_BACKOFF); full / 2 <= d && retryAfter <= d <= Max(full, retryAfter)
  {
    WaitsGrow(failures, failures);
  }

  lemma {:induction false} FirstSleep(log: seq<Event>, m: nat, n: nat) returns (k: nat)
    requires Paced(log) && m < n <= |log| && Read(log[..m + 1]).phase.Failing? && Read(log[..n]).phase.Ready?
    ensures m < k < n && log[k].Slept? && forall j | m < j < k :: !log[j].Slept?
    decreases n - m
  {
    hide WaitFits;
    if n == m + 1 {
      assert false;
    }
    Before(log, m + 2);
    assert PacedAt(log, m + 1);
    if log[m + 1].Slept? {
      k := m + 1;
    } else {
      k := FirstSleep(log, m + 1, n);
    }
  }

  // Until it sleeps nothing changes but the bell's health.
  lemma {:induction false} StaysFailing(log: seq<Event>, m: nat, k: nat)
    requires Paced(log) && m < k <= |log| && Read(log[..m + 1]).phase.Failing? && forall j | m < j < k :: !log[j].Slept?
    ensures Read(log[..k]) == Read(log[..m + 1])
    decreases k
  {
    hide WaitFits;
    if k > m + 1 {
      StaysFailing(log, m, k - 1);
      Before(log, k);
      assert PacedAt(log, k - 1);
    }
  }

  lemma {:induction false} TimeRises(log: seq<Event>, i: nat, j: nat)
    requires Paced(log) && i <= j <= |log|
    ensures Read(log[..i]).time <= Read(log[..j]).time
    decreases j
  {
    if i < j {
      TimeRises(log, i, j - 1);
      Before(log, j);
      assert PacedAt(log, j - 1);
      if log[j - 1].Slept? {
        SleepIsLong(Read(log[..j - 1]), log[j - 1]);
      }
    }
  }

  lemma SleepIsLong(v: View, e: Event)
    requires May(v, e) && e.Slept?
    ensures e.d >= 0
  {
    if v.phase.Failing? {
      WaitsGrow(v.failures, v.failures);
    }
  }

  // The failures counted: those since the last connection that stayed up for a
  // minute, or the last change of a refused credential.
  lemma FailuresAre(log: seq<Event>, n: nat)
    requires n < |log| && Paced(log)
    ensures var v, w := Read(log[..n]), Read(log[..n + 1]);
            w.failures == match log[n]
                          case Slept(_, _) => if v.phase.Failing? then v.failures + 1 else v.failures
                          case Lost(at) => if v.phase.Up? && at - v.phase.since >= 60_000_000_000 then 0 else v.failures
                          case Checked(now, gone) => if v.phase.Refusing? && !gone && now.Some? && now != Some(v.phase.tag) then 0 else v.failures
                          case _ => v.failures
  {
    Before(log, n + 1);
    assert PacedAt(log, n);
  }

  class Client {
    var healthy: bool
    var clock: int
    // How many more waits of any kind there are before the context ends.
    var left: nat
    ghost var log: seq<Event>
    // How often a connection failed.
    ghost var faults: nat

    constructor (left: nat)
      ensures Valid() && log == [] && !healthy && clock == 0 && Read(log) == View(Ready, 0, 0) && this.left == left
    {
      healthy, clock, this.left, log, faults := false, 0, left, [], 0;
    }

    ghost predicate Valid()
      reads this
    {
      Proper(log) && Settled(log) && healthy == Healthy(log) && Paced(log) && Read(log).time <= clock
    }

    // What is logged with a time is logged at that time.
    ghost method Note(e: Event)
      requires Proper(log) && Paced(log) && May(Read(log), e) && Read(log).time <= clock
      requires match e
        case Heard(_) => Settled(log)
        case Lost(at) => Settled(log) && at == clock
        case Dialled(_, _, at) => Settled(log) && !Healthy(log) && at == clock && left > 0
        case Slept(at, d) => Settled(log) && !Healthy(log) && at + d <= clock
        case Checked(_, _) => Settled(log) && !Healthy(log)
        case Reported(up) => if up then Reports(log) else Settled(log) && Healthy(log)
        case Rang(why) => if why.Connected? then Connects(log) else if why.Asked? then Asks(log) else Settled(log)
      modifies this`log
      ensures log == old(log) + [e] && Proper(log) && Paced(log) && Read(log) == After(Read(old(log)), e)
      ensures Healthy(log) == if e.Reported? then e.up else Healthy(old(log))
    {
      hide Proper, Paced, Healthy, May, After, Settled;
      ProperSnoc(log, e);
      LogSnoc(log, e);
      log := log + [e];
    }

    // setHealthy: only a change is reported, and one up only for a pong.
    method SetHealthy(up: bool)
      requires Proper(log) && healthy == Healthy(log) && Paced(log) && Read(log).time <= clock
      requires if up then Read(log).phase.Up? else Read(log).phase.Failing?
      requires if up && !healthy then Reports(log) else Settled(log)
      modifies this`healthy, this`log
      ensures Proper(log) && healthy == up == Healthy(log) && Paced(log) && Read(log) == Read(old(log))
      ensures !up ==> Settled(log)
      ensures log == if old(healthy) == up then old(log) else old(log) + [Reported(up)]
    {
      hide Proper, Paced, Healthy, Read, Settled;
      if healthy == up {
        return;
      }
      healthy := up;
      Note(Reported(up));
      if !up {
        QuietIsSettled(log);
      }
    }

    method Ring(why: Why)
      requires Proper(log) && healthy == Healthy(log) && Paced(log) && Read(log).time <= clock
      requires if why.Gone? then Read(log).phase.Leaving? else Read(log).phase.Up?
      requires match why case Connected => Connects(log) case Asked => Asks(log) case Gone => Settled(log)
      modifies this`log
      ensures Proper(log) && healthy == Healthy(log) && log == old(log) + [Rang(why)] && Paced(log)
      ensures Read(log) == After(Read(old(log)), Rang(why))
    {
      hide Proper, Paced, Healthy, Read, Settled;
      Note(Rang(why));
    }

    // Time passes, and the context may end.
    method Elapse(d: int) returns (over: bool)
      requires d >= 0
      modifies this`clock, this`left
      ensures old(clock) <= clock && left <= old(left) && (over <==> left == 0)
      ensures !over ==> left < old(left) && old(clock) + d <= clock
    {
      left := Max(left - 1, 0);
      over := left == 0;
      var late: nat := Any();
      clock := clock + late + if over then 0 else d;
    }

    // Whether the socket fails now, or its heartbeat is not answered in time.
    method Breaks() returns (failed: bool)
      modifies this`faults
      ensures faults == old(faults) + if failed then 1 else 0
    {
      failed := Any();
      faults := faults + if failed then 1 else 0;
    }

    // session: one connected socket until it fails, or the context ends.
    method Session()
      requires Valid() && Read(log).phase.Up?
      modifies this
      ensures Valid() && old(log) <= log && old(clock) <= clock && left <= old(left)
      // It ends with the context, or because the connection failed.
      ensures left == 0 || faults > old(faults)
      ensures |log| > |old(log)| && log[|log| - 1] == Lost(clock) && Read(log) == After(Read(old(log)), Lost(clock))
    {
      hide Proper, Paced, Healthy, Read, Connects, Asks, Reports, Settled;
      while true
        invariant Valid() && old(log) <= log && old(clock) <= clock && Read(log) == Read(old(log)) && left <= old(left)
        invariant faults == old(faults)
        decreases left
      {
        var over := Elapse(0);
        var failed := Breaks();
        if over || failed {
          break;
        }
        var frame: Incoming := Any();
        Take(frame);
      }
      Note(Lost(clock));
      QuietIsSettled(log);
    }

    // One frame: the first pong makes the socket count as healthy, and rings for
    // what was queued meanwhile; a signal rings; anything else is ignored.
    method Take(frame: Incoming)
      requires Valid() && Read(log).phase.Up?
      modifies this`healthy, this`log
      ensures Valid() && Read(log) == Read(old(log))
      ensures healthy == (old(healthy) || frame.Pong?)
      ensures log == old(log) + [Heard(frame)] +
                if frame.Pong? && !old(healthy) then [Reported(true), Rang(Connected)] else if frame.SyncSignal? then [Rang(Asked)] else []
    {
      hide Proper, Paced, Healthy, Read;
      Note(Heard(frame));
      match frame {
        case Pong =>
          if !healthy {
            SetHealthy(true);
            Ring(Connected);
          }
        case SyncSignal => Ring(Asked);
        case Noise =>
      }
    }

    // backoff: half of the full wait and a random part of the rest, or longer
    // when the service says so.
    method Backoff(failures: nat, retryAfter: int) returns (d: int, ghost drawn: nat)
      ensures WaitFits(failures, retryAfter, d)
      // So boxes that dropped together come back apart.
      ensures drawn <= FullWait(failures) / 2 && d == Max(FullWait(failures) / 2 + drawn, retryAfter)
    {
      d := MAX_BACKOFF;
      WaitsGrow(failures, failures);
      if failures < 30 {
        var shifted, i := MIN_BACKOFF, 0;
        while i < failures
          invariant 0 <= i <= failures && shifted == Doubled(i)
        {
          shifted := 2 * shifted;
          i := i + 1;
        }
        d := Min(shifted, MAX_BACKOFF);
      }
      var jitter: nat := Any();
      drawn := jitter % (d / 2 + 1);
      d := d / 2 + jitter % (d / 2 + 1);
      if retryAfter > d {
        d := retryAfter;
      }
    }

    // sleep: the wait, or less if the context ends.
    method Sleep(d: int) returns (ok: bool)
      requires Valid() && !healthy && d >= 0 && May(Read(log), Slept(clock, d))
      modifies this`clock, this`left, this`log
      ensures Valid() && old(log) <= log && old(clock) <= clock
      ensures ok ==> left < old(left) && Read(log) == After(Read(old(log)), Slept(old(clock), d))
      ensures !ok ==> left == 0 && log == old(log)
    {
      hide Proper, Paced, Healthy, Read, May, Settled;
      ghost var from := clock;
      var over := Elapse(d);
      ok := !over;
      if ok {
        Note(Slept(from, d));
        QuietIsSettled(log);
      }
    }

    // Run, until the context ends or the box turns out to be removed.
    method Run() returns (gone: bool)
      requires Valid() && !healthy && Read(log) == View(Ready, 0, Read(log).time)
      modifies this
      ensures Proper(log) && Paced(log) && old(log) <= log && !healthy
      // It rings for the removal, last of all, exactly when it says so, and gives
      // up for no other reason than the context.
      ensures gone <==> log != [] && log[|log| - 1] == Rang(Gone)
      ensures gone || left == 0
    {
      hide Proper, Paced, Healthy, Read, Settled, WaitFits, FullWait;
      var failures: nat := 0;
      while true
        invariant Valid() && !healthy && old(log) <= log
        invariant Read(log).phase.Ready? && Read(log).failures == failures
        decreases left
      {
        var tag: nat := Any();
        var over := Elapse(0);
        if over {
          SettledIsOpen(log);
          return false;
        }
        var dial: Dial := Any();
        Note(Dialled(tag, dial, clock));
        QuietIsSettled(log);
        match dial {
          case IsGone =>
            Ring(Gone);
            return true;
          case Refused =>
            var removed := AwaitNewCredential(tag);
            if removed || left == 0 {
              return removed;
            }
            failures := 0;
          case Unavailable(retryAfter) =>
            ghost var drawn;
            var d;
            d, drawn := Backoff(failures, retryAfter);
            WaitIsLong(failures, retryAfter, d);
            var ok := Sleep(d);
            if !ok {
              return false;
            }
            failures := failures + 1;
          case Conn =>
            var started := clock;
            Session();
            SetHealthy(false);
            if left == 0 {
              return false;
            }
            if clock - started >= STABLE {
              failures := 0;
            }
            ghost var drawn;
            var d;
            d, drawn := Backoff(failures, 0);
            WaitIsLong(failures, 0, d);
            var ok := Sleep(d);
            if !ok {
              return false;
            }
            failures := failures + 1;
        }
      }
    }

    // A refused credential is asked about locally until it changes.
    method AwaitNewCredential(refused: nat) returns (removed: bool)
      requires Valid() && !healthy && Read(log).phase == Refusing(refused, false)
      modifies this`clock, this`left, this`log
      ensures Proper(log) && Paced(log) && old(log) <= log && (removed <==> log != [] && log[|log| - 1] == Rang(Gone))
      ensures left <= old(left) && (!removed ==> Valid())
      ensures !removed && left > 0 ==> Read(log).phase.Ready? && Read(log).failures == 0
    {
      hide Proper, Paced, Healthy, Read;
      while true
        invariant Valid() && old(log) <= log && Read(log).phase == Refusing(refused, false) && left <= old(left)
        decreases left
      {
        var ok := Sleep(REFUSED_CHECK);
        if !ok {
          return false;
        }
        var tag: Option<nat> := Any();
        var isGone: bool := Any();
        Note(Checked(tag, isGone));
        if isGone {
          Ring(Gone);
          return true;
        }
        if tag.Some? && tag.value != refused {
          return false;
        }
      }
    }
  }

  // Only a pong, a signal, a report up and the ring for a removal leave the log
  // unsettled.
  lemma QuietIsSettled(log: seq<Event>)
    requires log != []
    requires var e := log[|log| - 1]; e.Dialled? || e.Lost? || e.Slept? || e == Reported(false)
    ensures Settled(log)
  {
  }

  lemma SettledIsOpen(log: seq<Event>)
    ensures Settled(log) && log != [] ==> log[|log| - 1] != Rang(Gone)
  {
  }

  lemma WaitIsLong(failures: nat, retryAfter: int, d: int)
    requires WaitFits(failures, retryAfter, d)
    ensures d >= 0
  {
    WaitsGrow(failures, failures);
  }
}
