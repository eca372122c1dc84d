// The sync loop's waits: rings, the bell's health and the timer
// (cmd/doorman/sync.go, cmd/doorman/sync_pace.go).
module SyncWaits {
  import opened Basics

  // Nanoseconds of one clock.
  const SECOND := 1_000_000_000
  const INTERVAL := 5 * SECOND
  const MIN_GAP := SECOND
  const MAX_DELAY := 300 * SECOND

  // ---- Pacing ----

  function Shifted(k: nat): int { if k == 0 then INTERVAL else 2 * Shifted(k - 1) }

  // The full delay before the pass after k + 1 failures.
  function Backoff(k: nat): int {
    var d := Shifted(if k < 8 then k else 8);
    if d < MAX_DELAY then d else MAX_DELAY
  }

  lemma ShiftedValues()
    ensures Shifted(0) == INTERVAL && Shifted(1) == 2 * INTERVAL && Shifted(2) == 4 * INTERVAL && Shifted(3) == 8 * INTERVAL
    ensures Shifted(4) == 16 * INTERVAL && Shifted(5) == 32 * INTERVAL && Shifted(6) == 64 * INTERVAL && Shifted(7) == 128 * INTERVAL && Shifted(8) == 256 * INTERVAL
  {
    assert Shifted(3) == 2 * Shifted(2) && Shifted(2) == 2 * Shifted(1);
    assert Shifted(6) == 2 * Shifted(5) && Shifted(5) == 2 * Shifted(4) && Shifted(4) == 2 * Shifted(3);
    assert Shifted(8) == 2 * Shifted(7) && Shifted(7) == 2 * Shifted(6);
  }

  // Delays only grow, from the ordinary interval to five minutes, which six
  // failures in a row reach.
  lemma BackoffGrows(k: nat)
    ensures INTERVAL <= Backoff(k) <= Backoff(k + 1) <= MAX_DELAY
    ensures Backoff(0) == INTERVAL && (Backoff(k) == MAX_DELAY <==> k >= 6)
  {
    ShiftedValues();
  }

  // ---- What the loop does ----

  datatype Outcome = Done | Removed | Failed(retryAfter: int)

  datatype Why = Start | Timer | Token

  // A ring; a ring taken off the buffer; a pass begun and finished; a timer set
  // for a health of the bell, and going off; a signal of the bell taken; the
  // loop asleep, with the bell's health and whether all of it has been
  // signalled; the context's end.
  datatype Event =
    | Rang
    | Took
    | Began(why: Why, at: int)
    | Finished(outcome: Outcome, at: int)
    | Set(at: int, due: int, health: bool)
    | Fired(at: int)
    | Heard
    | Slept(at: int, up: bool, told: bool)
    | Cancelled

  predicate Stamped(e: Event) { e.Began? || e.Finished? || e.Set? || e.Fired? || e.Slept? }

  datatype Pass = NoPass | Running(at: int) | Over(at: int, outcome: Outcome, end: int)

  datatype Alarm = Alarm(setAt: int, due: int, health: bool)

  // Where a log has come to: whether a ring waits; whether one was taken, or the
  // timer went off, whose pass has yet to begin; the latest pass and the timer set since;
  // whether a signal was taken since that; the failed passes in a row; the
  // latest time; whether the context has ended.
  datatype View = View(waiting: bool, owed: bool, fired: bool, pass: Pass, timer: Option<Alarm>, heard: bool, failures: nat, time: int,
                       over: bool)

  const NothingYet := View(false, false, false, NoPass, None, false, 0, 0, false)

  function After(v: View, e: Event): View {
    match e
    case Rang => v.(waiting := true)
    case Took => v.(waiting := false, owed := true)
    case Began(_, at) => v.(owed := false, fired := false, pass := Running(at), timer := None, heard := false, time := at)
    case Finished(outcome, at) =>
      v.(pass := if v.pass.Running? then Over(v.pass.at, outcome, at) else v.pass,
         failures := if outcome.Done? then 0 else if outcome.Failed? then v.failures + 1 else v.failures,
         time := at)
    case Set(at, due, health) => v.(timer := Some(Alarm(at, due, health)), heard := false, time := at)
    case Fired(at) => v.(fired := true, time := at)
    case Heard => v.(heard := true)
    case Slept(at, _, _) => v.(time := at)
    case Cancelled => v.(over := true)
  }

  function Read(log: seq<Event>): View {
    if log == [] then NothingYet else After(Read(log[..|log| - 1]), log[|log| - 1])
  }

  function IntervalOf(slow: int, up: bool): int { if slow > 0 && up then slow else INTERVAL }

  // The wait after a pass: what is left of the interval when it succeeded, the
  // backoff of its failures in a row when it failed, none when the box is gone.
  predicate WaitFits(v: View, slow: int, health: bool, d: int) {
    && v.pass.Over?
    && match v.pass.outcome
       case Done => d == Max(IntervalOf(slow, health) - (v.pass.end - v.pass.at), MIN_GAP)
       case Failed(retryAfter) =>
         v.failures > 0 && Backoff(v.failures - 1) / 2 <= d && retryAfter <= d <= Max(Backoff(v.failures - 1), retryAfter)
       case Removed => false
  }

  // A signal has a healthy pass timed again, from its start; a failed one keeps
  // its delay.
  predicate AgainFits(v: View, slow: int, health: bool, at: int, due: int) {
    v.pass.Over? && v.pass.outcome.Done? && v.heard && due == Max(v.pass.at + IntervalOf(slow, health), at)
  }

  // Between passes, with none due to begin.
  predicate Idle(v: View) { v.pass.Over? && !v.owed && !v.fired && !v.over }

  // What may come next. A ring taken, or a timer gone off, is answered by the
  // next pass and nothing else comes first; a timer goes off when due; a pass
  // begins for nothing else, and none once the box is gone; only rings come after
  // the context's end; and the loop never
  // sleeps on a ring, on a due timer, or, after a healthy pass, on a timer set
  // for another health of the bell than it was told of.
  predicate May(v: View, slow: int, e: Event) {
    && (Stamped(e) ==> v.time <= e.at)
    && match e
       case Rang => true
       case Took => v.waiting && Idle(v)
       case Began(why, at) =>
         && !v.pass.Running? && !v.over && (v.pass.Over? ==> !v.pass.outcome.Removed?)
         && (why.Token? <==> v.owed) && (why.Timer? <==> v.fired) && (why.Start? <==> v.pass.NoPass?)
       case Finished(_, _) => v.pass.Running? && !v.over
       case Set(at, due, health) =>
         Idle(v) && if v.timer.None? then WaitFits(v, slow, health, due - at) else AgainFits(v, slow, health, at, due)
       case Fired(at) => Idle(v) && v.timer.Some? && v.timer.value.due <= at
       case Heard => Idle(v) && v.timer.Some?
       case Slept(at, up, told) =>
         && !v.waiting && Idle(v) && v.timer.Some? && at < v.timer.value.due
         && (told && v.pass.outcome.Done? ==> v.timer.value.health == up)
       case Cancelled => !v.over
  }

  ghost predicate LegalAt(log: seq<Event>, slow: int, n: nat)
    requires n < |log|
  {
    May(Read(log[..n]), slow, log[n])
  }

  ghost predicate Legal(log: seq<Event>, slow: int) { forall n | 0 <= n < |log| :: LegalAt(log, slow, n) }

  lemma LogSnoc(log: seq<Event>, slow: int, e: Event)
    ensures Read(log + [e]) == After(Read(log), e)
    ensures Legal(log, slow) && May(Read(log), slow, e) ==> Legal(log + [e], slow)
  {
    hide May, After;
    var more := log + [e];
    assert more[..|log|] == log;
    if Legal(log, slow) && May(Read(log), slow, e) {
      forall n | 0 <= n < |more| ensures LegalAt(more, slow, n) {
        if n < |log| {
          assert LegalAt(log, slow, n) && more[..n] == log[..n];
        }
      }
    }
  }

  lemma Before(log: seq<Event>, j: nat)
    requires 0 < j <= |log|
    ensures Read(log[..j]) == After(Read(log[..j - 1]), log[j - 1])
  {
    assert log[..j][..j - 1] == log[..j - 1];
  }

  // ---- Rings ----

  lemma {:induction false} KeptUntilTaken(log: seq<Event>, i: nat, j: nat)
    requires i < j <= |log| && log[i].Rang? && forall k | i < k < j :: !log[k].Took?
    ensures Read(log[..j]).waiting
    decreases j - i
  {
    Before(log, j);
    if i < j - 1 {
      KeptUntilTaken(log, i, j - 1);
    }
  }

  lemma {:induction false} OwedUntilBegun(log: seq<Event>, i: nat, j: nat)
    requires i < j <= |log| && log[i].Took? && forall k | i < k < j :: !log[k].Began?
    ensures Read(log[..j]).owed
    decreases j - i
  {
    Before(log, j);
    if i < j - 1 {
      OwedUntilBegun(log, i, j - 1);
    }
  }

  lemma {:induction false} NotOwedUntilTaken(log: seq<Event>, i: nat, j: nat)
    requires i < j <= |log| && log[i].Began? && forall k | i < k < j :: !log[k].Took?
    ensures !Read(log[..j]).owed
    decreases j - i
  {
    Before(log, j);
    if i < j - 1 {
      NotOwedUntilTaken(log, i, j - 1);
    }
  }

  // No lost wake-up: between a ring and any later sleep a pass began for one.
  lemma NoLostRing(log: seq<Event>, slow: int, i: nat, j: nat) returns (k: nat)
    requires Legal(log, slow) && i < j < |log| && log[i].Rang? && log[j].Slept?
    ensures i < k < j && log[k].Began? && log[k].why.Token?
  {
    hide After, Read;
    assert LegalAt(log, slow, j);
    if forall m | i < m < j :: !log[m].Took? {
      KeptUntilTaken(log, i, j);
      assert false;
    }
    var m :| i < m < j && log[m].Took?;
    if forall k | m < k < j :: !log[k].Began? {
      OwedUntilBegun(log, m, j);
      assert false;
    }
    k := FirstBegan(log, m, j);
    OwedUntilBegun(log, m, k);
    assert LegalAt(log, slow, k);
  }

  lemma {:induction false} FirstBegan(log: seq<Event>, m: nat, j: nat) returns (k: nat)
    requires m < j <= |log| && exists k :: m < k < j && log[k].Began?
    ensures m < k < j && log[k].Began? && forall i | m < i < k :: !log[i].Began?
    decreases j - m
  {
    k := m + 1;
    if !log[k].Began? {
      k := FirstBegan(log, m + 1, j);
    }
  }

  // Passes begun for a ring.
  function Answered(log: seq<Event>, i: nat, j: nat): nat
    requires i <= j <= |log|
    decreases j - i
  {
    if i == j then 0 else Answered(log, i, j - 1) + if log[j - 1].Began? && log[j - 1].why.Token? then 1 else 0
  }

  function One(b: bool): nat { if b then 1 else 0 }

  // With no further ring, what waits or is owed now is answered once.
  lemma {:induction false} AnsweredOnce(log: seq<Event>, slow: int, i: nat, j: nat)
    requires Legal(log, slow) && i <= j <= |log| && forall k | i <= k < j :: !log[k].Rang?
    ensures var v, w := Read(log[..i]), Read(log[..j]);
            Answered(log, i, j) + One(w.waiting) + One(w.owed) == One(v.waiting) + One(v.owed)
    decreases j - i
  {
    hide Read, WaitFits, AgainFits;
    if i < j {
      AnsweredOnce(log, slow, i, j - 1);
      Before(log, j);
      assert LegalAt(log, slow, j - 1);
    }
  }

  // However many rings come between a pass's beginning and the next ring taken,
  // they leave exactly one ring's pass to run by the time the loop next sleeps.
  lemma BurstIsOnePass(log: seq<Event>, slow: int, begin: nat, ring: nat, end: nat, j: nat)
    requires Legal(log, slow) && begin < ring < end <= j < |log| && log[begin].Began? && log[ring].Rang? && log[j].Slept?
    requires forall k | begin < k < end :: !log[k].Took?
    requires forall k | end <= k < j :: !log[k].Rang?
    ensures Answered(log, end, j) == 1
  {
    hide Read;
    KeptUntilTaken(log, ring, end);
    NotOwedUntilTaken(log, begin, end);
    AnsweredOnce(log, slow, end, j);
    assert LegalAt(log, slow, j);
  }

  // ---- Waits ----

  // A timer fits its pass: from the pass's start the interval, or from its end
  // the shortest gap, put off by what passed before it was set; or the backoff.
  predicate Timed(v: View, slow: int) {
    && (v.fired ==> v.timer.Some? && v.timer.value.due <= v.time)
    && (v.timer.Some? ==>
      var t := v.timer.value;
      && v.pass.Over? && v.pass.at <= v.pass.end <= t.setAt <= v.time
      && match v.pass.outcome
         case Done =>
           var due := v.pass.at + IntervalOf(slow, t.health);
           due <= t.due <= Max(due, v.pass.end + MIN_GAP) + (t.setAt - v.pass.end)
         case Failed(retryAfter) =>
           v.failures > 0 && Backoff(v.failures - 1) / 2 <= t.due - t.setAt <= Max(Backoff(v.failures - 1), retryAfter) &&
           retryAfter <= t.due - t.setAt
         case Removed => false)
  }

  predicate InOrder(v: View) {
    (v.pass.Running? ==> v.pass.at <= v.time) && (v.pass.Over? ==> v.pass.at <= v.pass.end <= v.time)
  }

  lemma StepIsTimed(v: View, slow: int, e: Event)
    requires InOrder(v) && Timed(v, slow) && May(v, slow, e) && (e.Finished? ==> v.timer.None?)
    ensures InOrder(After(v, e)) && Timed(After(v, e), slow)
    ensures v.pass.Running? ==> e.Finished? || After(v, e).timer == v.timer
  {
    hide Backoff, IntervalOf;
  }

  lemma {:induction false} AlwaysTimed(log: seq<Event>, slow: int, n: nat)
    requires Legal(log, slow) && n <= |log|
    ensures InOrder(Read(log[..n])) && Timed(Read(log[..n]), slow)
    ensures Read(log[..n]).pass.Running? ==> Read(log[..n]).timer.None?
  {
    if n > 0 {
      hide After, May, Timed, InOrder, Read;
      AlwaysTimed(log, slow, n - 1);
      Before(log, n);
      assert LegalAt(log, slow, n - 1);
      OneStep(Read(log[..n - 1]), slow, log[n - 1]);
    }
  }

  lemma OneStep(v: View, slow: int, e: Event)
    requires InOrder(v) && Timed(v, slow) && May(v, slow, e) && (v.pass.Running? ==> v.timer.None?)
    ensures InOrder(After(v, e)) && Timed(After(v, e), slow)
    ensures After(v, e).pass.Running? ==> After(v, e).timer.None?
  {
    hide WaitFits, AgainFits, Timed;
    StepIsTimed(v, slow, e);
  }

  // The pass a log has come to is its last one.
  lemma {:induction false} LastPass(log: seq<Event>, slow: int, n: nat) returns (b: nat, f: nat)
    requires Legal(log, slow) && n <= |log| && Read(log[..n]).pass.Over?
    ensures b < f < n && log[b].Began? && log[f].Finished? && Read(log[..n]).pass == Over(log[b].at, log[f].outcome, log[f].at)
    ensures forall k | b < k < n :: !log[k].Began?
  {
    hide Read, WaitFits, AgainFits;
    NothingRead(log);
    Before(log, n);
    assert LegalAt(log, slow, n - 1);
    if log[n - 1].Finished? {
      b := LastBegan(log, slow, n - 1);
      f := n - 1;
    } else {
      b, f := LastPass(log, slow, n - 1);
    }
  }

  lemma {:induction false} LastBegan(log: seq<Event>, slow: int, n: nat) returns (b: nat)
    requires Legal(log, slow) && n <= |log| && Read(log[..n]).pass.Running?
    ensures b < n && log[b].Began? && Read(log[..n]).pass.at == log[b].at && forall k | b < k < n :: !log[k].Began?
  {
    hide May, Read;
    NothingRead(log);
    Before(log, n);
    if log[n - 1].Began? {
      b := n - 1;
    } else {
      b := LastBegan(log, slow, n - 1);
    }
  }

  // The bell decides every sleep after a healthy pass: the loop sleeps until
  // the interval of the health it was told of, from that pass's start, or until
  // the shortest gap from its end, and no longer than it took to set the timer
  // besides. With the bell told down that is the ordinary interval. After a
  // failed pass it is the backoff of the failures in a row.
  lemma SleepsByTheBell(log: seq<Event>, slow: int, j: nat) returns (b: nat, f: nat)
    requires Legal(log, slow) && j < |log| && log[j].Slept?
    ensures b < f < j && log[b].Began? && log[f].Finished? && forall k | b < k < j :: !log[k].Began?
    ensures Read(log[..j]).timer.Some? && log[j].at < Read(log[..j]).timer.value.due && !log[f].outcome.Removed?
    ensures var t := Read(log[..j]).timer.value; var due := log[b].at + IntervalOf(slow, log[j].up);
            log[f].outcome.Done? && log[j].told ==>
              due <= t.due <= Max(due, log[f].at + MIN_GAP) + (t.setAt - log[f].at) && log[f].at <= t.setAt
    ensures var t, k := Read(log[..j]).timer.value, Read(log[..j]).failures;
            log[f].outcome.Failed? ==>
              k > 0 && Backoff(k - 1) / 2 <= t.due - t.setAt <= Max(Backoff(k - 1), log[f].outcome.retryAfter)
  {
    hide Read, Backoff, IntervalOf;
    assert LegalAt(log, slow, j);
    AlwaysTimed(log, slow, j);
    b, f := LastPass(log, slow, j);
  }

  // And every pass a timer begins comes no sooner than that.
  lemma PassesKeepApart(log: seq<Event>, slow: int, n: nat) returns (b: nat, f: nat)
    requires Legal(log, slow) && n < |log| && log[n].Began? && log[n].why.Timer?
    ensures b < f < n && log[b].Began? && log[f].Finished? && forall k | b < k < n :: !log[k].Began?
    ensures Read(log[..n]).timer.Some?
    ensures log[f].outcome.Done? ==> log[n].at >= log[b].at + IntervalOf(slow, Read(log[..n]).timer.value.health)
    ensures log[f].outcome.Failed? ==>
              Read(log[..n]).failures > 0 && log[n].at >= log[f].at + Max(Backoff(Read(log[..n]).failures - 1) / 2, log[f].outcome.retryAfter)
  {
    hide Read, Backoff, IntervalOf;
    assert LegalAt(log, slow, n);
    AlwaysTimed(log, slow, n);
    b, f := LastPass(log, slow, n);
  }

  // Once a pass has found the box removed, no other begins.
  lemma {:induction false} NothingAfterRemoval(log: seq<Event>, slow: int, i: nat, j: nat)
    requires Legal(log, slow) && i < j <= |log| && log[i].Finished? && log[i].outcome.Removed?
    ensures forall k | i < k < j :: !log[k].Began?
    ensures var v := Read(log[..j]); v.pass.Over? && v.pass.outcome.Removed?
    decreases j
  {
    Before(log, j);
    assert LegalAt(log, slow, j - 1);
    if i < j - 1 {
      NothingAfterRemoval(log, slow, i, j - 1);
    }
  }

  // A second timer for the same wait is set only for a signal of the bell taken
  // since the first, and only after a healthy pass.
  lemma TimedAgainForASignal(log: seq<Event>, slow: int, i: nat, j: nat) returns (k: nat)
    requires Legal(log, slow) && i < j < |log| && log[i].Set? && log[j].Set? && forall n | i < n < j :: !log[n].Began?
    ensures i < k < j && log[k].Heard? && Read(log[..j]).pass.Over? && Read(log[..j]).pass.outcome.Done?
  {
    assert LegalAt(log, slow, j);
    Before(log, i + 1);
    StaysSet(log, i, j);
    k := LastHeard(log, i, j);
  }

  lemma {:induction false} StaysSet(log: seq<Event>, i: nat, j: nat)
    requires i < j <= |log| && log[i].Set? && forall n | i < n < j :: !log[n].Began?
    ensures Read(log[..j]).timer.Some?
    decreases j
  {
    hide Read;
    Before(log, j);
    if i < j - 1 {
      StaysSet(log, i, j - 1);
    }
  }

  lemma {:induction false} LastHeard(log: seq<Event>, i: nat, j: nat) returns (k: nat)
    requires i < j <= |log| && !Read(log[..i + 1]).heard && Read(log[..j]).heard
    ensures i < k < j && log[k].Heard?
  {
    hide Read;
    Before(log, j);
    k := j - 1;
    if !log[k].Heard? {
      k := LastHeard(log, i, j - 1);
    }
  }

  // A signal left over from the pass has the wait timed again without the
  // shortest gap: over every log, a timer ends within the gap of a healthy
  // pass's end exactly when it is such a second one, the interval has less than
  // the gap left by then, and the signal is taken within it.
  lemma GapIsSkippedWhen(log: seq<Event>, slow: int, n: nat)
    requires Legal(log, slow) && n < |log| && log[n].Set?
    ensures Read(log[..n]).pass.Over?
    ensures var v := Read(log[..n]);
            v.pass.outcome.Done? ==>
              (log[n].due < v.pass.end + MIN_GAP <==>
                 && v.timer.Some? && IntervalOf(slow, log[n].health) - (v.pass.end - v.pass.at) < MIN_GAP
                 && log[n].at < v.pass.end + MIN_GAP)
  {
    hide Read, Backoff, IntervalOf;
    assert LegalAt(log, slow, n);
    AlwaysTimed(log, slow, n);
  }

  // A pass of five seconds with a signal left over: the next begins at once.
  const SkippedLog :=
    [Began(Start, 0), Finished(Done, 5 * SECOND), Set(5 * SECOND, 6 * SECOND, false),
     Heard, Set(5 * SECOND, 5 * SECOND, false), Fired(5 * SECOND), Began(Timer, 5 * SECOND)]

  lemma GapIsSkipped(slow: int)
    ensures Legal(SkippedLog, slow) && SkippedLog[6].at < SkippedLog[1].at + MIN_GAP
  {
    hide Read;
    var log := SkippedLog;
    NothingRead(log);
    Before(log, 1);
    Before(log, 2);
    Before(log, 3);
    Before(log, 4);
    Before(log, 5);
    Before(log, 6);
    var v := Read(log[..2]);
    assert v == View(false, false, false, Over(0, Done, 5 * SECOND), None, false, 0, 5 * SECOND, false);
    forall n | 0 <= n < |log| ensures LegalAt(log, slow, n) {
      assert n == 0 || n == 1 || n == 2 || n == 3 || n == 4 || n == 5 || n == 6;
    }
  }

  lemma NothingRead(log: seq<Event>)
    ensures Read(log[..0]) == NothingYet
  {
  }

  lemma EmptyLog(slow: int)
    ensures Legal([], slow) && Read([]) == NothingYet
  {
  }
}

module SyncLoop {
  import opened Basics
  import opened SyncWaits

  datatype Exit = Ended | StoppedRemoved | OnceDone | OnceFailed

  // What a select comes back with.
  datatype Case = Stop | TimerDue | Ring | Health

  class Sync {
    // syncWake: the two one-place channels, the bell's health, and the cadence
    // while it is up. `signalling` is a bell report between its two steps.
    var rings: bool
    var changed: bool
    var up: bool
    const slow: int
    var signalling: bool
    var clock: int
    // syncPace.
    var failures: nat
    // How often anything more happens before the context ends.
    var left: nat

    ghost var log: seq<Event>

    constructor (slow: int, left: nat)
      ensures Counted() && Legal(log, slow) && this.slow == slow && log == [] && failures == 0 && !up
    {
      this.slow, this.left := slow, left;
      rings, changed, up, signalling, clock, failures, log := false, false, false, false, 0, 0, [];
    }

    // The buffer holds what the log says, and the log speaks of no later time.
    ghost predicate Counted()
      reads this
    {
      rings == Read(log).waiting && Read(log).time <= clock
    }

    // What is logged with a time is logged at that time.
    ghost method Note(e: Event)
      requires Stamped(e) ==> e.at == clock
      modifies this`log
      ensures log == old(log) + [e] && Read(log) == After(Read(old(log)), e)
      ensures Legal(old(log), slow) && May(Read(old(log)), slow, e) ==> Legal(log, slow)
    {
      LogSnoc(log, slow, e);
      log := log + [e];
    }

    // A ring: the buffer keeps one, however many there are.
    method RingNow()
      requires Counted()
      modifies this`rings, this`log
      ensures Counted() && rings && log == old(log) + [Rang] && OnlyRang(Read(old(log)), Read(log))
      ensures Legal(old(log), slow) ==> Legal(log, slow)
    {
      hide Legal, Read;
      if !rings {
        rings := true;
      }
      Note(Rang);
    }

    // setBell, in its two steps: the health is stored, then signalled.
    method StoreBell(up: bool)
      requires !signalling
      modifies this`up, this`signalling
      ensures this.up == up && signalling
    {
      this.up, signalling := up, true;
    }

    method SignalBell()
      requires signalling
      modifies this`changed, this`signalling
      ensures changed && !signalling
    {
      changed, signalling := true, false;
    }

    method Interval() returns (d: int)
      ensures d == IntervalOf(slow, up)
    {
      d := if slow > 0 && up then slow else INTERVAL;
    }

    // A timer set while the bell's health was `was` is still right, or there is
    // a signal to come.
    ghost predicate Told(was: bool)
      reads this
    {
      up == was || changed || signalling
    }

    // Time passes, and the bell does what it likes.
    method Others(ghost was: bool)
      requires Counted() && Told(was)
      modifies this`rings, this`changed, this`up, this`signalling, this`clock, this`log
      ensures Counted() && Told(was) && old(clock) <= clock && old(log) <= log && OnlyRang(Read(old(log)), Read(log))
      ensures Legal(old(log), slow) ==> Legal(log, slow)
    {
      hide Legal, Read;
      var n: nat := Any();
      while n > 0
        invariant Counted() && Told(was) && old(clock) <= clock && old(log) <= log && OnlyRang(Read(old(log)), Read(log))
        invariant Legal(old(log), slow) ==> Legal(log, slow)
      {
        var act: nat := Any();
        if act == 0 {
          RingNow();
        } else if act == 1 && !signalling {
          var health: bool := Any();
          StoreBell(health);
        } else if act == 2 && signalling {
          SignalBell();
        } else {
          var passed: nat := Any();
          clock := clock + passed;
        }
        n := n - 1;
      }
    }

    // syncPace.next. `jitter` is drawn from [0, limit].
    method NextWait(o: Outcome, elapsed: int, interval: int) returns (d: int, ghost drawn: nat)
      requires !o.Removed?
      modifies this`failures
      ensures o.Done? ==> failures == 0 && d == Max(interval - elapsed, MIN_GAP)
      ensures o.Failed? ==> failures == old(failures) + 1 && Backoff(old(failures)) / 2 <= d
      ensures o.Failed? ==> o.retryAfter <= d <= Max(Backoff(old(failures)), o.retryAfter)
      ensures o.Failed? ==> drawn <= Backoff(old(failures)) / 2 && d == Max(Backoff(old(failures)) / 2 + drawn, o.retryAfter)
    {
      drawn := 0;
      if o.Done? {
        failures := 0;
        return Max(interval - elapsed, MIN_GAP), drawn;
      }
      failures := failures + 1;
      var k := Min(failures - 1, 8);
      d := INTERVAL;
      var i := 0;
      while i < k
        invariant 0 <= i <= k && d == Shifted(i)
      {
        d := 2 * d;
        i := i + 1;
      }
      d := Min(d, MAX_DELAY);
      BackoffGrows(failures - 1);
      var jitter: nat := Any();
      drawn := jitter % (d / 2 + 1);
      d := d / 2 + jitter % (d / 2 + 1);
      if o.retryAfter > d {
        d := o.retryAfter;
      }
    }

    // The timer the log speaks of is this one, and fits the bell told of.
    ghost predicate Armed(timer: int, was: bool)
      reads this
    {
      var v := Read(log);
      && Idle(v) && v.timer.Some? && v.timer.value.due == timer
      && (v.pass.outcome.Done? ==> v.timer.value.health == was)
    }

    // The select. It blocks on the timer, on the context and on the channels it
    // is given, and comes back with one that is ready, taking what it holds.
    // Whenever none of those is ready the loop sleeps, and the log says so: it is
    // the caller's choice of channels and timer that makes the sleep right.
    method Select(timer: int, onRings: bool, onChanged: bool, ghost was: bool) returns (c: Case)
      requires Counted() && Told(was) && Armed(timer, was)
      modifies this`rings, this`changed, this`up, this`signalling, this`clock, this`left, this`log
      ensures c.Stop? || left < old(left)
      ensures Counted() && old(log) <= log && old(clock) <= clock
      ensures Legal(old(log), slow) && onRings && onChanged ==> Legal(log, slow)
      ensures c.Stop? <==> Read(log).over
      ensures c.Ring? ==> onRings
      ensures c.Health? ==> onChanged && !changed
      ensures Since(Read(old(log)), Read(log)) && (Read(log).owed <==> c.Ring?) && (Read(log).fired <==> c.TimerDue?) && (c.Health? ==> Read(log).heard)
      ensures !c.Health? ==> Told(was)
    {
      hide Legal, Read, IntervalOf, WaitFits, AgainFits;
      while left > 0
        invariant left <= old(left)
        invariant Counted() && Told(was) && Armed(timer, was) && old(log) <= log && old(clock) <= clock
        invariant Since(Read(old(log)), Read(log))
        invariant Legal(old(log), slow) && onRings && onChanged ==> Legal(log, slow)
      {
        left := left - 1;
        Others(was);
        var pick: nat := Any();
        if pick == 0 && clock >= timer {
          Note(Fired(clock));
          return TimerDue;
        }
        if pick == 1 && onRings && rings {
          rings := false;
          Note(Took);
          return Ring;
        }
        if pick == 2 && onChanged && changed {
          changed := false;
          Note(Heard);
          return Health;
        }
        if clock < timer && !(onRings && rings) && !(onChanged && changed) {
          Note(Slept(clock, up, !signalling));
        }
      }
      Note(Cancelled);
      c := Stop;
    }

    // The wait between passes, until a ring or the timer ends it; `over` is the
    // context's end. `before` is the bell's health the wait was computed for.
    method Await(at: int, healthy: bool, d: int, ghost before: bool) returns (over: bool, why: Why)
      requires Counted() && Legal(log, slow) && Told(before)
      requires var v := Read(log);
               && Idle(v) && v.timer.None? && WaitFits(v, slow, before, d)
               && at == v.pass.at && healthy == v.pass.outcome.Done?
      modifies this`rings, this`changed, this`up, this`signalling, this`clock, this`left, this`log
      ensures Counted() && Legal(log, slow) && old(log) <= log && !why.Start?
      ensures over || left < old(left)
      ensures over <==> Read(log).over
      ensures var v := Read(log);
              && v.pass == Read(old(log)).pass && v.failures == Read(old(log)).failures
              && (!over ==> (why.Token? <==> v.owed) && (why.Timer? <==> v.fired))
    {
      hide Legal, Read, IntervalOf, Backoff;
      ghost var was := before;
      var timer := clock + d;
      Note(Set(clock, timer, before));
      over, why := false, Timer;
      while true
        invariant left <= old(left)
        invariant Counted() && Legal(log, slow) && Told(was) && Armed(timer, was) && old(log) <= log
        invariant Read(log).pass == Read(old(log)).pass && Read(log).failures == Read(old(log)).failures
        decreases left
      {
        var c := Select(timer, true, true, was);
        match c {
          case Stop => return true, Timer;
          case TimerDue => return false, Timer;
          case Ring => return false, Token;
          case Health =>
            // A failing pass keeps its delay; a healthy one is timed again.
            if healthy {
              timer := Max(at + IntervalOf(slow, up), clock);
              Note(Set(clock, timer, up));
            }
            was := up;
        }
      }
    }

    // One exchange with the service, whatever it takes.
    method Exchange() returns (o: Outcome, over: bool)
      requires Counted() && Legal(log, slow) && Read(log).pass.Running? && Read(log).timer.None? && !Read(log).over
      modifies this`rings, this`changed, this`up, this`signalling, this`clock, this`log
      ensures Counted() && Legal(log, slow) && old(log) <= log && old(clock) <= clock
      ensures over <==> Read(log).over
      ensures var v, w := Read(old(log)), Read(log);
              && w.pass == Over(v.pass.at, o, clock) && w.owed == v.owed && w.fired == v.fired && w.timer.None?
              && w.failures == if o.Done? then 0 else if o.Failed? then v.failures + 1 else v.failures
    {
      hide Legal, Read;
      Others(up);
      o := Any();
      Note(Finished(o, clock));
      over := Any();
      if over {
        Note(Cancelled);
      }
    }

    // syncLoop, until the context ends.
    method Loop(once: bool) returns (exit: Exit)
      requires Counted() && log == [] && failures == 0
      modifies this
      ensures Legal(log, slow)
      ensures exit.Ended? <==> Read(log).over
      // Asked for one pass only, it sets no timer.
      ensures once ==> Read(log).timer.None?
      ensures !once ==> exit.Ended? || exit.StoppedRemoved?
      ensures Read(log).pass.Over?
      ensures !exit.Ended? ==> var o := Read(log).pass.outcome;
                               (exit.StoppedRemoved? <==> o.Removed?) && (exit.OnceDone? <==> o.Done?) && (exit.OnceFailed? <==> o.Failed?)
    {
      hide Legal, Read, IntervalOf, Backoff;
      EmptyLog(slow);
      exit := Ended;
      var why := Start;
      while true
        invariant Counted() && Legal(log, slow) && failures == Read(log).failures
        invariant May(Read(log), slow, Began(why, clock))
        decreases left
      {
        var at := clock;
        Note(Began(why, at));
        var o, cancelled := Exchange();
        if cancelled {
          return;
        }
        if o.Removed? {
          exit := StoppedRemoved;
          return;
        }
        if once {
          exit := if o.Done? then OnceDone else OnceFailed;
          return;
        }
        var elapsed := clock - at;
        Others(up);
        ghost var before := up;
        var interval := Interval();
        ghost var drawn;
        var d;
        d, drawn := NextWait(o, elapsed, interval);
        Others(before);
        var over;
        over, why := Await(at, o.Done?, d, before);
        if over {
          return;
        }
      }
    }
  }

  predicate OnlyRang(v: View, w: View) { w == v.(waiting := w.waiting) }

  // All that a wait leaves as it was.
  predicate Since(v: View, w: View) {
    w.pass == v.pass && w.timer == v.timer && w.failures == v.failures
  }
}
