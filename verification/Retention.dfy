// backup.Keep and backup.Deliver: which bundles a destination keeps, and why a
// prune every night keeps what one prune of the whole history would.
module Retention {
  import opened Basics

  // Seconds since the epoch. A calendar date names a day and an ISO year and
  // week name a Monday-based week; 1 January 1970 was a Thursday.
  function DayOf(at: int): int { at / 86400 }

  function WeekOf(at: int): int { (DayOf(at) + 3) / 7 }

  ghost predicate Monotone(key: int -> int) {
    forall a, b | a <= b :: key(a) <= key(b)
  }

  lemma CalendarIsMonotone()
    ensures Monotone(DayOf) && Monotone(WeekOf)
  {
  }

  // ---- The rule, without an order of processing ----

  function KeysAbove(key: int -> int, s: set<int>, k: int): set<int> {
    set u | u in s && key(u) > k :: key(u)
  }

  // The newest of its day (or week), among the newest `limit` of them.
  ghost predicate KeptBy(key: int -> int, limit: int, s: set<int>, t: int) {
    && t in s
    && (forall u | u in s && key(u) == key(t) :: u <= t)
    && |KeysAbove(key, s, key(t))| < limit
  }

  ghost predicate Kept(daily: int, weekly: int, s: set<int>, t: int) {
    KeptBy(DayOf, daily, s, t) || KeptBy(WeekOf, weekly, s, t)
  }

  ghost function KeepSet(daily: int, weekly: int, s: set<int>): set<int> {
    set t | t in s && Kept(daily, weekly, s, t)
  }

  // ---- What days and weeks are ----

  predicate Midnight(m: int) { m % 86400 == 0 }

  // 5 January 1970 was a Monday.
  predicate MondayMidnight(m: int) { (m - 4 * 86400) % 604800 == 0 }

  lemma SameDay(a: int, b: int)
    requires a <= b
    ensures DayOf(a) == DayOf(b) <==> forall m | a < m <= b :: !Midnight(m)
  {
    if DayOf(a) < DayOf(b) {
      assert Midnight(DayOf(b) * 86400);
    }
  }

  lemma SameWeek(a: int, b: int)
    requires a <= b
    ensures WeekOf(a) == WeekOf(b) <==> forall m | a < m <= b :: !MondayMidnight(m)
  {
    if WeekOf(a) < WeekOf(b) {
      assert MondayMidnight((7 * WeekOf(b) - 3) * 86400);
    } else {
      forall m | a < m <= b ensures !MondayMidnight(m) {
        if MondayMidnight(m) {
          WeekTurns(m);
        }
      }
    }
  }

  lemma WeekTurns(m: int)
    requires MondayMidnight(m)
    ensures WeekOf(m - 1) < WeekOf(m)
  {
  }

  ghost predicate Turns(key: int -> int, turn: int -> bool) {
    forall a, b | a <= b :: key(a) == key(b) <==> forall m | a < m <= b :: !turn(m)
  }

  lemma CalendarTurns()
    ensures Turns(DayOf, Midnight) && Turns(WeekOf, MondayMidnight)
  {
    forall a, b | a <= b ensures DayOf(a) == DayOf(b) <==> forall m | a < m <= b :: !Midnight(m) { SameDay(a, b); }
    forall a, b | a <= b ensures WeekOf(a) == WeekOf(b) <==> forall m | a < m <= b :: !MondayMidnight(m) { SameWeek(a, b); }
  }

  // The newest of its period: whatever is newer comes after the next turn.
  ghost predicate NewestOfPeriod(turn: int -> bool, s: set<int>, t: int) {
    t in s && forall u | u in s && u > t :: exists m :: t < m <= u && turn(m)
  }

  ghost function NewerPeriods(turn: int -> bool, s: set<int>, t: int): set<int> {
    set u | u in s && u > t && NewestOfPeriod(turn, s, u)
  }

  lemma {:induction false} ImageCard(key: int -> int, s: set<int>)
    requires forall a, b | a in s && b in s && key(a) == key(b) :: a == b
    ensures |set u | u in s :: key(u)| == |s|
  {
    var image := set u | u in s :: key(u);
    if s != {} {
      var x := Pick(s);
      ImageCard(key, s - {x});
      assert image == (set u | u in s - {x} :: key(u)) + {key(x)};
    } else {
      assert image == {};
    }
  }

  // Of the members with one key there is a newest.
  lemma NewestWith(key: int -> int, s: set<int>, k: int) returns (t: int)
    requires exists u :: u in s && key(u) == k
    ensures t in s && key(t) == k && forall u | u in s && key(u) == k :: u <= t
  {
    var same := set u | u in s && key(u) == k;
    var u :| u in s && key(u) == k;
    assert u in same;
    t := Maximum(same);
    assert forall v | v in s && key(v) == k :: v in same;
  }

  lemma NewestMeans(key: int -> int, turn: int -> bool, s: set<int>, t: int)
    requires Monotone(key) && Turns(key, turn) && t in s
    ensures NewestOfPeriod(turn, s, t) <==> forall u | u in s && key(u) == key(t) :: u <= t
  {
  }

  lemma PeriodsAreKeys(key: int -> int, turn: int -> bool, s: set<int>, t: int)
    requires Monotone(key) && Turns(key, turn) && NewestOfPeriod(turn, s, t)
    ensures |NewerPeriods(turn, s, t)| == |KeysAbove(key, s, key(t))|
  {
    var newer, keys := NewerPeriods(turn, s, t), KeysAbove(key, s, key(t));
    forall u | u in s ensures NewestOfPeriod(turn, s, u) <==> forall v | v in s && key(v) == key(u) :: v <= u { NewestMeans(key, turn, s, u); }
    forall k | k in keys ensures k in set u | u in newer :: key(u) {
      var u := NewestWith(key, s, k);
      assert u in newer;
    }
    forall u | u in newer ensures key(u) in keys {
      assert key(u) != key(t);
    }
    assert keys == set u | u in newer :: key(u);
    ImageCard(key, newer);
  }

  // What is kept, in the calendar's own terms: the newest of its day, among the
  // newest `daily` such, or the newest of its Monday-to-Sunday week, among the
  // newest `weekly` such.
  lemma KeptMeans(daily: int, weekly: int, s: set<int>, t: int)
    ensures t in KeepSet(daily, weekly, s) <==>
              || (NewestOfPeriod(Midnight, s, t) && |NewerPeriods(Midnight, s, t)| < daily)
              || (NewestOfPeriod(MondayMidnight, s, t) && |NewerPeriods(MondayMidnight, s, t)| < weekly)
  {
    hide NewerPeriods, NewestOfPeriod, Turns, Monotone, KeysAbove, DayOf, WeekOf;
    CalendarIsMonotone();
    CalendarTurns();
    if t in s {
      NewestMeans(DayOf, Midnight, s, t);
      NewestMeans(WeekOf, MondayMidnight, s, t);
      if NewestOfPeriod(Midnight, s, t) {
        PeriodsAreKeys(DayOf, Midnight, s, t);
      }
      if NewestOfPeriod(MondayMidnight, s, t) {
        PeriodsAreKeys(WeekOf, MondayMidnight, s, t);
      }
    } else {
      NotNewest(Midnight, s, t);
      NotNewest(MondayMidnight, s, t);
    }
  }

  lemma NotNewest(turn: int -> bool, s: set<int>, t: int)
    requires t !in s
    ensures !NewestOfPeriod(turn, s, t)
  {
  }

  // ---- History independence ----

  // What is kept of more is kept of less, as long as it is still there.
  lemma KeptOfLess(key: int -> int, limit: int, s: set<int>, t: set<int>, x: int)
    requires t <= s && x in t && KeptBy(key, limit, s, x)
    ensures KeptBy(key, limit, t, x)
  {
    SubsetCard(KeysAbove(key, t, key(x)), KeysAbove(key, s, key(x)));
  }

  lemma Pick<T>(s: set<T>) returns (x: T)
    requires s != {}
    ensures x in s
  {
    x :| x in s;
  }

  function Above(n: set<int>, k: int): set<int> { set j | j in n && j > k }

  lemma {:induction false} Maximum(n: set<int>) returns (m: int)
    requires n != {}
    ensures m in n && forall k | k in n :: k <= m
  {
    var x := Pick(n);
    m := x;
    if n != {x} {
      var rest := Maximum(n - {x});
      m := if rest > x then rest else x;
      assert forall k | k in n :: k == x || k in n - {x};
    }
  }

  lemma {:induction false} TopCount(n: set<int>, limit: nat)
    requires |n| >= limit
    ensures |set k | k in n && |Above(n, k)| < limit| >= limit
  {
    if limit > 0 {
      var m := Maximum(n);
      var rest := n - {m};
      TopCount(rest, limit - 1);
      var below := set k | k in rest && |Above(rest, k)| < limit - 1;
      var top := set k | k in n && |Above(n, k)| < limit;
      forall k | k in below ensures k in top {
        assert Above(n, k) == Above(rest, k) + {m};
      }
      assert Above(n, m) == {};
      assert below + {m} <= top;
      SubsetCard(below + {m}, top);
    }
  }

  lemma NewestIsKept(key: int -> int, limit: int, s: set<int>, k: int) returns (m: int)
    requires exists u :: u in s && key(u) == k
    requires |KeysAbove(key, s, k)| < limit
    ensures key(m) == k && KeptBy(key, limit, s, m)
  {
    var group := set u | u in s && key(u) == k;
    var u :| u in s && key(u) == k;
    assert u in group;
    m := Maximum(group);
    forall v | v in s && key(v) == key(m) ensures v <= m {
      assert v in group;
    }
  }

  // If nothing kept of s is missing from t, then t keeps nothing more.
  lemma KeptOfMore(key: int -> int, limit: int, s: set<int>, t: set<int>, x: int)
    requires t <= s && KeptBy(key, limit, t, x)
    requires forall u | KeptBy(key, limit, s, u) :: u in t
    ensures KeptBy(key, limit, s, x)
  {
    var newer := KeysAbove(key, s, key(x));
    if |newer| < limit {
      var m := NewestIsKept(key, limit, s, key(x));
      assert m == x;
    } else {
      TopCount(newer, limit);
      var top := set k | k in newer && |Above(newer, k)| < limit;
      forall k | k in top ensures k in KeysAbove(key, t, key(x)) {
        assert KeysAbove(key, s, k) == Above(newer, k);
        var m := NewestIsKept(key, limit, s, k);
      }
      SubsetCard(top, KeysAbove(key, t, key(x)));
      assert false;
    }
  }

  // Retention does not depend on what was pruned before.
  lemma HistoryIndependent(daily: int, weekly: int, s: set<int>, t: set<int>)
    requires KeepSet(daily, weekly, s) <= t <= s
    ensures KeepSet(daily, weekly, t) == KeepSet(daily, weekly, s)
  {
    forall x | x in s ensures x in KeepSet(daily, weekly, t) <==> x in KeepSet(daily, weekly, s) {
      if x in KeepSet(daily, weekly, s) {
        if KeptBy(DayOf, daily, s, x) {
          KeptOfLess(DayOf, daily, s, t, x);
        } else {
          KeptOfLess(WeekOf, weekly, s, t, x);
        }
      }
      forall u | KeptBy(DayOf, daily, s, u) || KeptBy(WeekOf, weekly, s, u) ensures u in t {
        assert u in KeepSet(daily, weekly, s);
      }
      if KeptBy(DayOf, daily, t, x) {
        KeptOfMore(DayOf, daily, s, t, x);
      }
      if KeptBy(WeekOf, weekly, t, x) {
        KeptOfMore(WeekOf, weekly, s, t, x);
      }
    }
  }

  // One delivery: everything to be kept stays, nothing else appears.
  ghost predicate Night(daily: int, weekly: int, held: set<int>, at: int, after: set<int>) {
    KeepSet(daily, weekly, held + {at}) <= after <= held + {at}
  }

  ghost predicate Retained(daily: int, weekly: int, ever: set<int>, held: set<int>) {
    KeepSet(daily, weekly, ever) <= held <= ever
  }

  lemma NightKeepsRetained(daily: int, weekly: int, ever: set<int>, held: set<int>, at: int, after: set<int>)
    requires Retained(daily, weekly, ever, held) && Night(daily, weekly, held, at, after)
    ensures Retained(daily, weekly, ever + {at}, after)
    ensures KeepSet(daily, weekly, after) == KeepSet(daily, weekly, ever + {at})
  {
    DeliveredIsRetained(daily, weekly, ever, held, at);
    HistoryIndependent(daily, weekly, ever + {at}, held + {at});
    HistoryIndependent(daily, weekly, ever + {at}, after);
  }

  lemma DeliveredIsRetained(daily: int, weekly: int, ever: set<int>, held: set<int>, at: int)
    requires Retained(daily, weekly, ever, held)
    ensures Retained(daily, weekly, ever + {at}, held + {at})
  {
    forall x | x in KeepSet(daily, weekly, ever + {at}) ensures x in held + {at} {
      if x != at {
        if KeptBy(DayOf, daily, ever + {at}, x) {
          KeptOfLess(DayOf, daily, ever + {at}, ever, x);
        } else {
          KeptOfLess(WeekOf, weekly, ever + {at}, ever, x);
        }
        assert x in KeepSet(daily, weekly, ever);
      }
    }
  }

  // A run of nights from an empty destination, with any failed deletions.
  ghost predicate Run(daily: int, weekly: int, ats: seq<int>, states: seq<set<int>>) {
    && |states| == |ats| + 1 && states[0] == {}
    && forall i | 0 <= i < |ats| :: Night(daily, weekly, states[i], ats[i], states[i + 1])
  }

  function SetOf(ats: seq<int>): set<int> { set x | x in ats }

  // Pruning every night keeps exactly what pruning everything ever delivered
  // once would keep, and all of it is still there.
  lemma {:induction false} NightlyEqualsOnce(daily: int, weekly: int, ats: seq<int>, states: seq<set<int>>)
    requires Run(daily, weekly, ats, states)
    ensures Retained(daily, weekly, SetOf(ats), states[|ats|])
    ensures KeepSet(daily, weekly, states[|ats|]) == KeepSet(daily, weekly, SetOf(ats))
  {
    if ats != [] {
      var n := |ats| - 1;
      NightlyEqualsOnce(daily, weekly, ats[..n], states[..n + 1]);
      assert SetOf(ats) == SetOf(ats[..n]) + {ats[n]};
      assert Night(daily, weekly, states[n], ats[n], states[n + 1]);
      NightKeepsRetained(daily, weekly, SetOf(ats[..n]), states[n], ats[n], states[n + 1]);
    }
  }

  // ---- How much is kept ----

  lemma {:induction false} KeptByCount(key: int -> int, limit: int, s: set<int>)
    ensures |set t | t in s && KeptBy(key, limit, s, t)| <= Max(limit, 0)
  {
    var kept := set t | t in s && KeptBy(key, limit, s, t);
    var keys := set t | t in kept :: key(t);
    KeysCount(key, kept);
    if kept != {} {
      // The oldest kept key has every other kept key above it.
      var least := Minimum(keys);
      var t :| t in kept && key(t) == least;
      assert keys - {least} <= KeysAbove(key, s, least);
      SubsetCard(keys - {least}, KeysAbove(key, s, least));
    }
  }

  lemma {:induction false} Minimum(n: set<int>) returns (m: int)
    requires n != {}
    ensures m in n && forall k | k in n :: m <= k
  {
    var x := Pick(n);
    m := x;
    if n != {x} {
      var rest := Minimum(n - {x});
      m := if rest < x then rest else x;
      assert forall k | k in n :: k == x || k in n - {x};
    }
  }

  // Kept elements have distinct keys.
  lemma {:induction false} KeysCount(key: int -> int, kept: set<int>)
    requires forall a, b | a in kept && b in kept && key(a) == key(b) :: a == b
    ensures |set t | t in kept :: key(t)| == |kept|
  {
    if kept != {} {
      var x := Pick(kept);
      KeysCount(key, kept - {x});
      assert (set t | t in kept :: key(t)) == (set t | t in kept - {x} :: key(t)) + {key(x)};
    }
  }

  lemma KeptCount(daily: int, weekly: int, s: set<int>)
    ensures |KeepSet(daily, weekly, s)| <= Max(daily, 0) + Max(weekly, 0)
  {
    var byDay := set t | t in s && KeptBy(DayOf, daily, s, t);
    var byWeek := set t | t in s && KeptBy(WeekOf, weekly, s, t);
    KeptByCount(DayOf, daily, s);
    KeptByCount(WeekOf, weekly, s);
    assert KeepSet(daily, weekly, s) == byDay + byWeek;
  }
}
