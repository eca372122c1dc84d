// internal/backup/dest.go: the pass over one host's bundles, and a delivery to
// several destinations with every failure it can meet.
module BackupDest {
  import opened Basics
  import opened Retention

  // A name is a bundle of a host at a time, or something else that happens to
  // be there. A bundle's host is never empty.
  datatype Name = Bundle(host: string, at: int) | Other(text: string)

  function HostOf(n: Name): string { if n.Bundle? then n.host else "" }

  predicate Ours(n: Name, host: string) { n.Bundle? && n.host != "" && n.host == host }

  function Times(names: set<Name>, host: string): set<int> {
    set n | n in names && Ours(n, host) :: n.at
  }

  function Listed(names: seq<Name>): set<Name> { set n | n in names }

  // ---- Newest first. Within one host a bundle is named by its time. ----

  ghost predicate NewestFirst(ts: seq<int>) {
    forall i, j | 0 <= i < j < |ts| :: ts[i] >= ts[j]
  }

  function InsertNewest(ts: seq<int>, t: int): (r: seq<int>)
    ensures multiset(r) == multiset(ts) + multiset{t}
  {
    if ts == [] then [t]
    else if ts[0] <= t then [t] + ts
    else
      assert ts == [ts[0]] + ts[1..];
      [ts[0]] + InsertNewest(ts[1..], t)
  }

  lemma {:induction false} InsertKeepsOrder(ts: seq<int>, t: int)
    requires NewestFirst(ts)
    ensures NewestFirst(InsertNewest(ts, t))
  {
    if ts != [] && ts[0] > t {
      InsertKeepsOrder(ts[1..], t);
      InsertStaysBelow(ts[1..], t, ts[0]);
    }
  }

  lemma {:induction false} InsertStaysBelow(ts: seq<int>, t: int, top: int)
    requires t <= top && forall i | 0 <= i < |ts| :: ts[i] <= top
    ensures forall i | 0 <= i < |InsertNewest(ts, t)| :: InsertNewest(ts, t)[i] <= top
  {
    if ts != [] && ts[0] > t {
      InsertStaysBelow(ts[1..], t, top);
    }
  }

  // sort.Slice, newest first.
  method Sorted(times: seq<int>) returns (r: seq<int>)
    ensures multiset(r) == multiset(times) && NewestFirst(r)
  {
    r := [];
    for i := 0 to |times|
      invariant multiset(r) == multiset(times[..i]) && NewestFirst(r)
    {
      InsertKeepsOrder(r, times[i]);
      r := InsertNewest(r, times[i]);
      assert times[..i + 1] == times[..i] + [times[i]];
    }
    assert times[..|times|] == times;
  }

  // ---- Keep ----

  function Keys(key: int -> int, ts: seq<int>): set<int> { set t | t in ts :: key(t) }

  // One pass, newest first: the first of each new day (or week) until `limit`
  // of them have been seen.
  method MarkNewest(all: seq<int>, key: int -> int, limit: int) returns (kept: set<int>)
    requires Monotone(key) && NewestFirst(all)
    ensures kept == Marked(key, limit, SetOf(all))
  {
    kept := {};
    var seen: set<int> := {};
    for i := 0 to |all|
      invariant seen <= Keys(key, all[..i])
      invariant |seen| < limit ==> seen == Keys(key, all[..i])
      invariant kept == Marked(key, limit, SetOf(all)) * SetOf(all[..i])
    {
      var t := all[i];
      MarkStep(all, key, limit, i, seen);
      PrefixGrows(all, key, i);
      if |seen| < limit && key(t) !in seen {
        seen := seen + {key(t)};
        kept := kept + {t};
      }
    }
    assert all[..|all|] == all;
  }

  lemma PrefixGrows(all: seq<int>, key: int -> int, i: nat)
    requires i < |all|
    ensures Keys(key, all[..i + 1]) == Keys(key, all[..i]) + {key(all[i])}
    ensures SetOf(all[..i + 1]) == SetOf(all[..i]) + {all[i]}
  {
    assert all[..i + 1] == all[..i] + [all[i]];
    assert forall t :: t in all[..i + 1] <==> t in all[..i] || t == all[i];
    assert all[i] in all[..i + 1];
  }

  ghost function Marked(key: int -> int, limit: int, s: set<int>): set<int> {
    set t | t in s && KeptBy(key, limit, s, t)
  }

  // The element at i is the newest of its key exactly when its key is new, and
  // then the keys above it are those seen; a repeated time was already decided.
  lemma MarkOne(all: seq<int>, key: int -> int, i: nat)
    requires i < |all| && Monotone(key) && NewestFirst(all)
    ensures var t := all[i]; var k := key(t); var before := all[..i]; var s := SetOf(all);
            && (k !in Keys(key, before) ==> KeysAbove(key, s, k) == Keys(key, before) && forall u | u in s && key(u) == k :: u <= t)
            && (k in Keys(key, before) ==> t in before || exists u :: u in s && key(u) == k && u > t)
  {
    var t, before := all[i], all[..i];
    forall u | u in SetOf(all) ensures u <= t || u in before {
      var j :| 0 <= j < |all| && all[j] == u;
      if j < i { assert before[j] == u; }
    }
    forall u | u in before ensures u in SetOf(all) && u >= t && key(u) >= key(t) {
      var j :| 0 <= j < i && before[j] == u;
      assert all[j] == u;
    }
  }

  lemma MarkStep(all: seq<int>, key: int -> int, limit: int, i: nat, seen: set<int>)
    requires i < |all| && Monotone(key) && NewestFirst(all)
    requires seen <= Keys(key, all[..i]) && (|seen| < limit ==> seen == Keys(key, all[..i]))
    ensures var t := all[i];
            t in Marked(key, limit, SetOf(all)) <==>
              (|seen| < limit && key(t) !in seen) || (t in SetOf(all[..i]) && t in Marked(key, limit, SetOf(all)))
  {
    MarkOne(all, key, i);
    SubsetCard(seen, Keys(key, all[..i]));
    assert all[i] in SetOf(all);
  }

  method Keep(host: string, names: seq<Name>, daily: int, weekly: int) returns (keep: seq<Name>, prune: seq<Name>)
    ensures var s := Times(Listed(names), host);
            && (forall x :: x in keep <==> Ours(x, host) && x.at in KeepSet(daily, weekly, s))
            && (forall x :: x in prune <==> Ours(x, host) && x.at in s - KeepSet(daily, weekly, s))
  {
    var all := OursIn(names, host);
    var ordered := Sorted(all);
    ghost var s := Times(Listed(names), host);
    assert SetOf(ordered) == s by {
      forall t ensures t in ordered <==> t in all {
        assert t in ordered <==> t in multiset(ordered);
        assert t in all <==> t in multiset(all);
      }
    }
    CalendarIsMonotone();
    var byDay := MarkNewest(ordered, DayOf, daily);
    var byWeek := MarkNewest(ordered, WeekOf, weekly);
    assert byDay + byWeek == KeepSet(daily, weekly, s);
    keep, prune := Split(ordered, byDay + byWeek, host);
  }

  method OursIn(names: seq<Name>, host: string) returns (all: seq<int>)
    ensures SetOf(all) == Times(Listed(names), host)
    ensures all != [] ==> host != ""
  {
    all := [];
    for i := 0 to |names|
      invariant SetOf(all) == Times(Listed(names[..i]), host)
      invariant all != [] ==> host != ""
    {
      assert Listed(names[..i + 1]) == Listed(names[..i]) + {names[i]};
      if Ours(names[i], host) {
        assert SetOf(all + [names[i].at]) == SetOf(all) + {names[i].at};
        all := all + [names[i].at];
      }
    }
    assert names[..|names|] == names;
  }

  method Split(ordered: seq<int>, kept: set<int>, host: string) returns (keep: seq<Name>, prune: seq<Name>)
    requires ordered != [] ==> host != ""
    ensures forall x :: x in keep <==> Ours(x, host) && x.at in ordered && x.at in kept
    ensures forall x :: x in prune <==> Ours(x, host) && x.at in ordered && x.at !in kept
  {
    keep, prune := [], [];
    for i := 0 to |ordered|
      invariant forall x :: x in keep <==> Ours(x, host) && x.at in ordered[..i] && x.at in kept
      invariant forall x :: x in prune <==> Ours(x, host) && x.at in ordered[..i] && x.at !in kept
    {
      if ordered[i] in kept {
        keep := keep + [Bundle(host, ordered[i])];
      } else {
        prune := prune + [Bundle(host, ordered[i])];
      }
    }
    assert ordered[..|ordered|] == ordered;
  }

  // Latest: the newest bundle of any host.
  method Latest(names: seq<Name>) returns (best: Option<Name>)
    ensures best.None? <==> forall n | n in names :: n.Other? || n.host == ""
    ensures best.Some? ==> best.value.Bundle? && forall n | n in names && n.Bundle? && n.host != "" :: n.at <= best.value.at
    // Of several as new, the first listed.
    ensures best.Some? ==> exists k | 0 <= k < |names| ::
                             && names[k] == best.value && best.value.host != ""
                             && forall j | 0 <= j < k && names[j].Bundle? && names[j].host != "" :: names[j].at < best.value.at
  {
    best := None;
    for i := 0 to |names|
      invariant best.None? <==> forall n | n in names[..i] :: n.Other? || n.host == ""
      invariant best.Some? ==> best.value.Bundle? && forall n | n in names[..i] && n.Bundle? && n.host != "" :: n.at <= best.value.at
      invariant best.Some? ==> exists k | 0 <= k < i ::
                                 && names[k] == best.value && best.value.host != ""
                                 && forall j | 0 <= j < k && names[j].Bundle? && names[j].host != "" :: names[j].at < best.value.at
    {
      var n := names[i];
      assert names[..i + 1] == names[..i] + [n];
      if n.Bundle? && n.host != "" && (best.None? || n.at > best.value.at) {
        assert forall j | 0 <= j < i :: names[j] in names[..i];
        best := Some(n);
        assert names[i] == best.value;
      }
    }
  }

  // ---- Deliver ----

  // Another host's bundle, or no bundle at all.
  predicate Foreign(n: Name, name: Name) { n != name && !(n.Bundle? && name.Bundle? && n.host == name.host) }

  datatype Failure = PutFailed | ListFailed | PruneFailed(name: Name)

  datatype Delivery = Delivery(err: Option<Failure>, pruned: nat)

  class Destination {
    const writeOnly: bool
    var held: set<Name>
    // Every name ever stored here.
    ghost var ever: set<Name>
    // How often it was listed or deleted from.
    ghost var asked: nat
    // How often an operation failed.
    ghost var faults: nat

    constructor (writeOnly: bool)
      ensures this.writeOnly == writeOnly && held == {} && ever == {} && asked == 0 && faults == 0
    {
      this.writeOnly := writeOnly;
      held, ever, asked, faults := {}, {}, 0, 0;
    }

    ghost predicate Retains(host: string, daily: int, weekly: int)
      reads this
    {
      Retained(daily, weekly, Times(ever, host), Times(held, host))
    }

    // A put that reports failure may have stored the bundle all the same.
    method Put(n: Name) returns (ok: bool)
      modifies this`held, this`ever, this`faults
      ensures (held == old(held) + {n} && ever == old(ever) + {n}) || (!ok && held == old(held) && ever == old(ever))
      ensures faults == old(faults) + if ok then 0 else 1
    {
      ok := Any();
      faults := faults + if ok then 0 else 1;
      var stored: bool := Any();
      if ok || stored {
        held, ever := held + {n}, ever + {n};
      }
    }

    method List() returns (ok: bool, names: seq<Name>)
      modifies this`asked, this`faults
      ensures (ok ==> Listed(names) == held) && asked == old(asked) + 1 && faults == old(faults) + if ok then 0 else 1
    {
      asked := asked + 1;
      names := [];
      ok := Any();
      faults := faults + if ok then 0 else 1;
      var left := held;
      while left != {}
        invariant left <= held && Listed(names) == held - left
        decreases left
      {
        var n :| n in left;
        assert Listed(names + [n]) == Listed(names) + {n};
        names, left := names + [n], left - {n};
      }
    }

    // A failed delete may or may not have taken the name.
    method Delete(n: Name) returns (ok: bool)
      modifies this`held, this`asked, this`faults
      ensures old(held) - {n} <= held <= old(held) && (ok ==> n !in held) && asked == old(asked) + 1
      ensures faults == old(faults) + if ok then 0 else 1
    {
      asked := asked + 1;
      ok := Any();
      faults := faults + if ok then 0 else 1;
      var gone: bool := Any();
      if ok || gone {
        held := held - {n};
      }
    }

    // Delete in order until one fails.
    method Prune(names: seq<Name>) returns (r: Delivery)
      modifies this`held, this`asked, this`faults
      ensures old(held) - Listed(names) <= held <= old(held)
      ensures r.err.None? ==> held == old(held) - Listed(names) && r.pruned == |names|
      ensures r.err.None? <==> faults == old(faults)
      ensures r.err.Some? ==> r.pruned < |names| && r.err == Some(PruneFailed(names[r.pruned]))
    {
      r := Delivery(None, 0);
      for i := 0 to |names|
        invariant r == Delivery(None, i) && faults == old(faults) && held == old(held) - Listed(names[..i])
      {
        assert Listed(names[..i + 1]) == Listed(names[..i]) + {names[i]};
        var ok := Delete(names[i]);
        if !ok {
          return Delivery(Some(PruneFailed(names[i])), i);
        }
        r := Delivery(None, i + 1);
      }
      assert names[..|names|] == names;
    }

    method DeliverTo(name: Name, daily: int, weekly: int) returns (r: Delivery)
      modifies this
      ensures forall host :: old(Retains(host, daily, weekly)) ==> Retains(host, daily, weekly)
      // Nobody else's bundle, and nothing that is not a bundle, is touched.
      ensures forall n | Foreign(n, name) :: n in held <==> n in old(held)
      ensures old(ever) <= ever <= old(ever) + {name} && (r.err.None? ==> name in ever)
      // An error is reported exactly when an operation failed.
      ensures r.err.None? <==> faults == old(faults)
      // A destination that cannot be read, or that did not take the bundle, is
      // not asked for anything more.
      ensures writeOnly || r.err == Some(PutFailed) ==> asked == old(asked) && old(held) <= held
      ensures writeOnly || r.err == Some(PutFailed) || r.err == Some(ListFailed) ==> r.pruned == 0
      // A delivery without a failure leaves exactly what the rule keeps of
      // everything ever stored, and no more than the settings allow.
      ensures name.Bundle? && old(Retains(name.host, daily, weekly)) && r.err.None? && !writeOnly ==>
                && Times(held, name.host) == KeepSet(daily, weekly, Times(ever, name.host))
                && |Times(held, name.host)| <= Max(daily, 0) + Max(weekly, 0)
    {
      var host := HostOf(name);
      ghost var was, wasEver := held, ever;
      var stored := Put(name);
      StoredIsRetained(was, wasEver, name, daily, weekly);
      if !stored {
        return Delivery(Some(PutFailed), 0);
      }
      if writeOnly {
        return Delivery(None, 0);
      }
      var listed, names := List();
      if !listed {
        return Delivery(Some(ListFailed), 0);
      }
      ghost var full := held;
      var keep, prune := Keep(host, names, daily, weekly);
      r := Prune(prune);
      PrunedIsRetained(full, held, ever, host, prune, daily, weekly);
      if r.err.None? {
        PrunedExactly(full, held, host, prune, daily, weekly);
        KeptCount(daily, weekly, Times(ever, host));
      }
    }
  }

  lemma StoredIsRetained(held: set<Name>, ever: set<Name>, name: Name, daily: int, weekly: int)
    ensures forall host | Retained(daily, weekly, Times(ever, host), Times(held, host)) ::
              Retained(daily, weekly, Times(ever + {name}, host), Times(held + {name}, host))
  {
    forall host | Retained(daily, weekly, Times(ever, host), Times(held, host))
      ensures Retained(daily, weekly, Times(ever + {name}, host), Times(held + {name}, host))
    {
      if Ours(name, host) {
        assert Times(ever + {name}, host) == Times(ever, host) + {name.at};
        assert Times(held + {name}, host) == Times(held, host) + {name.at};
        DeliveredIsRetained(daily, weekly, Times(ever, host), Times(held, host), name.at);
      } else {
        assert Times(ever + {name}, host) == Times(ever, host);
        assert Times(held + {name}, host) == Times(held, host);
      }
    }
  }

  // Deleting any part of what the rule drops keeps every host retained.
  lemma PrunedIsRetained(full: set<Name>, held: set<Name>, ever: set<Name>, host: string, prune: seq<Name>, daily: int, weekly: int)
    requires forall x :: x in prune <==> Ours(x, host) && x.at in Times(full, host) - KeepSet(daily, weekly, Times(full, host))
    requires full - Listed(prune) <= held <= full
    ensures forall h | Retained(daily, weekly, Times(ever, h), Times(full, h)) ::
              && Retained(daily, weekly, Times(ever, h), Times(held, h))
              && KeepSet(daily, weekly, Times(full, h)) == KeepSet(daily, weekly, Times(ever, h))
  {
    forall h | Retained(daily, weekly, Times(ever, h), Times(full, h))
      ensures Retained(daily, weekly, Times(ever, h), Times(held, h))
      ensures KeepSet(daily, weekly, Times(full, h)) == KeepSet(daily, weekly, Times(ever, h))
    {
      HistoryIndependent(daily, weekly, Times(ever, h), Times(full, h));
      forall t | t in KeepSet(daily, weekly, Times(ever, h)) ensures t in Times(held, h) {
        var n :| n in full && Ours(n, h) && n.at == t;
        assert n !in prune;
      }
    }
  }

  lemma PrunedExactly(full: set<Name>, held: set<Name>, host: string, prune: seq<Name>, daily: int, weekly: int)
    requires forall x :: x in prune <==> Ours(x, host) && x.at in Times(full, host) - KeepSet(daily, weekly, Times(full, host))
    requires held == full - Listed(prune)
    ensures Times(held, host) == KeepSet(daily, weekly, Times(full, host))
  {
    forall t ensures t in Times(held, host) <==> t in KeepSet(daily, weekly, Times(full, host)) {
      if t in KeepSet(daily, weekly, Times(full, host)) {
        var n :| n in full && Ours(n, host) && n.at == t;
        assert n in held;
      }
    }
  }

  // One failed destination never hides another's success.
  method Deliver(dests: seq<Destination>, name: Name, daily: int, weekly: int) returns (out: seq<Delivery>)
    requires forall i, j | 0 <= i < j < |dests| :: dests[i] != dests[j]
    modifies dests
    ensures |out| == |dests|
    ensures forall i, host | 0 <= i < |dests| ::
              old(dests[i].Retains(host, daily, weekly)) ==> dests[i].Retains(host, daily, weekly)
    ensures name.Bundle? ==>
              forall i | 0 <= i < |dests| && old(dests[i].Retains(name.host, daily, weekly)) && out[i].err.None? && !dests[i].writeOnly ::
                Times(dests[i].held, name.host) == KeepSet(daily, weekly, Times(dests[i].ever, name.host))
    // At no destination is anybody else's bundle touched, and a delivery that
    // was reported has stored the bundle.
    ensures forall i, n | 0 <= i < |dests| && Foreign(n, name) ::
              n in dests[i].held <==> n in old(dests[i].held)
    ensures forall i | 0 <= i < |dests| :: old(dests[i].ever) <= dests[i].ever <= old(dests[i].ever) + {name}
    ensures forall i | 0 <= i < |dests| && out[i].err.None? :: name in dests[i].ever
    ensures forall i | 0 <= i < |dests| :: out[i].err.None? <==> dests[i].faults == old(dests[i].faults)
    ensures forall i | 0 <= i < |dests| && (dests[i].writeOnly || out[i].err == Some(PutFailed)) ::
              dests[i].asked == old(dests[i].asked) && old(dests[i].held) <= dests[i].held
  {
    hide Retained, KeepSet, Times, Foreign;
    out := [];
    for k := 0 to |dests|
      invariant |out| == k
      invariant forall i | k <= i < |dests| :: unchanged(dests[i])
      invariant forall i, host | 0 <= i < k :: old(dests[i].Retains(host, daily, weekly)) ==> dests[i].Retains(host, daily, weekly)
      invariant name.Bundle? ==>
                  forall i | 0 <= i < k && old(dests[i].Retains(name.host, daily, weekly)) && out[i].err.None? && !dests[i].writeOnly ::
                    Times(dests[i].held, name.host) == KeepSet(daily, weekly, Times(dests[i].ever, name.host))
      invariant forall i, n | 0 <= i < k && Foreign(n, name) ::
                  n in dests[i].held <==> n in old(dests[i].held)
      invariant forall i | 0 <= i < k :: old(dests[i].ever) <= dests[i].ever <= old(dests[i].ever) + {name}
      invariant forall i | 0 <= i < k && out[i].err.None? :: name in dests[i].ever
      invariant forall i | 0 <= i < k :: out[i].err.None? <==> dests[i].faults == old(dests[i].faults)
      invariant forall i | 0 <= i < k && (dests[i].writeOnly || out[i].err == Some(PutFailed)) ::
                  dests[i].asked == old(dests[i].asked) && old(dests[i].held) <= dests[i].held
    {
      var r := dests[k].DeliverTo(name, daily, weekly);
      out := out + [r];
    }
  }
}
