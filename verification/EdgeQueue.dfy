// The edge inbox's one table, at the granularity of its SQL statements: any
// number of handlers are between statements at any time.
module EdgeQueue {
  import opened Basics

  const HOUR := 3600000
  const WEEK := 7 * 24 * HOUR
  const QUOTA := 30
  // No handler runs a statement with a clock reading older than this. Twice it
  // and an hour stay within the week an acknowledged row is kept.
  const MAX_DELAY := 3 * 24 * HOUR

  datatype Source = Sms | ContactUpload

  // A fingerprint is a digest of the card's bytes and the selected books.
  datatype Fingerprint = Fingerprint(card: Bytes, phonebooks: seq<string>)

  type Key = (string, string)

  // What an INSERT writes, with its place in the order of insertions.
  datatype Arrival = Arrival(serial: nat, house: string, id: string, sender: string, at: int,
                             source: Source, fingerprint: Option<Fingerprint>, keyHash: nat)

  datatype Outcome = Outcome(saved: bool, message: string)

  // What later statements may change.
  datatype Row = Row(arrival: Arrival, ackedAt: Option<int>, result: Option<Outcome>)

  type Table = map<Key, Row>

  datatype Sys = Sys(clock: int, table: Table, ever: set<Arrival>, next: nat)

  datatype Event =
    | Wait(until: int)
    // INSERT OR IGNORE ... SELECT ... WHERE both counts are under the quota.
    | InsertUpload(house: string, id: string, sender: string, at: int, fingerprint: Fingerprint, keyHash: nat)
    // INSERT OR IGNORE of a carrier's text.
    | InsertSms(house: string, id: string, sender: string, at: int)
    // The two UPDATE statements of an acknowledgement.
    | AckUpload(house: string, id: string, now: int, outcome: Outcome)
    | AckSms(house: string, id: string, now: int)
    // DELETE of acknowledged rows older than a week.
    | Prune(house: string, now: int)

  const UPLOAD := "upload:"

  function Lower(c: char): char {
    if 'A' <= c <= 'Z' then ((c as int) + 32) as char else c
  }

  // id LIKE 'upload:%', which ignores the case of ASCII letters.
  predicate LikeUpload(id: string) {
    |id| >= |UPLOAD| && forall i | 0 <= i < |UPLOAD| :: Lower(id[i]) == UPLOAD[i]
  }

  predicate CountsFor(t: Table, k: Key, house: string, sender: string) {
    k in t && t[k].arrival.house == house && t[k].arrival.sender == sender && LikeUpload(t[k].arrival.id)
  }

  function Recent(t: Table, house: string, sender: string, since: int): set<Key> {
    set k | k in t && CountsFor(t, k, house, sender) && t[k].arrival.at >= since
  }

  function Unacked(t: Table, house: string, sender: string): set<Key> {
    set k | k in t && CountsFor(t, k, house, sender) && t[k].ackedAt.None?
  }

  predicate Fresh(s: Sys, now: int) { s.clock - MAX_DELAY <= now <= s.clock }

  function Added(s: Sys, a: Arrival): Sys {
    s.(table := s.table[(a.house, a.id) := Row(a, None, None)], ever := s.ever + {a}, next := s.next + 1)
  }

  function Arriving(s: Sys, e: Event): Arrival
    requires e.InsertUpload? || e.InsertSms?
  {
    if e.InsertUpload? then Arrival(s.next, e.house, e.id, e.sender, e.at, ContactUpload, Some(e.fingerprint), e.keyHash)
    else Arrival(s.next, e.house, e.id, e.sender, e.at, Sms, None, 0)
  }

  function Step(s: Sys, e: Event): Option<Sys> {
    match e
    case Wait(until) => if until >= s.clock then Some(s.(clock := until)) else None
    case InsertUpload(house, id, sender, at, fingerprint, keyHash) =>
      if !Fresh(s, at) || !(UPLOAD <= id) then None
      else if (house, id) in s.table || |Recent(s.table, house, sender, at - HOUR)| >= QUOTA ||
              |Unacked(s.table, house, sender)| >= QUOTA then Some(s)
      else Some(Added(s, Arriving(s, e)))
    case InsertSms(house, id, sender, at) =>
      if !Fresh(s, at) then None
      else if (house, id) in s.table then Some(s)
      else Some(Added(s, Arriving(s, e)))
    case AckUpload(house, id, now, outcome) =>
      if !Fresh(s, now) then None
      else if (house, id) in s.table && s.table[(house, id)].arrival.source.ContactUpload? && s.table[(house, id)].ackedAt.None?
      then Some(s.(table := s.table[(house, id) := s.table[(house, id)].(ackedAt := Some(now), result := Some(outcome))]))
      else Some(s)
    case AckSms(house, id, now) =>
      if !Fresh(s, now) then None
      else if (house, id) in s.table && s.table[(house, id)].arrival.source.Sms? && s.table[(house, id)].ackedAt.None?
      then Some(s.(table := s.table[(house, id) := s.table[(house, id)].(ackedAt := Some(now))]))
      else Some(s)
    case Prune(house, now) =>
      if !Fresh(s, now) then None
      else Some(s.(table := map k | k in s.table && !Prunable(s.table[k], house, now) :: s.table[k]))
  }

  predicate Prunable(r: Row, house: string, now: int) {
    r.arrival.house == house && r.ackedAt.Some? && r.ackedAt.value < now - WEEK
  }

  // The state after a run from an empty table at some time; None when an event
  // of it could not happen.
  function Exec(start: int, es: seq<Event>): Option<Sys> {
    if es == [] then Some(Sys(start, map[], {}, 0))
    else
      var before := Exec(start, es[..|es| - 1]);
      if before.None? then None else Step(before.value, es[|es| - 1])
  }

  lemma ExecSnoc(start: int, es: seq<Event>, e: Event)
    ensures Exec(start, es + [e]) == if Exec(start, es).None? then None else Step(Exec(start, es).value, e)
  {
    assert (es + [e])[..|es|] == es;
  }

  lemma {:induction false} PrefixLegal(start: int, es: seq<Event>, n: nat)
    requires Exec(start, es).Some? && n <= |es|
    ensures Exec(start, es[..n]).Some?
    decreases |es|
  {
    if n == |es| {
      assert es[..n] == es;
    } else {
      PrefixLegal(start, es[..|es| - 1], n);
      assert es[..|es| - 1][..n] == es[..n];
    }
  }
}

// What every run of the queue keeps.
module EdgeSafety {
  import opened Basics
  import opened EdgeQueue

  // ---- Rows ----

  ghost predicate RowsFiled(s: Sys) {
    && (forall k | k in s.table :: k == (s.table[k].arrival.house, s.table[k].arrival.id) && s.table[k].arrival in s.ever)
    && (forall a | a in s.ever :: a.serial < s.next && a.at <= s.clock && (a.source.ContactUpload? ==> UPLOAD <= a.id && a.fingerprint.Some?))
    && (forall a, b | a in s.ever && b in s.ever && a.serial == b.serial :: a == b)
  }

  ghost predicate RowsAcked(s: Sys) {
    // An upload is acknowledged exactly when its result is recorded.
    && (forall k | k in s.table ::
          s.table[k].result.Some? <==> s.table[k].arrival.source.ContactUpload? && s.table[k].ackedAt.Some?)
    // A clock reading used by an acknowledgement was at most so old.
    && (forall k | k in s.table && s.table[k].ackedAt.Some? :: s.table[k].ackedAt.value >= s.table[k].arrival.at - MAX_DELAY)
  }

  // What has left the table is out of reach of any window still to come.
  ghost predicate RowsInReach(s: Sys) {
    forall a | a in s.ever :: InTable(s, a) || a.at < s.clock - WEEK + MAX_DELAY
  }

  ghost predicate RowsKept(s: Sys) { RowsFiled(s) && RowsAcked(s) && RowsInReach(s) }

  ghost predicate InTable(s: Sys, a: Arrival) {
    (a.house, a.id) in s.table && s.table[(a.house, a.id)].arrival == a
  }

  // ---- Quotas ----

  ghost predicate Uploaded(a: Arrival, house: string, sender: string) {
    a.source.ContactUpload? && a.house == house && a.sender == sender
  }

  function Within(ever: set<Arrival>, house: string, sender: string, from: int): set<Arrival> {
    set a | a in ever && a.source.ContactUpload? && a.house == house && a.sender == sender && from <= a.at <= from + HOUR
  }

  function UnackedUploads(t: Table, house: string, sender: string): set<Key> {
    set k | k in t && t[k].arrival.source.ContactUpload? && t[k].arrival.house == house && t[k].arrival.sender == sender &&
            t[k].ackedAt.None?
  }

  // Every one-hour window of everything ever accepted, and the backlog.
  ghost predicate QuotasKept(s: Sys) {
    && (forall house, sender, from :: |Within(s.ever, house, sender, from)| <= QUOTA)
    && (forall house, sender :: |UnackedUploads(s.table, house, sender)| <= QUOTA)
  }

  // Distinct arrivals sit under distinct keys.
  lemma {:induction false} ArrivalsUnderKeys(t: Table, keys: set<Key>, arrivals: set<Arrival>)
    requires keys <= t.Keys
    requires forall a | a in arrivals :: (a.house, a.id) in keys && t[(a.house, a.id)].arrival == a
    ensures |arrivals| <= |keys|
  {
    if arrivals != {} {
      var a :| a in arrivals;
      var k := (a.house, a.id);
      forall b | b in arrivals - {a} ensures (b.house, b.id) in keys - {k} {
        assert (b.house, b.id) == k ==> b == a;
      }
      ArrivalsUnderKeys(t, keys - {k}, arrivals - {a});
    }
  }

  lemma UploadPrefixCounts(id: string)
    requires UPLOAD <= id
    ensures LikeUpload(id)
  {
    forall i | 0 <= i < |UPLOAD| ensures Lower(id[i]) == UPLOAD[i] {
      assert id[i] == UPLOAD[i];
    }
  }

  // An accepted insertion finds every other upload of its windows still in the
  // table, so the counted rows bound the window it joins, however late it runs.
  lemma WindowAfterInsert(s: Sys, a: Arrival, house: string, sender: string, from: int)
    requires RowsKept(s) && QuotasKept(s) && Fresh(s, a.at)
    requires a.source.ContactUpload? ==> |Recent(s.table, a.house, a.sender, a.at - HOUR)| < QUOTA
    ensures |Within(s.ever + {a}, house, sender, from)| <= QUOTA
  {
    hide RowsKept, Recent, LikeUpload;
    var before, after := Within(s.ever, house, sender, from), Within(s.ever + {a}, house, sender, from);
    if Uploaded(a, house, sender) && from <= a.at <= from + HOUR {
      WindowIsRecent(s, house, sender, from, a.at);
      SubsetCard(after, before + {a});
    } else {
      assert after == before;
    }
  }

  lemma WindowIsRecent(s: Sys, house: string, sender: string, from: int, at: int)
    requires RowsKept(s) && Fresh(s, at) && from <= at <= from + HOUR
    ensures |Within(s.ever, house, sender, from)| <= |Recent(s.table, house, sender, at - HOUR)|
  {
    var before, recent := Within(s.ever, house, sender, from), Recent(s.table, house, sender, at - HOUR);
    forall b | b in before ensures (b.house, b.id) in recent && s.table[(b.house, b.id)].arrival == b {
      assert InTable(s, b);
      UploadPrefixCounts(b.id);
    }
    ArrivalsUnderKeys(s.table, recent, before);
  }

  lemma UploadRowCounts(s: Sys, k: Key)
    requires RowsKept(s) && k in s.table && s.table[k].arrival.source.ContactUpload?
    ensures LikeUpload(s.table[k].arrival.id)
  {
    UploadPrefixCounts(s.table[k].arrival.id);
  }

  lemma BacklogNow(s: Sys, house: string, sender: string)
    requires QuotasKept(s)
    ensures |UnackedUploads(s.table, house, sender)| <= QUOTA
  {
  }

  lemma BacklogAfterInsert(s: Sys, a: Arrival, house: string, sender: string)
    requires RowsKept(s) && QuotasKept(s)
    requires a.source.ContactUpload? ==> |Unacked(s.table, a.house, a.sender)| < QUOTA
    requires (a.house, a.id) !in s.table
    ensures |UnackedUploads(Added(s, a).table, house, sender)| <= QUOTA
  {
    hide RowsKept, QuotasKept, LikeUpload;
    BacklogNow(s, house, sender);
    var before, after := UnackedUploads(s.table, house, sender), UnackedUploads(Added(s, a).table, house, sender);
    if a.source.ContactUpload? && a.house == house && a.sender == sender {
      forall k | k in before ensures k in Unacked(s.table, house, sender) {
        UploadRowCounts(s, k);
      }
      SubsetCard(before, Unacked(s.table, house, sender));
      SubsetCard(after, before + {(a.house, a.id)});
    } else {
      assert after == before;
    }
  }

  lemma AddedKeepsFiled(s: Sys, a: Arrival)
    requires RowsFiled(s) && (a.house, a.id) !in s.table && a.serial == s.next && a.at <= s.clock
    requires a.source.ContactUpload? ==> UPLOAD <= a.id && a.fingerprint.Some?
    ensures RowsFiled(Added(s, a))
  {
  }

  lemma AddedKeepsAcked(s: Sys, a: Arrival)
    requires RowsAcked(s)
    ensures RowsAcked(Added(s, a))
  {
  }

  lemma AddedKeepsReach(s: Sys, a: Arrival)
    requires RowsInReach(s) && (a.house, a.id) !in s.table
    ensures RowsInReach(Added(s, a))
  {
    var t := Added(s, a);
    forall b | b in t.ever ensures InTable(t, b) || b.at < t.clock - WEEK + MAX_DELAY {
      assert b != a ==> InTable(s, b) || b.at < s.clock - WEEK + MAX_DELAY;
    }
  }

  lemma AddedKeepsRows(s: Sys, a: Arrival)
    requires RowsKept(s) && (a.house, a.id) !in s.table && a.serial == s.next && a.at <= s.clock
    requires a.source.ContactUpload? ==> UPLOAD <= a.id && a.fingerprint.Some?
    ensures RowsKept(Added(s, a))
  {
    hide RowsFiled, RowsAcked, RowsInReach, Added;
    AddedKeepsFiled(s, a);
    AddedKeepsAcked(s, a);
    AddedKeepsReach(s, a);
  }

  lemma UpdatedKeepsRows(s: Sys, k: Key, now: int, result: Option<Outcome>)
    requires RowsKept(s) && Fresh(s, now) && k in s.table && s.table[k].ackedAt.None?
    requires result.Some? <==> s.table[k].arrival.source.ContactUpload?
    ensures RowsKept(s.(table := s.table[k := s.table[k].(ackedAt := Some(now), result := result)]))
  {
    var t := s.(table := s.table[k := s.table[k].(ackedAt := Some(now), result := result)]);
    forall b | b in t.ever ensures InTable(t, b) || b.at < t.clock - WEEK + MAX_DELAY {
      assert InTable(s, b) || b.at < s.clock - WEEK + MAX_DELAY;
    }
  }

  lemma PrunedKeepsRows(s: Sys, house: string, now: int)
    requires RowsKept(s) && Fresh(s, now)
    ensures RowsKept(Step(s, Prune(house, now)).value)
  {
    var t := Step(s, Prune(house, now)).value;
    forall b | b in t.ever ensures InTable(t, b) || b.at < t.clock - WEEK + MAX_DELAY {
      assert InTable(s, b) || b.at < s.clock - WEEK + MAX_DELAY;
    }
  }

  lemma StepKeepsRows(s: Sys, e: Event)
    requires RowsKept(s) && Step(s, e).Some?
    ensures RowsKept(Step(s, e).value)
  {
    var t := Step(s, e).value;
    match e
    case Wait(until) =>
      forall b | b in t.ever ensures InTable(t, b) || b.at < t.clock - WEEK + MAX_DELAY {
        assert InTable(s, b) || b.at < s.clock - WEEK + MAX_DELAY;
      }
    case InsertUpload(house, id, sender, at, fingerprint, keyHash) =>
      if t != s {
        AddedKeepsRows(s, Arriving(s, e));
      }
    case InsertSms(house, id, sender, at) =>
      if t != s {
        AddedKeepsRows(s, Arriving(s, e));
      }
    case AckUpload(house, id, now, outcome) =>
      if t != s {
        UpdatedKeepsRows(s, (house, id), now, Some(outcome));
      }
    case AckSms(house, id, now) =>
      if t != s {
        var r := s.table[(house, id)];
        assert r.(ackedAt := Some(now)) == r.(ackedAt := Some(now), result := None);
        UpdatedKeepsRows(s, (house, id), now, None);
      }
    case Prune(house, now) => PrunedKeepsRows(s, house, now);
  }

  lemma WindowAfterStep(s: Sys, e: Event, house: string, sender: string, from: int)
    requires RowsKept(s) && QuotasKept(s) && Step(s, e).Some?
    ensures |Within(Step(s, e).value.ever, house, sender, from)| <= QUOTA
  {
    assert |Within(s.ever, house, sender, from)| <= QUOTA;
    if (e.InsertUpload? || e.InsertSms?) && Step(s, e).value != s {
      WindowAfterInsert(s, Arriving(s, e), house, sender, from);
    }
  }

  lemma StepKeepsQuotas(s: Sys, e: Event)
    requires RowsKept(s) && QuotasKept(s) && Step(s, e).Some?
    ensures QuotasKept(Step(s, e).value)
  {
    hide RowsKept, LikeUpload;
    var t := Step(s, e).value;
    forall house, sender, from ensures |Within(t.ever, house, sender, from)| <= QUOTA {
      WindowAfterStep(s, e, house, sender, from);
    }
    forall house, sender ensures |UnackedUploads(t.table, house, sender)| <= QUOTA {
      if (e.InsertUpload? || e.InsertSms?) && t != s {
        BacklogAfterInsert(s, Arriving(s, e), house, sender);
      } else {
        SubsetCard(UnackedUploads(t.table, house, sender), UnackedUploads(s.table, house, sender));
      }
    }
  }

  lemma {:induction false} AlwaysKept(start: int, es: seq<Event>)
    requires Exec(start, es).Some?
    ensures RowsKept(Exec(start, es).value) && QuotasKept(Exec(start, es).value)
    decreases |es|
  {
    if es == [] {
      forall house, sender, from ensures Within({}, house, sender, from) == {} {}
      forall house, sender ensures UnackedUploads(map[], house, sender) == {} {}
    } else {
      var before := es[..|es| - 1];
      AlwaysKept(start, before);
      StepKeepsRows(Exec(start, before).value, es[|es| - 1]);
      StepKeepsQuotas(Exec(start, before).value, es[|es| - 1]);
    }
  }

  // No thirty-one accepted uploads of one person lie within an hour of each
  // other, and no thirty-one wait.
  lemma NeverOverThirty(start: int, es: seq<Event>, house: string, sender: string, from: int, accepted: set<Arrival>, waiting: set<Key>)
    requires Exec(start, es).Some?
    requires forall a | a in accepted ::
               && a in Exec(start, es).value.ever && a.source == ContactUpload && a.house == house && a.sender == sender
               && from <= a.at <= from + 3_600_000
    requires var t := Exec(start, es).value.table;
             forall k | k in waiting ::
               && k in t && t[k].ackedAt.None?
               && t[k].arrival.source == ContactUpload && t[k].arrival.house == house && t[k].arrival.sender == sender
    ensures |accepted| <= 30 && |waiting| <= 30
  {
    AlwaysKept(start, es);
    var s := Exec(start, es).value;
    SubsetCard(accepted, Within(s.ever, house, sender, from));
    SubsetCard(waiting, UnackedUploads(s.table, house, sender));
  }

  // ---- Receipts are write-once and durable ----

  // No statement changes what was inserted, or a recorded acknowledgement; a row
  // leaves exactly when its house is pruned more than a week after it was
  // acknowledged.
  lemma RowsOnlyAdvance(s: Sys, e: Event, k: Key)
    requires k in s.table && Step(s, e).Some?
    ensures var t := Step(s, e).value;
            && (k in t.table ==> t.table[k].arrival == s.table[k].arrival &&
                                 (s.table[k].ackedAt.Some? ==> t.table[k] == s.table[k]))
            && (k !in t.table <==> e.Prune? && s.table[k].arrival.house == e.house && s.table[k].ackedAt.Some? &&
                                   e.now - s.table[k].ackedAt.value > 604_800_000)
            && (k in t.table && t.table[k].ackedAt != s.table[k].ackedAt ==>
                  (e.AckUpload? || e.AckSms?) && (e.house, e.id) == k && t.table[k].ackedAt == Some(e.now))
  {
  }

  // A queued row stays as it was inserted until some acknowledgement names it.
  lemma {:induction false} QueuedUntilAcked(start: int, es: seq<Event>, i: nat, j: nat, k: Key)
    requires i <= j <= |es| && Exec(start, es).Some?
    requires Exec(start, es[..i]).Some? && k in Exec(start, es[..i]).value.table
    requires Exec(start, es[..i]).value.table[k].ackedAt.None?
    requires forall m | i <= m < j && (es[m].AckUpload? || es[m].AckSms?) :: (es[m].house, es[m].id) != k
    ensures Exec(start, es[..j]).Some? && k in Exec(start, es[..j]).value.table
    ensures Exec(start, es[..j]).value.table[k] == Exec(start, es[..i]).value.table[k]
    decreases j
  {
    if i < j {
      QueuedUntilAcked(start, es, i, j - 1, k);
      StepAt(start, es, j - 1);
      RowsOnlyAdvance(Exec(start, es[..j - 1]).value, es[j - 1], k);
      AlwaysKept(start, es[..j - 1]);
      AlwaysKept(start, es[..j]);
    }
  }

  // A recorded acknowledgement and its result are final: the row stays exactly
  // as it is until a prune more than a week later takes it.
  lemma {:induction false} AckedIsFinal(start: int, es: seq<Event>, i: nat, j: nat, k: Key)
    requires i <= j <= |es| && Exec(start, es).Some?
    requires Exec(start, es[..i]).Some? && k in Exec(start, es[..i]).value.table
    requires Exec(start, es[..i]).value.table[k].ackedAt.Some?
    requires var r := Exec(start, es[..i]).value.table[k];
             forall m | i <= m < j && es[m].Prune? && es[m].house == r.arrival.house :: es[m].now - r.ackedAt.value <= 604_800_000
    ensures Exec(start, es[..j]).Some? && k in Exec(start, es[..j]).value.table
    ensures Exec(start, es[..j]).value.table[k] == Exec(start, es[..i]).value.table[k]
    decreases j
  {
    hide Step;
    if i < j {
      AckedIsFinal(start, es, i, j - 1, k);
      StepAt(start, es, j - 1);
      RowsOnlyAdvance(Exec(start, es[..j - 1]).value, es[j - 1], k);
    }
  }

  lemma StepAt(start: int, es: seq<Event>, i: nat)
    requires Exec(start, es).Some? && i < |es|
    ensures Exec(start, es[..i]).Some? && Exec(start, es[..i + 1]) == Step(Exec(start, es[..i]).value, es[i])
    ensures Exec(start, es[..i + 1]).Some?
  {
    PrefixLegal(start, es, i);
    PrefixLegal(start, es, i + 1);
    assert es[..i + 1] == es[..i] + [es[i]];
    ExecSnoc(start, es[..i], es[i]);
  }
}

// The quota statement counts rows by their id alone, so a carrier's text whose
// id reads like an upload's counts too.
module EdgeTexts {
  import opened Basics
  import opened EdgeQueue

  function From(t: Table, keys: set<Key>, source: Source): set<Key> {
    set k | k in keys && k in t && t[k].arrival.source == source
  }

  lemma SplitsBySource(t: Table, keys: set<Key>)
    requires keys <= t.Keys
    ensures |keys| == |From(t, keys, ContactUpload)| + |From(t, keys, Sms)|
  {
    var uploads, texts := From(t, keys, ContactUpload), From(t, keys, Sms);
    assert keys == uploads + texts && uploads !! texts;
  }

  // What is held against a sender: uploads, and texts that count.
  function RecentOf(t: Table, e: Event, source: Source): nat
    requires e.InsertUpload?
  {
    |From(t, Recent(t, e.house, e.sender, e.at - HOUR), source)|
  }

  function UnackedOf(t: Table, e: Event, source: Source): nat
    requires e.InsertUpload?
  {
    |From(t, Unacked(t, e.house, e.sender), source)|
  }

  // The same table without the texts that count against the sender.
  function WithoutTexts(s: Sys, house: string, sender: string): Sys {
    s.(table := map k | k in s.table && !(CountsFor(s.table, k, house, sender) && s.table[k].arrival.source.Sms?) :: s.table[k])
  }

  predicate Refused(s: Sys, e: Event) { Step(s, e) == Some(s) }

  lemma WithoutTextsCounts(s: Sys, e: Event)
    requires e.InsertUpload?
    ensures var t := WithoutTexts(s, e.house, e.sender).table;
            && Recent(t, e.house, e.sender, e.at - HOUR) == From(s.table, Recent(s.table, e.house, e.sender, e.at - HOUR), ContactUpload)
            && Unacked(t, e.house, e.sender) == From(s.table, Unacked(s.table, e.house, e.sender), ContactUpload)
  {
    hide LikeUpload;
  }

  // A new upload is accepted exactly while uploads and counting texts together
  // are under the quota, in the hour and unacknowledged.
  lemma RefusedWhen(s: Sys, e: Event)
    requires e.InsertUpload? && Fresh(s, e.at) && UPLOAD <= e.id && (e.house, e.id) !in s.table
    ensures Refused(s, e) <==>
              || RecentOf(s.table, e, ContactUpload) + RecentOf(s.table, e, Sms) >= QUOTA
              || UnackedOf(s.table, e, ContactUpload) + UnackedOf(s.table, e, Sms) >= QUOTA
  {
    hide LikeUpload, Recent, Unacked;
    RecentInTable(s.table, e);
    SplitsBySource(s.table, Recent(s.table, e.house, e.sender, e.at - HOUR));
    SplitsBySource(s.table, Unacked(s.table, e.house, e.sender));
  }

  lemma RecentInTable(t: Table, e: Event)
    requires e.InsertUpload?
    ensures Recent(t, e.house, e.sender, e.at - HOUR) <= t.Keys && Unacked(t, e.house, e.sender) <= t.Keys
  {
    hide LikeUpload;
  }

  // ---- Who decides ----

  // The rows of a sender in a house whose id reads like an upload's.
  predicate ReadsUpload(id: string) {
    |id| >= 7 && forall i | 0 <= i < 7 :: id[i] == "upload:"[i] || id[i] == "UPLOAD:"[i]
  }

  lemma LikeMeansReads(id: string)
    ensures LikeUpload(id) <==> ReadsUpload(id)
  {
    if LikeUpload(id) {
      forall i | 0 <= i < 7 ensures id[i] == "upload:"[i] || id[i] == "UPLOAD:"[i] { LowerIs(id[i], i); }
    } else if ReadsUpload(id) {
      forall i | 0 <= i < 7 ensures Lower(id[i]) == UPLOAD[i] { LowerIs(id[i], i); }
    }
  }

  lemma LowerIs(c: char, i: nat)
    requires i < 7
    ensures Lower(c) == UPLOAD[i] <==> c == "upload:"[i] || c == "UPLOAD:"[i]
  {
  }

  // INSERT OR IGNORE: a row already there stays, a text is always stored, and
  // what is stored is what was sent; nothing else changes.
  lemma StoredAsSent(s: Sys, e: Event)
    requires (e.InsertUpload? || e.InsertSms?) && Step(s, e).Some?
    ensures var k, t := (e.house, e.id), Step(s, e).value.table;
            && (forall j | j != k :: j in t <==> j in s.table)
            && (forall j | j in s.table :: j in t && t[j] == s.table[j])
            && (e.InsertSms? ==> k in t)
            && (k in t && k !in s.table ==>
                  && t[k].ackedAt.None? && t[k].result.None?
                  && t[k].arrival.house == e.house && t[k].arrival.id == e.id && t[k].arrival.sender == e.sender && t[k].arrival.at == e.at
                  && (e.InsertSms? ==> t[k].arrival.source == Sms)
                  && (e.InsertUpload? ==> t[k].arrival.source == ContactUpload && t[k].arrival.fingerprint == Some(e.fingerprint) &&
                                          t[k].arrival.keyHash == e.keyHash))
  {
  }

  // A new upload is decided by its own sender's rows in its own house alone:
  // those of the last hour, and those unacknowledged, each fewer than thirty.
  lemma DecidedByOwnRows(s: Sys, e: Event)
    requires e.InsertUpload? && Fresh(s, e.at) && UPLOAD <= e.id && (e.house, e.id) !in s.table
    ensures var t := s.table;
            var own := set k | k in t && t[k].arrival.house == e.house && t[k].arrival.sender == e.sender && ReadsUpload(t[k].arrival.id);
            var recent := set k | k in own && t[k].arrival.at >= e.at - 3600000;
            var waiting := set k | k in own && t[k].ackedAt.None?;
            (e.house, e.id) in Step(s, e).value.table <==> |recent| < 30 && |waiting| < 30
  {
    hide LikeUpload, ReadsUpload;
    var t := s.table;
    var own := set k | k in t && t[k].arrival.house == e.house && t[k].arrival.sender == e.sender && ReadsUpload(t[k].arrival.id);
    forall k | k in t ensures LikeUpload(t[k].arrival.id) <==> ReadsUpload(t[k].arrival.id) { LikeMeansReads(t[k].arrival.id); }
    assert Recent(t, e.house, e.sender, e.at - HOUR) == set k | k in own && t[k].arrival.at >= e.at - 3600000;
    assert Unacked(t, e.house, e.sender) == set k | k in own && t[k].ackedAt.None?;
  }

  // Whatever rows others have, with fewer than thirty of one's own an upload is
  // accepted.
  lemma AcceptedUnderThirty(s: Sys, e: Event, own: set<Key>)
    requires e.InsertUpload? && Fresh(s, e.at) && UPLOAD <= e.id && (e.house, e.id) !in s.table
    requires forall k | k in s.table && s.table[k].arrival.house == e.house && s.table[k].arrival.sender == e.sender :: k in own
    requires |own| < 30
    ensures (e.house, e.id) in Step(s, e).value.table
  {
    hide LikeUpload, ReadsUpload;
    DecidedByOwnRows(s, e);
    var t := s.table;
    var mine := set k | k in t && t[k].arrival.house == e.house && t[k].arrival.sender == e.sender && ReadsUpload(t[k].arrival.id);
    SubsetCard((set k | k in mine && t[k].arrival.at >= e.at - 3600000), own);
    SubsetCard((set k | k in mine && t[k].ackedAt.None?), own);
  }

  // Rows of other senders and other houses may come and go: the decision stays.
  lemma OthersDoNotDecide(s: Sys, t: Table, e: Event)
    requires e.InsertUpload? && Fresh(s, e.at) && UPLOAD <= e.id && (e.house, e.id) !in s.table && (e.house, e.id) !in t
    requires forall k | k in s.table && s.table[k].arrival.house == e.house && s.table[k].arrival.sender == e.sender :: k in t && t[k] == s.table[k]
    requires forall k | k in t && t[k].arrival.house == e.house && t[k].arrival.sender == e.sender :: k in s.table && s.table[k] == t[k]
    ensures (e.house, e.id) in Step(s.(table := t), e).value.table <==> (e.house, e.id) in Step(s, e).value.table
  {
    hide LikeUpload;
    assert Recent(t, e.house, e.sender, e.at - HOUR) == Recent(s.table, e.house, e.sender, e.at - HOUR);
    assert Unacked(t, e.house, e.sender) == Unacked(s.table, e.house, e.sender);
  }

  // So texts cost a person an upload exactly when the uploads alone are under
  // both quotas and the texts reach one of them.
  lemma TextsCostAnUpload(s: Sys, e: Event)
    requires e.InsertUpload? && Fresh(s, e.at) && UPLOAD <= e.id && (e.house, e.id) !in s.table
    ensures Refused(s, e) && !Refused(WithoutTexts(s, e.house, e.sender), e) <==>
              && RecentOf(s.table, e, ContactUpload) < QUOTA && UnackedOf(s.table, e, ContactUpload) < QUOTA
              && (|| RecentOf(s.table, e, ContactUpload) + RecentOf(s.table, e, Sms) >= QUOTA
                  || UnackedOf(s.table, e, ContactUpload) + UnackedOf(s.table, e, Sms) >= QUOTA)
  {
    RefusedWhen(s, e);
    WithoutTextsCounts(s, e);
    hide LikeUpload, Recent, Unacked, From;
  }

  // ---- It happens ----

  function Times(n: nat): string { if n == 0 then "" else Times(n - 1) + "x" }

  lemma {:induction false} TimesLength(n: nat)
    ensures |Times(n)| == n
  {
    if n > 0 {
      TimesLength(n - 1);
    }
  }

  function Text(house: string, sender: string, n: nat): Event { InsertSms(house, "UPLOAD:" + Times(n), sender, 0) }

  function Texts(house: string, sender: string, n: nat): seq<Event> {
    if n == 0 then [] else Texts(house, sender, n - 1) + [Text(house, sender, n - 1)]
  }

  // Texts only, n of them, each of which counts.
  ghost predicate Filled(s: Sys, house: string, sender: string, n: nat) {
    && s.clock == 0 && |Recent(s.table, house, sender, -HOUR)| == n
    && (forall k | k in s.table :: s.table[k].arrival.source.Sms? && "UPLOAD:" <= k.1 && |k.1| < n + 7)
  }

  lemma ReadsLikeUpload(rest: string)
    ensures LikeUpload("UPLOAD:" + rest) && "UPLOAD:" <= "UPLOAD:" + rest
  {
  }

  lemma AddedCounts(t: Table, a: Arrival, since: int)
    requires (a.house, a.id) !in t && LikeUpload(a.id) && a.at >= since
    ensures |Recent(t[(a.house, a.id) := Row(a, None, None)], a.house, a.sender, since)| == |Recent(t, a.house, a.sender, since)| + 1
  {
    hide LikeUpload;
    var k := (a.house, a.id);
    assert Recent(t[k := Row(a, None, None)], a.house, a.sender, since) == Recent(t, a.house, a.sender, since) + {k};
  }

  lemma TextFills(s: Sys, house: string, sender: string, n: nat)
    requires Filled(s, house, sender, n)
    ensures var t := Step(s, Text(house, sender, n)); t.Some? && Filled(t.value, house, sender, n + 1)
  {
    hide LikeUpload, Recent, Times;
    TimesLength(n);
    ReadsLikeUpload(Times(n));
    var e := Text(house, sender, n);
    assert (e.house, e.id) !in s.table;
    AddedCounts(s.table, Arriving(s, e), -HOUR);
  }

  lemma {:induction false} TextsFill(house: string, sender: string, n: nat)
    ensures Exec(0, Texts(house, sender, n)).Some? && Filled(Exec(0, Texts(house, sender, n)).value, house, sender, n)
  {
    hide Step;
    if n == 0 {
      assert Recent(map[], house, sender, -HOUR) == {};
    } else {
      var before := Texts(house, sender, n - 1);
      TextsFill(house, sender, n - 1);
      TextFills(Exec(0, before).value, house, sender, n - 1);
      ExecSnoc(0, before, Text(house, sender, n - 1));
    }
  }

  // Thirty such texts within the hour and anybody's first upload is refused.
  lemma FirstUploadRefused(house: string, sender: string, id: string, fingerprint: Fingerprint, keyHash: nat)
    requires UPLOAD <= id
    ensures var s := Exec(0, Texts(house, sender, QUOTA)); var e := InsertUpload(house, id, sender, 0, fingerprint, keyHash);
            s.Some? && Refused(s.value, e) && (house, id) !in s.value.table && RecentOf(s.value.table, e, ContactUpload) == 0
  {
    hide LikeUpload, Texts, Recent;
    TextsFill(house, sender, QUOTA);
    var s := Exec(0, Texts(house, sender, QUOTA)).value;
    assert id[0] == 'u';
    assert From(s.table, Recent(s.table, house, sender, -HOUR), ContactUpload) == {};
  }
}
