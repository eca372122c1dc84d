// The Worker's handlers: awaited statements against the table, with every other
// handler free to run between two of them.
module EdgeWorker {
  import opened Basics
  import opened EdgeQueue
  import opened EdgeSafety

  class Database {
    const start: int
    var sys: Sys
    ghost var trace: seq<Event>

    constructor (now: int)
      ensures Valid() && trace == [] && sys == Sys(now, map[], {}, 0)
    {
      start := now;
      sys := Sys(now, map[], {}, 0);
      trace := [];
    }

    ghost predicate Valid()
      reads this
    {
      Exec(start, trace) == Some(sys)
    }

    method Do(e: Event)
      requires Valid() && Step(sys, e).Some?
      modifies this
      ensures Valid() && trace == old(trace) + [e] && sys == Step(old(sys), e).value
    {
      ExecSnoc(start, trace, e);
      sys := Step(sys, e).value;
      trace := trace + [e];
    }

    method Interfere()
      requires Valid()
      modifies this
      ensures Valid() && old(trace) <= trace && old(sys).clock <= sys.clock
    {
      hide Step;
      var n: nat := Any();
      while n > 0
        invariant Valid() && old(trace) <= trace && old(sys).clock <= sys.clock
      {
        var e: Event := Any();
        if Step(sys, e).Some? {
          ClockRises(sys, e);
          Do(e);
        }
        n := n - 1;
      }
    }

    // A statement bound to an earlier clock reading; a handler held up longer
    // than MAX_DELAY has been cancelled.
    method Statement(e: Event, now: int) returns (ran: bool)
      requires Valid() && (Fresh(sys, now) ==> Step(sys, e).Some?)
      modifies this
      ensures Valid() && old(trace) <= trace && (ran <==> Fresh(old(sys), now))
      ensures ran ==> trace == old(trace) + [e] && sys == Step(old(sys), e).value
      ensures !ran ==> trace == old(trace) && sys == old(sys)
    {
      ran := Fresh(sys, now);
      if ran {
        Do(e);
      }
    }

    function Stored(house: string, id: string): Option<Row>
      reads this
    {
      if (house, id) in sys.table then Some(sys.table[(house, id)]) else None
    }
  }

  lemma ClockRises(s: Sys, e: Event)
    requires Step(s, e).Some?
    ensures s.clock <= Step(s, e).value.clock
  {
  }

  const ACCEPTED := 202
  const CONFLICT := 409
  const TOO_MANY := 429
  const FAILED := 500

  // A handler held up for more than three days.
  predicate TookTooLong(before: Sys, after: Sys) { after.clock - before.clock > 3 * 24 * 3_600_000 }

  predicate QuotaReached(t: Table, house: string, sender: string, at: int) {
    |Recent(t, house, sender, at - HOUR)| >= QUOTA || |Unacked(t, house, sender)| >= QUOTA
  }

  ghost predicate PrunedAt(start: int, es: seq<Event>, n: nat, k: Key) {
    && n < |es| && es[n].Prune? && Exec(start, es[..n]).Some?
    && k in Exec(start, es[..n]).value.table && Prunable(Exec(start, es[..n]).value.table[k], es[n].house, es[n].now)
  }

  // The insertion ran, and found a quota reached or had its row pruned since.
  ghost predicate Tried(db: Database, from: nat, e: Event)
    requires e.InsertUpload?
    reads db
  {
    exists m | from <= m < |db.trace| ::
      && db.trace[m] == e && Exec(db.start, db.trace[..m]).Some?
      && (|| QuotaReached(Exec(db.start, db.trace[..m]).value.table, e.house, e.sender, e.at)
          || exists n :: n > m && PrunedAt(db.start, db.trace, n, (e.house, e.id)))
  }

  lemma InsertRuns(s: Sys, e: Event)
    requires e.InsertUpload? && UPLOAD <= e.id
    ensures Fresh(s, e.at) ==> Step(s, e).Some?
  {
  }

  // A row leaves the table by a prune alone.
  lemma {:induction false} LeftByPrune(start: int, es: seq<Event>, i: nat, k: Key)
    requires Exec(start, es).Some? && i <= |es| && Exec(start, es[..i]).Some?
    requires k in Exec(start, es[..i]).value.table && k !in Exec(start, es).value.table
    ensures exists n :: n >= i && PrunedAt(start, es, n, k)
    decreases |es|
  {
    hide Step;
    assert es[..|es|] == es;
    if i < |es| {
      var n := |es| - 1;
      StepAt(start, es, n);
      if k in Exec(start, es[..n]).value.table {
        RowsOnlyAdvance(Exec(start, es[..n]).value, es[n], k);
        assert PrunedAt(start, es, n, k);
      } else {
        assert es[..n][..i] == es[..i];
        LeftByPrune(start, es[..n], i, k);
        var m :| m >= i && PrunedAt(start, es[..n], m, k);
        assert es[..n][..m] == es[..m];
        assert PrunedAt(start, es, m, k);
      }
    }
  }

  lemma InsertedOrRefused(s: Sys, e: Event)
    requires e.InsertUpload? && Step(s, e).Some?
    ensures (e.house, e.id) in Step(s, e).value.table || QuotaReached(s.table, e.house, e.sender, e.at)
  {
  }

  lemma TriedHere(db: Database, m: nat, from: nat, e: Event)
    requires db.Valid() && from <= m < |db.trace| && e.InsertUpload? && db.trace[m] == e
    ensures (e.house, e.id) !in db.sys.table ==> Tried(db, from, e)
  {
    hide Step, QuotaReached;
    var es := db.trace;
    StepAt(db.start, es, m);
    InsertedOrRefused(Exec(db.start, es[..m]).value, e);
    if (e.house, e.id) !in db.sys.table && (e.house, e.id) in Exec(db.start, es[..m + 1]).value.table {
      LeftByPrune(db.start, es, m + 1, (e.house, e.id));
    }
  }

  // POST /api/v1/contact-imports, from the lookup on.
  method UploadContact(db: Database, house: string, sender: string, id: string, fingerprint: Fingerprint, keyHash: nat)
    returns (status: int)
    requires db.Valid() && UPLOAD <= id
    modifies db
    ensures db.Valid() && old(db.trace) <= db.trace
    // A receipt is given only for a stored row with this very content.
    ensures status == ACCEPTED <==> status !in {CONFLICT, TOO_MANY, FAILED}
    ensures status == ACCEPTED ==> db.Stored(house, id).Some? && db.Stored(house, id).value.arrival.fingerprint == Some(fingerprint)
    ensures status == CONFLICT ==> db.Stored(house, id).Some? && db.Stored(house, id).value.arrival.fingerprint != Some(fingerprint)
    // A refusal comes of this very insertion, which found a quota reached, or
    // whose row was acknowledged and pruned before it was looked up again.
    ensures status == FAILED ==> TookTooLong(old(db.sys), db.sys)
    ensures status == TOO_MANY ==>
              db.Stored(house, id).None? && exists now :: Tried(db, |old(db.trace)|, InsertUpload(house, id, sender, now, fingerprint, keyHash))
  {
    hide Step, Tried;
    db.Interfere();
    var row := db.Stored(house, id);
    if row.None? {
      var now := db.sys.clock;
      db.Interfere();
      ghost var m := |db.trace|;
      InsertRuns(db.sys, InsertUpload(house, id, sender, now, fingerprint, keyHash));
      var ran := db.Statement(InsertUpload(house, id, sender, now, fingerprint, keyHash), now);
      if !ran {
        return FAILED;
      }
      db.Interfere();
      TriedHere(db, m, |old(db.trace)|, InsertUpload(house, id, sender, now, fingerprint, keyHash));
      row := db.Stored(house, id);
      if row.None? {
        return TOO_MANY;
      }
    }
    return if row.value.arrival.fingerprint != Some(fingerprint) then CONFLICT else ACCEPTED;
  }

  datatype ImportStatus = NotFound | Finished(outcome: Outcome) | Queued

  predicate OwnUpload(row: Option<Row>, keyHash: nat) {
    row.Some? && row.value.arrival.source.ContactUpload? && row.value.arrival.keyHash == keyHash
  }

  // GET /api/v1/contact-imports/:receipt: read until there is a result or the
  // caller's patience ends.
  method Status(db: Database, house: string, receipt: string, keyHash: nat, wait: nat) returns (r: ImportStatus)
    requires db.Valid()
    modifies db
    ensures db.Valid() && old(db.trace) <= db.trace
    // Another key's upload, and a text, are not found.
    ensures r.NotFound? <==> var row := db.Stored(house, receipt);
                             row.None? || !row.value.arrival.source.ContactUpload? || row.value.arrival.keyHash != keyHash
    ensures r.Finished? ==> db.Stored(house, receipt).value.result == Some(r.outcome) && db.Stored(house, receipt).value.ackedAt.Some?
    ensures r.Queued? ==> db.Stored(house, receipt).value.ackedAt.None? && db.sys.clock >= old(db.sys.clock) + 1000 * wait
  {
    var deadline := db.sys.clock + wait * 1000;
    while true
      invariant db.Valid() && old(db.trace) <= db.trace
      decreases deadline - db.sys.clock
    {
      AlwaysKept(db.start, db.trace);
      var row := db.Stored(house, receipt);
      if !OwnUpload(row, keyHash) {
        return NotFound;
      }
      if row.value.result.Some? {
        return Finished(row.value.result.value);
      }
      if db.sys.clock >= deadline {
        return Queued;
      }
      db.Interfere();
      db.Do(Wait(db.sys.clock + 1000));
    }
  }

  // The carrier's callback: a retry is answered without a second row, and
  // without fetching the attachments again.
  method Callback(db: Database, house: string, id: string, sender: string) returns (status: int, ghost fetched: Option<nat>)
    requires db.Valid()
    modifies db
    ensures db.Valid() && old(db.trace) <= db.trace
    ensures status == 200 ==> db.Stored(house, id).Some?
    ensures status == 200 || (status == FAILED && TookTooLong(old(db.sys), db.sys))
    // They are fetched only where no row is stored.
    ensures fetched.None? ==> status == 200
    ensures fetched.Some? ==>
              && |old(db.trace)| <= fetched.value <= |db.trace| && Exec(db.start, db.trace[..fetched.value]).Some?
              && (house, id) !in Exec(db.start, db.trace[..fetched.value]).value.table
  {
    hide Step;
    db.Interfere();
    fetched := None;
    if db.Stored(house, id).Some? {
      return 200, fetched;
    }
    // The attachments are fetched here.
    fetched := Some(|db.trace|);
    ghost var es := db.trace;
    assert es[..|es|] == es;
    db.Interfere();
    var now := db.sys.clock;
    db.Interfere();
    TextRuns(db.sys, InsertSms(house, id, sender, now));
    var ran := db.Statement(InsertSms(house, id, sender, now), now);
    assert db.trace[..|es|] == es;
    return if ran then 200 else FAILED, fetched;
  }

  lemma TextRuns(s: Sys, e: Event)
    requires e.InsertSms?
    ensures Fresh(s, e.at) ==> Step(s, e).Some? && (e.house, e.id) in Step(s, e).value.table
  {
  }

  datatype AckResult = AckResult(id: string, outcome: Outcome)

  function ResultFor(results: seq<AckResult>, id: string): Option<Outcome> {
    if results == [] then None
    else if results[0].id == id then Some(results[0].outcome)
    else ResultFor(results[1..], id)
  }

  // An upload is acknowledged only with its result, a text only without one.
  function AckEvent(house: string, id: string, results: seq<AckResult>, now: int): Event {
    var outcome := ResultFor(results, id);
    if outcome.Some? then AckUpload(house, id, now, outcome.value) else AckSms(house, id, now)
  }

  predicate FirstFor(results: seq<AckResult>, id: string, j: nat) {
    j < |results| && results[j].id == id && forall m | 0 <= m < j :: results[m].id != id
  }

  lemma {:induction false} ResultIsFirst(results: seq<AckResult>, id: string, j: nat)
    requires FirstFor(results, id, j)
    ensures ResultFor(results, id) == Some(results[j].outcome)
  {
    if j > 0 {
      assert results[0].id != id;
      forall m | 0 <= m < j - 1 ensures results[1..][m].id != id { assert results[1..][m] == results[m + 1]; }
      ResultIsFirst(results[1..], id, j - 1);
    }
  }

  lemma {:induction false} NoResult(results: seq<AckResult>, id: string)
    requires forall r | r in results :: r.id != id
    ensures ResultFor(results, id).None?
  {
    if results != [] {
      assert results[0] in results;
      NoResult(results[1..], id);
    }
  }

  const BATCH := 200

  ghost predicate RanSince(es: seq<Event>, from: nat, e: Event) {
    exists m | from <= m < |es| :: es[m] == e
  }

  lemma RanLonger(es: seq<Event>, more: seq<Event>, from: nat)
    requires es <= more
    ensures forall e | RanSince(es, from, e) :: RanSince(more, from, e)
  {
    forall e | RanSince(es, from, e) ensures RanSince(more, from, e) {
      var m :| from <= m < |es| && es[m] == e;
      assert more[m] == e;
    }
  }

  // POST inbox/ack: one UPDATE per id, all with one clock reading, then the prune.
  method Ack(db: Database, house: string, ids: seq<string>, results: seq<AckResult>) returns (ok: bool, now: int)
    requires db.Valid()
    modifies db
    ensures db.Valid() && old(db.trace) <= db.trace
    ensures |results| > BATCH || (exists r :: r in results && r.id !in ids) ==> !ok && db.trace == old(db.trace)
    ensures !ok ==> |results| > 200 || (exists r :: r in results && r.id !in ids) || TookTooLong(old(db.sys), db.sys)
    // An id with a result is acknowledged as an upload with the first result
    // that names it, any other as a text.
    ensures ok ==> forall i, j | 0 <= i < |ids| && i < 200 && 0 <= j < |results| && results[j].id == ids[i] &&
                                 (forall m | 0 <= m < j :: results[m].id != ids[i]) ::
                     RanSince(db.trace, |old(db.trace)|, AckUpload(house, ids[i], now, results[j].outcome))
    ensures ok ==> forall i | 0 <= i < |ids| && i < 200 && (forall r | r in results :: r.id != ids[i]) ::
                     RanSince(db.trace, |old(db.trace)|, AckSms(house, ids[i], now))
    // And last of all, by a later reading of the clock, the prune.
    ensures ok ==> |db.trace| > |old(db.trace)| &&
                   var last := db.trace[|db.trace| - 1]; last.Prune? && last.house == house && now <= last.now
  {
    now := db.sys.clock;
    if |results| > BATCH || exists r :: r in results && r.id !in ids {
      return false, now;
    }
    for k := 0 to Min(|ids|, BATCH)
      invariant db.Valid() && old(db.trace) <= db.trace && now <= db.sys.clock
      invariant forall i | 0 <= i < k :: RanSince(db.trace, |old(db.trace)|, AckEvent(house, ids[i], results, now))
    {
      ok := AckOne(db, |old(db.trace)|, AckEvent(house, ids[k], results, now), now);
      if !ok {
        return;
      }
    }
    forall i | 0 <= i < |ids| && i < BATCH
      ensures RanSince(db.trace, |old(db.trace)|, AckEvent(house, ids[i], results, now))
      ensures forall j: nat | FirstFor(results, ids[i], j) ::
                AckEvent(house, ids[i], results, now) == AckUpload(house, ids[i], now, results[j].outcome)
      ensures (forall r | r in results :: r.id != ids[i]) ==> AckEvent(house, ids[i], results, now) == AckSms(house, ids[i], now)
    {
      forall j: nat | FirstFor(results, ids[i], j) ensures ResultFor(results, ids[i]) == Some(results[j].outcome) {
        ResultIsFirst(results, ids[i], j);
      }
      if forall r | r in results :: r.id != ids[i] {
        NoResult(results, ids[i]);
      }
    }
    ghost var acked := db.trace;
    db.Interfere();
    var later := db.sys.clock;
    ok := db.Statement(Prune(house, later), later);
    RanLonger(acked, db.trace, |old(db.trace)|);
  }

  method AckOne(db: Database, ghost from: nat, e: Event, now: int) returns (ran: bool)
    requires db.Valid() && from <= |db.trace| && (e.AckUpload? || e.AckSms?) && e.now == now && now <= db.sys.clock
    modifies db
    ensures db.Valid() && old(db.trace) <= db.trace && old(db.sys).clock <= db.sys.clock
    ensures forall f | RanSince(old(db.trace), from, f) :: RanSince(db.trace, from, f)
    ensures if ran then RanSince(db.trace, from, e) else now < db.sys.clock - MAX_DELAY
  {
    db.Interfere();
    ran := db.Statement(e, now);
    if ran {
      assert db.trace[|db.trace| - 1] == e;
    }
    forall f | RanSince(old(db.trace), from, f) ensures RanSince(db.trace, from, f) {
      var m :| from <= m < |old(db.trace)| && old(db.trace)[m] == f;
      assert db.trace[m] == f;
    }
  }

  predicate Waiting(t: Table, k: Key, house: string, uploads: bool) {
    k in t && t[k].arrival.house == house && t[k].ackedAt.None? && (t[k].arrival.source.Sms? || uploads)
  }

  lemma {:induction false} OldestExists(t: Table, keys: set<Key>)
    requires keys != {} && keys <= t.Keys
    ensures exists k :: k in keys && forall j | j in keys :: t[k].arrival.at <= t[j].arrival.at
  {
    var k :| k in keys;
    if keys - {k} != {} {
      OldestExists(t, keys - {k});
      var m :| m in keys - {k} && forall j | j in keys - {k} :: t[m].arrival.at <= t[j].arrival.at;
      var best := if t[k].arrival.at < t[m].arrival.at then k else m;
      assert best in keys && forall j | j in keys :: t[best].arrival.at <= t[j].arrival.at;
    } else {
      assert keys == {k};
    }
  }

  // GET inbox/pull: the ten oldest waiting rows.
  method Pull(t: Table, house: string, uploads: bool) returns (rows: seq<Row>)
    ensures |rows| <= 10
    ensures forall r | r in rows :: exists k :: Waiting(t, k, house, uploads) && t[k] == r
    ensures forall i, j | 0 <= i < j < |rows| :: rows[i].arrival.at <= rows[j].arrival.at
    // What is left behind is no older, and nothing is unless the page is full.
    ensures forall k | Waiting(t, k, house, uploads) && t[k] !in rows :: |rows| == 10 && forall r | r in rows :: r.arrival.at <= t[k].arrival.at
  {
    rows := [];
    var left := set k | k in t && Waiting(t, k, house, uploads);
    while |rows| < 10 && left != {}
      invariant left <= t.Keys && |rows| <= 10
      invariant forall k | k in left :: Waiting(t, k, house, uploads)
      invariant forall r | r in rows :: exists k :: Waiting(t, k, house, uploads) && t[k] == r
      invariant forall i, j | 0 <= i < j < |rows| :: rows[i].arrival.at <= rows[j].arrival.at
      invariant forall k | Waiting(t, k, house, uploads) && k !in left :: t[k] in rows
      invariant forall k, r | k in left && r in rows :: r.arrival.at <= t[k].arrival.at
      decreases left
    {
      OldestExists(t, left);
      var k :| k in left && forall j | j in left :: t[k].arrival.at <= t[j].arrival.at;
      rows := rows + [t[k]];
      left := left - {k};
    }
  }
}
