// What the recovery operation's invariants mean for a box that stops anywhere
// and is started again.
module RecoveryRuns {
  import opened Basics
  import opened RecoveryProtocol
  import opened RecoverySafety

  // ---- What was confirmed ----

  // In every run of the commands, a confirmation carries the phrase of the
  // generation's own sheet, after the same command fetched the recorded
  // envelope and read the recorded bundle and that phrase opened both; and it
  // makes that generation current.
  lemma EveryConfirmationWasProven(es: seq<Event>, safe: Validator, k: nat)
    requires Disciplined(es, safe) && k < |es| && es[k].Confirm?
    ensures var s := At(es, safe, k);
            && s.operation.Some?
            && var op := s.operation.value; var id := op.scope.generation;
               && id in s.sheets && es[k].proof.phrase == s.sheets[id]
               && DidSince(es[..k], Fetched(op.envelope))
               && op.envelope == Sealed(es[k].proof.identity, op.scope, s.sheets[id]) && op.recipient == Recipient(es[k].proof.identity)
               && (op.cipher.Some? ==>
                     && DidSince(es[..k], ReadBundle(op.cipher.value))
                     && OpenBundle(op.cipher.value, es[k].proof.identity).Some?
                     && safe(OpenBundle(op.cipher.value, es[k].proof.identity).value))
               && At(es, safe, k + 1).current == Some(id)
  {
    hide DidSince;
    assert AskedAt(es, safe, k);
    PrefixLegal(es, safe, k);
    AlwaysSafe(es[..k], safe);
    StepAt(es, safe, k);
  }

  ghost predicate ConfirmedAt(es: seq<Event>, safe: Validator, id: nat, phrase: Phrase, k: nat)
    requires Exec(es, safe).Some? && k < |es|
  {
    && es[k].Confirm? && es[k].proof.phrase == phrase
    && At(es, safe, k).operation.Some? && At(es, safe, k).operation.value.scope.generation == id
  }

  lemma SheetsStay(s: Sys, e: Event, safe: Validator)
    requires Step(s, e, safe).Some?
    ensures forall id | id in s.sheets :: id in Step(s, e, safe).value.sheets && Step(s, e, safe).value.sheets[id] == s.sheets[id]
    ensures forall id | id in Step(s, e, safe).value.confirmed && id !in s.confirmed ::
              e.Confirm? && s.operation.Some? && s.operation.value.scope.generation == id
  {
  }

  // Whatever is or was current through this box had its own sheet's phrase
  // proven at the event that made it so.
  lemma {:induction false} CurrentWasProven(es: seq<Event>, safe: Validator, id: nat)
    requires Disciplined(es, safe) && id in Exec(es, safe).value.confirmed
    ensures id in Exec(es, safe).value.sheets
    ensures exists k | 0 <= k < |es| :: ConfirmedAt(es, safe, id, Exec(es, safe).value.sheets[id], k)
    decreases |es|
  {
    hide Step, MayAsk, DidSince, Safe;
    if es == [] {
      NothingConfirmed(safe);
    } else {
      var n := |es| - 1;
      var before := es[..n];
      assert es[..|es|] == es;
      AlwaysSafe(es, safe);
      StepAt(es, safe, n);
      SheetsStay(At(es, safe, n), es[n], safe);
      if id in At(es, safe, n).confirmed {
        DisciplinedPrefix(es, safe, n);
        CurrentWasProven(before, safe, id);
        var k :| 0 <= k < n && ConfirmedAt(before, safe, id, Exec(before, safe).value.sheets[id], k);
        assert before[..k] == es[..k];
        assert ConfirmedAt(es, safe, id, Exec(es, safe).value.sheets[id], k);
      } else {
        EveryConfirmationWasProven(es, safe, n);
        assert ConfirmedAt(es, safe, id, Exec(es, safe).value.sheets[id], n);
      }
    }
  }

  lemma NothingConfirmed(safe: Validator)
    ensures Exec([], safe) == Some(Initial) && Initial.confirmed == {}
  {
  }

  lemma DisciplinedPrefix(es: seq<Event>, safe: Validator, n: nat)
    requires Disciplined(es, safe) && n <= |es|
    ensures Disciplined(es[..n], safe)
  {
    hide MayAsk;
    PrefixLegal(es, safe, n);
    forall k | 0 <= k < n && es[..n][k].Confirm? ensures AskedAt(es[..n], safe, k) {
      assert AskedAt(es, safe, k);
      assert es[..n][..k] == es[..k];
    }
  }

  // ---- The old phrase ----

  lemma StepKeepsLive(s: Sys, e: Event, safe: Validator)
    requires Step(s, e, safe).Some? && !e.Confirm? && !e.Elsewhere? && ServiceSafe(s)
    ensures var t := Step(s, e, safe).value;
            t.current == s.current && (s.current.Some? ==>
              s.current.value in t.generations && t.generations[s.current.value] == s.generations[s.current.value])
  {
  }

  // Whatever else this box does, the current generation and what opens it stay
  // until a confirmation.
  lemma {:induction false} OldPhraseStaysLive(es: seq<Event>, safe: Validator, i: nat, j: nat)
    requires Exec(es, safe).Some? && i <= j <= |es| && forall k | i <= k < j :: !es[k].Confirm? && !es[k].Elsewhere?
    ensures var s, t := At(es, safe, i), At(es, safe, j);
            t.current == s.current && (s.current.Some? ==>
              s.current.value in s.generations && s.current.value in t.generations &&
              t.generations[s.current.value] == s.generations[s.current.value])
    decreases j
  {
    hide Step;
    PrefixLegal(es, safe, j);
    AlwaysSafe(es[..j], safe);
    if i < j {
      OldPhraseStaysLive(es, safe, i, j - 1);
      StepAt(es, safe, j - 1);
      PrefixLegal(es, safe, j - 1);
      AlwaysSafe(es[..j - 1], safe);
      StepKeepsLive(At(es, safe, j - 1), es[j - 1], safe);
    }
  }

  // ---- Resuming ----

  // The validator refuses a bundle that names a path twice.
  ghost predicate DistinctPaths(safe: Validator) {
    forall items: seq<Item> | safe(items) :: forall i, j | 0 <= i < j < |items| :: items[i].path != items[j].path
  }

  function TreeOf(items: seq<Item>): Tree {
    if items == [] then map[]
    else TreeOf(items[..|items| - 1])[items[|items| - 1].path := FileOf(items[|items| - 1])]
  }

  lemma {:induction false} TreeIsExact(items: seq<Item>)
    requires forall i, j | 0 <= i < j < |items| :: items[i].path != items[j].path
    ensures Exactly(TreeOf(items), items)
  {
    if items != [] {
      var init := items[..|items| - 1];
      TreeIsExact(init);
      assert items == init + [items[|items| - 1]];
      OneMoreItem(init, items[|items| - 1], TreeOf(init));
    }
  }

  lemma OneMoreItem(items: seq<Item>, it: Item, t: Tree)
    requires Exactly(t, items) && forall i | 0 <= i < |items| :: items[i].path != it.path
    ensures Exactly(t[it.path := FileOf(it)], items + [it])
  {
    hide FileOf;
    var more := items + [it];
    assert more[|items|] == it;
    forall p | p in PathsOf(items) ensures p in PathsOf(more) {
      var i :| 0 <= i < |items| && items[i].path == p;
      assert more[i].path == p;
    }
    assert PathsOf(more) == PathsOf(items) + {it.path};
  }

  // What the service can still be asked for.
  predicate ServiceReady(s: Sys, op: Operation) {
    s.current == Some(op.scope.generation) || (op.scope.generation !in s.gone && s.current == op.predecessor)
  }

  // What a directory can hold.
  predicate Placeable(op: Operation) {
    op.cipher.Some? && op.cipher.value.Encrypted? ==> Fits(PathsOf(op.cipher.value.items))
  }

  predicate Resumable(s: Sys, op: Operation) {
    ServiceReady(s, op) && Placeable(op) && (op.cipher.Some? ==> s.bundle == op.cipher)
  }

  predicate Completed(t: Sys, op: Operation) {
    && t.operation.None? && t.current == Some(op.scope.generation) && t.receipt == Some(op.scope.generation)
    && (op.cipher.Some? ==> op.cipher.value.Encrypted? && op.root in t.roots && Exactly(t.roots[op.root], op.cipher.value.items))
  }

  // One command: it begins, and takes steps of a confirmation, which is among
  // them.
  predicate OfConfirmation(e: Event) {
    || e.Listed? || e.Fetched? || e.ReadBundle? || e.Prepare? || e.Confirm? || e.PublishRoot? || e.SaveReceipt? || e.RemoveOperation?
  }

  ghost predicate OneConfirmation(more: seq<Event>) {
    && more != [] && more[0] == Start
    && (forall k | 1 <= k < |more| :: OfConfirmation(more[k]))
    && (exists k | 1 <= k < |more| :: more[k].Confirm?)
  }

  // The service lists the generation as current already, with this envelope.
  predicate Already(l: Listing, op: Operation) {
    var id := op.scope.generation;
    l.current == Some(id) && id in l.generations && l.generations[id].envelope == op.envelope
  }

  // The steps of one confirmation, in its order.
  function Asking(op: Operation, l: Listing, proof: Proof): seq<Event> {
    [Start, Listed(l)] + (if Already(l, op) then [] else [Prepare]) +
    [Fetched(op.envelope)] + (if op.cipher.Some? then [ReadBundle(op.cipher.value)] else []) + [Confirm(proof)]
  }

  function Attempt(op: Operation, l: Listing, proof: Proof, tree: Option<Tree>): seq<Event> {
    Asking(op, l, proof) + (if tree.Some? then [PublishRoot(tree.value)] else []) + [SaveReceipt, RemoveOperation]
  }

  ghost predicate IsAttempt(more: seq<Event>, op: Operation) {
    exists l: Listing, proof, tree :: l.account == op.scope.account && l.house == op.scope.house && more == Attempt(op, l, proof, tree)
  }

  ghost predicate CompletesBy(es: seq<Event>, more: seq<Event>, op: Operation, safe: Validator) {
    IsAttempt(more, op) && Disciplined(es + more, safe) && Completed(Exec(es + more, safe).value, op)
  }

  lemma AskingIsOne(op: Operation, l: Listing, proof: Proof)
    ensures var asking := Asking(op, l, proof);
            && |asking| >= 2 && asking[0] == Start && asking[|asking| - 1] == Confirm(proof)
            && forall k | 1 <= k < |asking| :: OfConfirmation(asking[k])
  {
    hide Already;
  }

  lemma AttemptIsOne(more: seq<Event>, op: Operation)
    requires IsAttempt(more, op)
    ensures OneConfirmation(more)
  {
    hide Asking, Attempt, OneConfirmation;
    var l: Listing, proof, tree :| more == Attempt(op, l, proof, tree);
    AskingIsOne(op, l, proof);
    Extends(Asking(op, l, proof), if tree.Some? then [PublishRoot(tree.value)] else [], op, l, proof, tree);
  }

  lemma Extends(asking: seq<Event>, placing: seq<Event>, op: Operation, l: Listing, proof: Proof, tree: Option<Tree>)
    requires asking == Asking(op, l, proof) && placing == if tree.Some? then [PublishRoot(tree.value)] else []
    requires |asking| >= 2 && asking[0] == Start && asking[|asking| - 1] == Confirm(proof)
    requires forall k | 1 <= k < |asking| :: OfConfirmation(asking[k])
    ensures OneConfirmation(Attempt(op, l, proof, tree))
  {
    hide Asking;
    var more := Attempt(op, l, proof, tree);
    assert more == asking + placing + [SaveReceipt, RemoveOperation];
    assert more[|asking| - 1] == Confirm(proof);
  }

  // One more event of the attempt begun at the end of es.
  lemma Follow(es: seq<Event>, more: seq<Event>, s: Sys, e: Event, safe: Validator) returns (longer: seq<Event>, t: Sys)
    requires Disciplined(es + more, safe) && Exec(es + more, safe) == Some(s) && Step(s, e, safe).Some?
    requires e.Confirm? ==> s.operation.Some? && MayAsk(es + more, s.operation.value, e.proof, safe)
    ensures longer == more + [e] && Disciplined(es + longer, safe) && Exec(es + longer, safe) == Some(t) && t == Step(s, e, safe).value
    ensures e != Start ==> forall f :: DidSince(es + more, f) ==> DidSince(es + longer, f)
    ensures DidSince(es + longer, e)
  {
    hide Step, MayAsk;
    longer := more + [e];
    assert es + longer == (es + more) + [e];
    DisciplinedSnoc(es + more, e, safe);
    t := Step(s, e, safe).value;
    if e != Start {
      forall f ensures DidSince(es + more, f) ==> DidSince(es + longer, f) { DidSinceSnoc(es + more, e, f); }
      DidSinceSnoc(es + more, e, e);
    } else {
      assert (es + longer)[|es + more|] == e;
    }
  }

  lemma IsLegal(es: seq<Event>, safe: Validator)
    requires Disciplined(es, safe)
    ensures Exec(es, safe).Some? && Safe(Exec(es, safe).value, safe)
  {
    hide Safe;
    AlwaysSafe(es, safe);
  }

  lemma SheetProves(s: Sys, op: Operation, safe: Validator)
    requires FilesSafe(s, safe) && s.operation == Some(op)
    ensures op.scope.generation in s.sheets && op.envelope.Sealed?
    ensures Proves(op, Proof(s.sheets[op.scope.generation], op.envelope.identity, op.cipher), safe)
  {
    hide Fits, Exactly;
  }

  // What a listing shows of an operation that can be resumed.
  lemma ListingShows(s: Sys, op: Operation, safe: Validator, l: Listing)
    requires Safe(s, safe) && s.operation == Some(op) && ServiceReady(s, op) && l.generations == s.generations && l.current == s.current
    ensures if Already(l, op) then MayConfirm(s, op) else MayPrepare(s, op)
  {
    hide FilesSafe;
  }

  lemma Prepared(s: Sys, op: Operation, safe: Validator)
    requires s.operation == Some(op) && MayPrepare(s, op)
    ensures Step(s, Prepare, safe).Some? && MayConfirm(Step(s, Prepare, safe).value, op)
    ensures Step(s, Prepare, safe).value == s.(generations := s.generations[op.scope.generation := GenerationOf(op)])
  {
  }

  // Asking again is possible.
  lemma Reprepares(es: seq<Event>, safe: Validator, op: Operation, l: Listing) returns (more: seq<Event>, t: Sys)
    requires Disciplined(es, safe) && Exec(es, safe).value.operation == Some(op) && ServiceReady(Exec(es, safe).value, op)
    requires var s := Exec(es, safe).value; l.generations == s.generations && l.current == s.current
    ensures more == [Start, Listed(l)] + (if Already(l, op) then [] else [Prepare])
    ensures Disciplined(es + more, safe) && Exec(es + more, safe) == Some(t)
    ensures MayConfirm(t, op) && t == Exec(es, safe).value.(generations := t.generations)
  {
    hide DidSince, Disciplined, Exec, Safe, Already, MayPrepare, MayConfirm, GenerationOf, ServiceReady;
    IsLegal(es, safe);
    assert es + [] == es;
    var s := Exec(es, safe).value;
    ListingShows(s, op, safe, l);
    more, t := Follow(es, [], s, Start, safe);
    more, t := Follow(es, more, t, Listed(l), safe);
    if !Already(l, op) {
      Prepared(t, op, safe);
      more, t := Follow(es, more, t, Prepare, safe);
    }
  }

  // And then the sheet's own phrase confirms.
  lemma Reconfirms(es: seq<Event>, safe: Validator, op: Operation, l: Listing, proof: Proof) returns (more: seq<Event>, t: Sys)
    requires Disciplined(es, safe) && Exec(es, safe).value.operation == Some(op) && Resumable(Exec(es, safe).value, op)
    requires var s := Exec(es, safe).value; l.generations == s.generations && l.current == s.current
    requires Proves(op, proof, safe)
    ensures more == Asking(op, l, proof) && Disciplined(es + more, safe) && Exec(es + more, safe) == Some(t)
    ensures t.operation == Some(op) && t.current == Some(op.scope.generation) && op.scope.generation in t.confirmed
    ensures t.roots == Exec(es, safe).value.roots
  {
    hide DidSince, Disciplined, Exec, Fits, Proves, Already, MayPrepare, MayConfirm, ServiceReady, Placeable;
    more, t := Reprepares(es, safe, op, l);
    more, t := Follow(es, more, t, Fetched(op.envelope), safe);
    if op.cipher.Some? {
      more, t := Follow(es, more, t, ReadBundle(op.cipher.value), safe);
    }
    more, t := Follow(es, more, t, Confirm(proof), safe);
  }

  // The receipt, and then the operation goes.
  lemma LetsGo(es: seq<Event>, before: seq<Event>, safe: Validator, op: Operation, s: Sys) returns (more: seq<Event>)
    requires Disciplined(es + before, safe) && Exec(es + before, safe) == Some(s)
    requires s.operation == Some(op) && s.current == Some(op.scope.generation) && op.scope.generation in s.confirmed
    requires op.cipher.Some? ==> op.cipher.value.Encrypted? && op.root in s.roots && Exactly(s.roots[op.root], op.cipher.value.items)
    ensures more == before + [SaveReceipt, RemoveOperation]
    ensures Disciplined(es + more, safe) && Completed(Exec(es + more, safe).value, op)
  {
    hide DidSince, Disciplined, Exec, Fits, Exactly;
    var t;
    more, t := Follow(es, before, s, SaveReceipt, safe);
    more, t := Follow(es, more, t, RemoveOperation, safe);
  }

  lemma Completes(es: seq<Event>, safe: Validator, op: Operation) returns (more: seq<Event>)
    requires Disciplined(es, safe) && Exec(es, safe).value.operation == Some(op) && Resumable(Exec(es, safe).value, op)
    requires DistinctPaths(safe)
    ensures CompletesBy(es, more, op, safe)
  {
    hide DidSince, Disciplined, Exec, Fits, DistinctPaths, Resumable, Asking, Proves, Completed, Exactly, ServiceSafe;
    IsLegal(es, safe);
    var s := Exec(es, safe).value;
    SheetProves(s, op, safe);
    var proof := Proof(s.sheets[op.scope.generation], op.envelope.identity, op.cipher);
    var l := Listing(op.scope.account, op.scope.house, s.generations, s.current);
    var t;
    more, t := Reconfirms(es, safe, op, l, proof);
    ghost var tree: Option<Tree> := None;
    if op.cipher.Some? {
      PlacesExactly(s, op, safe);
      if op.root !in t.roots {
        tree := Some(TreeOf(op.cipher.value.items));
        more, t := Follow(es, more, t, PublishRoot(tree.value), safe);
      }
    }
    more := LetsGo(es, more, safe, op, t);
    assert more == Attempt(op, l, proof, tree);
  }

  lemma PlacesExactly(s: Sys, op: Operation, safe: Validator)
    requires FilesSafe(s, safe) && s.operation == Some(op) && op.cipher.Some? && DistinctPaths(safe) && Resumable(s, op)
    ensures op.cipher.value.Encrypted?
    ensures Exactly(TreeOf(op.cipher.value.items), op.cipher.value.items) && Fits(TreeOf(op.cipher.value.items).Keys)
  {
    assert safe(op.cipher.value.items);
    TreeIsExact(op.cipher.value.items);
    ExactKeys(TreeOf(op.cipher.value.items), op.cipher.value.items);
  }

  lemma ExactKeys(t: Tree, items: seq<Item>)
    requires Exactly(t, items)
    ensures t.Keys == PathsOf(items)
  {
  }

  // What no step of an attempt changes, beginning in s.
  ghost predicate Bound(s: Sys, t: Sys, op: Operation) {
    && t.bundle == s.bundle && (t.operation == Some(op) || t.operation.None?)
    && (!ServiceReady(s, op) ==> t.current == s.current && t.gone == s.gone)
    && (!Placeable(op) ==> op.root !in t.roots)
  }

  lemma AttemptIsBound(s: Sys, t: Sys, e: Event, op: Operation, safe: Validator)
    requires Bound(s, t, op) && Safe(t, safe) && Step(t, e, safe).Some? && (e == Start || OfConfirmation(e))
    ensures Bound(s, Step(t, e, safe).value, op)
  {
    hide Fits;
    if e.PublishRoot? && t.operation == Some(op) {
      ExactKeys(e.tree, op.cipher.value.items);
    }
  }

  lemma {:induction false} AttemptStaysBound(es: seq<Event>, more: seq<Event>, op: Operation, safe: Validator, n: nat)
    requires OneConfirmation(more) && Exec(es + more, safe).Some? && n <= |more|
    requires Bound(At(es + more, safe, |es|), At(es + more, safe, |es|), op)
    ensures Bound(At(es + more, safe, |es|), At(es + more, safe, |es| + n), op)
    decreases n
  {
    hide Bound, Step;
    if n > 0 {
      var k := |es| + n - 1;
      AttemptStaysBound(es, more, op, safe, n - 1);
      StepAt(es + more, safe, k);
      PrefixLegal(es + more, safe, k);
      AlwaysSafe((es + more)[..k], safe);
      assert (es + more)[k] == more[n - 1];
      AttemptIsBound(At(es + more, safe, |es|), At(es + more, safe, k), more[n - 1], op, safe);
    }
  }

  // The bundle a confirmation of the attempt goes by was on disk when it began.
  lemma AttemptReadTheBundle(es: seq<Event>, more: seq<Event>, op: Operation, safe: Validator)
    requires OneConfirmation(more) && Disciplined(es + more, safe) && op.cipher.Some?
    requires Bound(At(es + more, safe, |es|), At(es + more, safe, |es|), op)
    ensures At(es + more, safe, |es|).bundle == op.cipher
  {
    hide Step, Fits, Placeable, ServiceReady, DidSince, Exec, Proves;
    var all := es + more;
    var j :| 1 <= j < |more| && more[j].Confirm?;
    var k := |es| + j;
    assert all[k] == more[j];
    assert AskedAt(all, safe, k);
    AttemptStaysBound(es, more, op, safe, j);
    assert At(all, safe, k).operation == Some(op);
    assert DidSince(all[..k], ReadBundle(op.cipher.value));
    var m := SinceStart(all[..k], |es|, ReadBundle(op.cipher.value));
    AttemptStaysBound(es, more, op, safe, m - |es|);
    StepAt(all, safe, m);
    ReadFromDisk(At(all, safe, m), op.cipher.value, safe);
  }

  lemma SinceStart(es: seq<Event>, i: nat, e: Event) returns (m: nat)
    requires DidSince(es, e) && i < |es| && es[i] == Start && e != Start
    ensures i < m < |es| && es[m] == e
  {
    m :| 0 <= m < |es| && es[m] == e && forall k | m < k < |es| :: es[k] != Start;
  }

  lemma ReadFromDisk(s: Sys, c: Cipher, safe: Validator)
    requires Step(s, ReadBundle(c), safe).Some?
    ensures s.bundle == Some(c)
  {
  }

  // Every crash point resumes exactly when it can: wherever a run stopped with
  // an operation on disk, one command with the sheet's phrase finishes it if and
  // only if the generation is current already, or is not gone and replaces the
  // one still current; the recorded bundle is on disk; and a directory can hold
  // its paths.
  lemma CompletesExactlyWhen(es: seq<Event>, safe: Validator, op: Operation)
    requires Disciplined(es, safe) && Exec(es, safe).value.operation == Some(op) && DistinctPaths(safe)
    ensures (exists more :: CompletesBy(es, more, op, safe)) <==> Resumable(Exec(es, safe).value, op)
  {
    hide Exec, Disciplined, OneConfirmation, IsAttempt, Fits, Exactly, DistinctPaths;
    IsLegal(es, safe);
    var s := Exec(es, safe).value;
    if Resumable(s, op) {
      var more := Completes(es, safe, op);
    }
    forall more | CompletesBy(es, more, op, safe) ensures Resumable(s, op) {
      CompletedWasResumable(es, more, op, safe);
    }
  }

  lemma CompletedWasResumable(es: seq<Event>, more: seq<Event>, op: Operation, safe: Validator)
    requires Disciplined(es, safe) && Exec(es, safe).value.operation == Some(op) && CompletesBy(es, more, op, safe)
    ensures Resumable(Exec(es, safe).value, op)
  {
    hide Exec, Disciplined, OneConfirmation, IsAttempt, Fits, Exactly;
    var all := es + more;
    assert all[..|es|] == es && all[..|es| + |more|] == all;
    AttemptIsOne(more, op);
    AttemptIsLegal(es, more, op, safe);
    BeginsBound(es, op, safe);
    AttemptStaysBound(es, more, op, safe, |more|);
    if op.cipher.Some? {
      AttemptReadTheBundle(es, more, op, safe);
    }
  }

  lemma AttemptIsLegal(es: seq<Event>, more: seq<Event>, op: Operation, safe: Validator)
    requires Disciplined(es, safe) && CompletesBy(es, more, op, safe)
    ensures Exec(es, safe).Some? && Exec(es + more, safe).Some?
    ensures (es + more)[..|es|] == es && At(es + more, safe, |es|) == Exec(es, safe).value
    ensures (es + more)[..|es| + |more|] == es + more && At(es + more, safe, |es| + |more|) == Exec(es + more, safe).value
  {
    hide DidSince, MayAsk, Completed, IsAttempt;
    assert (es + more)[..|es|] == es && (es + more)[..|es| + |more|] == es + more;
  }

  lemma BeginsBound(es: seq<Event>, op: Operation, safe: Validator)
    requires Exec(es, safe).Some? && Exec(es, safe).value.operation == Some(op)
    ensures Bound(Exec(es, safe).value, Exec(es, safe).value, op)
  {
    hide Fits;
    AlwaysSafe(es, safe);
    var s := Exec(es, safe).value;
    if op.cipher.Some? && op.root in s.roots {
      ExactKeys(s.roots[op.root], op.cipher.value.items);
    }
  }

  // ---- Cancelling ----

  // A pending sheet can be cancelled, again and again: from any run's end, one
  // command cancels and lets go exactly when the service holds the generation
  // unconfirmed, or an earlier cancellation went through without its answer.
  lemma CancelsExactlyWhen(es: seq<Event>, safe: Validator, op: Operation)
    requires Exec(es, safe).Some? && Exec(es, safe).value.operation == Some(op)
    ensures var s := Exec(es, safe).value; var id := op.scope.generation;
            Exec(es + [Start, Cancel, RemoveOperation], safe).Some? <==>
              id !in s.confirmed && (id in s.generations || id in s.cancelled)
  {
    hide Exec;
    AlwaysSafe(es, safe);
    var s := Exec(es, safe).value;
    var a, b := es + [Start], es + [Start] + [Cancel];
    assert es + [Start, Cancel, RemoveOperation] == b + [RemoveOperation];
    ExecSnoc(es, Start, safe);
    ExecSnoc(a, Cancel, safe);
    ExecSnoc(b, RemoveOperation, safe);
    PendingIsUnconfirmed(s, op, safe);
  }

  lemma PendingIsUnconfirmed(s: Sys, op: Operation, safe: Validator)
    requires Safe(s, safe) && s.operation == Some(op)
    ensures var id := op.scope.generation; MayCancel(s, op) <==> id !in s.confirmed && (id in s.generations || id in s.cancelled)
  {
  }

  // ---- Stranded ----

  // Saved here, unknown to the service, and what it would replace is past.
  predicate Stranded(s: Sys, op: Operation) {
    var id := op.scope.generation;
    && s.operation == Some(op) && id !in s.generations && id !in s.cancelled && id !in s.confirmed
    && if op.predecessor.None? then s.current.Some? else op.predecessor.value in s.gone
  }

  lemma StepStaysStranded(s: Sys, e: Event, op: Operation, safe: Validator)
    requires Safe(s, safe) && Stranded(s, op) && Step(s, e, safe).Some?
    ensures Stranded(Step(s, e, safe).value, op)
  {
    hide Fits, Exactly, FilesSafe, Ready;
  }

  // Another box that is first leaves a saved operation stranded for good: from
  // then on nothing confirms, cancels or removes it.
  lemma {:induction false} StrandedForever(es: seq<Event>, safe: Validator, op: Operation, i: nat, j: nat)
    requires Exec(es, safe).Some? && i <= j <= |es| && Stranded(At(es, safe, i), op)
    ensures Stranded(At(es, safe, j), op)
    decreases j
  {
    hide Step, Stranded, Safe;
    if i < j {
      StrandedForever(es, safe, op, i, j - 1);
      StepAt(es, safe, j - 1);
      PrefixLegal(es, safe, j - 1);
      AlwaysSafe(es[..j - 1], safe);
      StepStaysStranded(At(es, safe, j - 1), es[j - 1], op, safe);
    }
  }

  lemma NeitherWay(es: seq<Event>, safe: Validator, op: Operation)
    requires Disciplined(es, safe) && Stranded(Exec(es, safe).value, op) && DistinctPaths(safe)
    ensures !exists more :: CompletesBy(es, more, op, safe)
    ensures Exec(es + [Start, Cancel, RemoveOperation], safe).None?
  {
    hide Exec, Disciplined, CompletesBy, Placeable, DistinctPaths, FilesSafe;
    IsLegal(es, safe);
    CompletesExactlyWhen(es, safe, op);
    CancelsExactlyWhen(es, safe, op);
  }

  const FirstSetup := Operation(Scope(1, 1, 2), Sealed(7, Scope(1, 1, 2), 0), Recipient(7), None, None, "")

  const StrandedRun :=
    [SaveSheet(2, 0), SaveOperation(FirstSetup), Elsewhere(map[3 := Generation(Unreadable(0), Recipient(0), None)], Some(3), {})]

  // It happens: the operation is saved, and another box sets recovery up before
  // the service is asked.
  lemma StrandedReached(safe: Validator)
    ensures Disciplined(StrandedRun, safe) && Stranded(Exec(StrandedRun, safe).value, FirstSetup)
  {
    hide Exec, Stranded, Disciplined;
    NothingConfirmed(safe);
    NothingAsked(safe);
    DisciplinedSnoc([], StrandedRun[0], safe);
    DisciplinedSnoc([] + [StrandedRun[0]], StrandedRun[1], safe);
    DisciplinedSnoc([] + [StrandedRun[0]] + [StrandedRun[1]], StrandedRun[2], safe);
    assert StrandedRun == [] + [StrandedRun[0]] + [StrandedRun[1]] + [StrandedRun[2]];
    SetUpFirst(safe);
  }

  lemma NothingAsked(safe: Validator)
    ensures Disciplined([], safe)
  {
  }

  lemma SetUpFirst(safe: Validator)
    ensures var a := Step(Initial, StrandedRun[0], safe); a.Some? && Step(a.value, StrandedRun[1], safe).Some?
    ensures var b := Step(Step(Initial, StrandedRun[0], safe).value, StrandedRun[1], safe).value;
            Step(b, StrandedRun[2], safe).Some? && Stranded(Step(b, StrandedRun[2], safe).value, FirstSetup)
  {
  }

  // ---- Published roots ----

  ghost predicate PublishedAt(es: seq<Event>, safe: Validator, root: string, tree: Tree, k: nat)
    requires Exec(es, safe).Some? && k < |es|
  {
    && es[k] == PublishRoot(tree) && At(es, safe, k).operation.Some?
    && var op := At(es, safe, k).operation.value;
       op.root == root && op.scope.generation in At(es, safe, k).confirmed &&
       op.cipher.Some? && op.cipher.value.Encrypted? && Exactly(tree, op.cipher.value.items)
  }

  lemma RootsOnlyGrow(s: Sys, e: Event, safe: Validator)
    requires Step(s, e, safe).Some?
    ensures var t := Step(s, e, safe).value;
            && (forall r | r in s.roots :: r in t.roots && t.roots[r] == s.roots[r])
            && (forall r | r in t.roots && r !in s.roots :: e == PublishRoot(t.roots[r]) && s.operation.Some? && s.operation.value.root == r)
  {
    hide Exactly, Fits, MayPrepare, MayConfirm, MayCancel, Plausible, Ready;
  }

  lemma PublishedWas(s: Sys, tree: Tree, safe: Validator)
    requires Step(s, PublishRoot(tree), safe).Some?
    ensures s.operation.Some? && s.operation.value.cipher.Some? && s.operation.value.cipher.value.Encrypted?
    ensures s.operation.value.scope.generation in s.confirmed && Exactly(tree, s.operation.value.cipher.value.items)
  {
    hide Exactly, Fits;
  }

  // Whatever has become of its operation since, a root on disk is, file for
  // file, the bundle of a confirmed one.
  lemma {:induction false} EveryRootIsWhole(es: seq<Event>, safe: Validator, root: string)
    requires Exec(es, safe).Some? && root in Exec(es, safe).value.roots
    ensures exists k | 0 <= k < |es| :: PublishedAt(es, safe, root, Exec(es, safe).value.roots[root], k)
    decreases |es|
  {
    hide Step, Exactly;
    if es == [] {
      NothingConfirmed(safe);
      assert false;
    }
    var n := |es| - 1;
    var tree := Exec(es, safe).value.roots[root];
    assert es[..|es|] == es;
    StepAt(es, safe, n);
    RootsOnlyGrow(At(es, safe, n), es[n], safe);
    if root in At(es, safe, n).roots {
      EveryRootIsWhole(es[..n], safe, root);
      var k :| 0 <= k < n && PublishedAt(es[..n], safe, root, tree, k);
      assert es[..n][..k] == es[..k];
      assert PublishedAt(es, safe, root, tree, k);
    } else {
      PublishedWas(At(es, safe, n), tree, safe);
      assert PublishedAt(es, safe, root, tree, n);
    }
  }
}
