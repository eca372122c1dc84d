// cmd/doorman/recovery.go: prepare, confirm and cancel, one durable write or
// one request at a time. Every path leaves a disciplined run behind, so
// RecoverySafety and RecoveryRuns speak of it.
module RecoveryCommand {
  import opened Basics
  import opened RecoveryProtocol
  import opened RecoverySafety
  import opened RecoveryRuns

  datatype Error =
    | ErrState | ErrService | ErrOtherHouse | ErrHasMaterial | ErrOtherRoot | ErrRootExists | ErrNothing
    | ErrEnvelope | ErrScope | ErrUnsafe | ErrVerify

  // validateRecoveryItems for a box whose private state is in `state`.
  function Validates(state: string): Validator {
    items => SafeItems(items, state)
  }

  lemma ValidatesDistinctPaths(state: string)
    ensures DistinctPaths(Validates(state))
  {
  }

  // It lets through what no directory can hold: an item below another, and the
  // directory itself.
  lemma ValidatesWhatCannotBePlaced(state: string)
    ensures var nested := [Item("/a", [], 0), Item("/a/b", [], 0)]; Validates(state)(nested) && !Fits(PathsOf(nested))
    ensures Validates(state)([Item("/", [], 0)]) && !Fits(PathsOf([Item("/", [], 0)]))
  {
    hide SafePath, Fits;
    ShortPathIsSafe("/a", state);
    ShortPathIsSafe("/a/b", state);
    ShortPathIsSafe("/", state);
    var nested, whole := [Item("/a", [], 0), Item("/a/b", [], 0)], [Item("/", [], 0)];
    assert nested[0].path in PathsOf(nested) && nested[1].path in PathsOf(nested);
    assert whole[0].path in PathsOf(whole);
    CannotHold(PathsOf(nested), "/a", "/a/b");
    CannotHoldItself(PathsOf(whole));
  }

  lemma CannotHold(paths: set<string>, p: string, q: string)
    requires p in paths && q in paths && p + "/" <= q
    ensures !Fits(paths)
  {
  }

  lemma CannotHoldItself(paths: set<string>)
    requires "/" in paths
    ensures !Fits(paths)
  {
  }

  lemma ShortPathIsSafe(p: string, state: string)
    requires p == "/" || p == "/a" || p == "/a/b"
    ensures SafePath(p, state)
  {
    NotWithin(p, "//");
    NotWithin(p, "/./");
    NotWithin(p, "/../");
    NotWithin(p, "/account/");
    NotAtEnd(p, "/.");
    NotAtEnd(p, "/..");
    NotAtEnd(p, "/");
    NotAtEnd(p, "/backup/identity.key");
  }

  // Nothing in so short a path is a slash followed by one of these.
  lemma NotWithin(p: string, t: string)
    requires p == "/" || p == "/a" || p == "/a/b"
    requires t == "//" || t == "/./" || t == "/../" || t == "/account/"
    ensures !Contains(p, t)
  {
    forall i: nat ensures !OccursAt(p, t, i) {
      if i + |t| <= |p| {
        assert p[i..i + |t|][0] == p[i] && p[i..i + |t|][1] == p[i + 1];
      }
    }
  }

  lemma NotAtEnd(p: string, t: string)
    requires p == "/" || p == "/a" || p == "/a/b"
    requires t == "/." || t == "/.." || t == "/backup/identity.key" || t == "/"
    ensures p == "/" || !EndsWith(p, t)
    ensures t != "/" ==> !EndsWith(p, t)
  {
    if EndsWith(p, t) {
      assert p[|p| - |t|..][|t| - 1] == p[|p| - 1];
    }
  }

  class Station {
    const state: string
    const safe: Validator
    var sys: Sys
    ghost var trace: seq<Event>
    // How often a write failed, or a request was refused or left unanswered.
    ghost var faults: nat

    constructor (state: string)
      ensures Valid() && trace == [] && faults == 0 && safe == Validates(state)
    {
      this.state := state;
      this.safe := Validates(state);
      sys := Initial;
      trace, faults := [], 0;
    }

    ghost predicate Valid()
      reads this
    {
      Disciplined(trace, safe) && Exec(trace, safe) == Some(sys)
    }

    // What a confirmation may go by, here and now.
    ghost predicate May(proof: Proof)
      reads this
    {
      sys.operation.Some? && MayAsk(trace, sys.operation.value, proof, safe)
    }

    method Do(e: Event)
      requires Valid() && Step(sys, e, safe).Some? && (e.Confirm? ==> May(e.proof))
      modifies this`sys, this`trace
      ensures Valid() && trace == old(trace) + [e] && sys == Step(old(sys), e, safe).value
    {
      hide Step, MayAsk, Disciplined;
      DisciplinedSnoc(trace, e, safe);
      sys := Step(sys, e, safe).value;
      trace := trace + [e];
    }

    // A command begins.
    method Begin()
      requires Valid()
      modifies this`sys, this`trace
      ensures Valid() && sys == old(sys) && trace == old(trace) + [Start]
    {
      Do(Start);
    }

    // A durable write or removal that can fail before it or after it.
    method Persist(e: Event) returns (ok: bool)
      requires Valid() && Step(sys, e, safe).Some? && !e.Confirm? && e != Start
      modifies this
      ensures Valid() && old(trace) <= trace
      ensures ok ==> sys == Step(old(sys), e, safe).value
      ensures sys == old(sys) || sys == Step(old(sys), e, safe).value
      ensures faults == old(faults) + if ok then 0 else 1
    {
      var written: bool := Any();
      ok := Any();
      if written {
        Do(e);
      } else {
        ok := false;
      }
      faults := faults + if ok then 0 else 1;
    }

    // Other boxes of the house, the service, and whatever befalls the
    // ciphertext on disk, while this one waits.
    method Meanwhile()
      requires Valid()
      modifies this`sys, this`trace
      ensures Valid() && old(trace) <= trace && OnlyElsewhere(old(sys), sys)
      ensures forall e | DidSince(old(trace), e) :: DidSince(trace, e)
    {
      hide DidSince, Step, Disciplined;
      var generations: map<nat, Generation> := Any();
      var current: Option<nat> := Any();
      var gone: set<nat> := Any();
      if Plausible(sys, generations, current, gone) {
        ElsewhereIs(sys, Elsewhere(generations, current, gone), safe);
        forall e ensures DidSince(trace, e) ==> DidSince(trace + [Elsewhere(generations, current, gone)], e) {
          DidSinceSnoc(trace, Elsewhere(generations, current, gone), e);
        }
        Do(Elsewhere(generations, current, gone));
      }
      var spoilt: bool := Any();
      if spoilt {
        var bundle: Option<Cipher> := Any();
        ElsewhereIs(sys, Spoil(bundle), safe);
        forall e ensures DidSince(trace, e) ==> DidSince(trace + [Spoil(bundle)], e) {
          DidSinceSnoc(trace, Spoil(bundle), e);
        }
        Do(Spoil(bundle));
      }
    }

    // Asking for a change: it may be refused, made, or made without an answer.
    // What a confirmation goes by is the asker's to establish; the service
    // decides by its own state alone.
    method Request(e: Event) returns (ok: bool, ghost mid: Sys)
      requires Valid() && (e.Prepare? || e.Confirm? || e.Cancel?) && (e.Confirm? ==> May(e.proof))
      modifies this
      ensures Valid() && old(trace) <= trace && OnlyElsewhere(old(sys), mid)
      ensures ok ==> Step(mid, e, safe) == Some(sys)
      ensures SameHere(old(sys), sys) && (e.Confirm? || sys.confirmed == old(sys).confirmed)
      ensures forall f | DidSince(old(trace), f) :: DidSince(trace, f)
      ensures faults == old(faults) + if ok then 0 else 1
    {
      hide DidSince, Step, Disciplined, Proves;
      Meanwhile();
      mid := sys;
      var made: bool := Any();
      ok := Any();
      if made && Step(sys, e, safe).Some? {
        RequestIsRemote(sys, e, safe);
        forall f ensures DidSince(trace, f) ==> DidSince(trace + [e], f) { DidSinceSnoc(trace, e, f); }
        Do(e);
      } else {
        ok := false;
      }
      faults := faults + if ok then 0 else 1;
    }

    method Status() returns (listing: Option<Listing>)
      requires Valid()
      modifies this
      ensures Valid() && old(trace) <= trace && OnlyElsewhere(old(sys), sys)
      ensures listing.Some? ==> listing.value.generations == sys.generations && listing.value.current == sys.current
      ensures listing.Some? ==> |old(trace)| < |trace| && trace[|trace| - 1] == Listed(listing.value)
      ensures forall e | DidSince(old(trace), e) :: DidSince(trace, e)
      ensures faults == old(faults) + if listing.None? then 1 else 0
    {
      hide DidSince;
      Meanwhile();
      var answered: bool := Any();
      faults := faults + if answered then 0 else 1;
      var account: nat := Any();
      var house: nat := Any();
      listing := None;
      if answered {
        var reply := Listing(account, house, sys.generations, sys.current);
        forall e ensures DidSince(trace, e) ==> DidSince(trace + [Listed(reply)], e) { DidSinceSnoc(trace, Listed(reply), e); }
        Do(Listed(reply));
        listing := Some(reply);
      }
    }

    // RecoveryMaterial: some envelope, or none.
    method Fetch() returns (material: Option<Envelope>)
      requires Valid()
      modifies this
      ensures Valid() && old(trace) <= trace && OnlyElsewhere(old(sys), sys)
      ensures material.Some? ==> DidSince(trace, Fetched(material.value))
      ensures material.Some? ==> |old(trace)| < |trace| && trace[|trace| - 1] == Fetched(material.value)
      ensures forall e | DidSince(old(trace), e) :: DidSince(trace, e)
      ensures faults == old(faults) + if material.None? then 1 else 0
    {
      hide DidSince;
      Meanwhile();
      var answered: bool := Any();
      faults := faults + if answered then 0 else 1;
      material := None;
      if answered {
        var envelope: Envelope := Any();
        forall e ensures DidSince(trace, e) ==> DidSince(trace + [Fetched(envelope)], e) { DidSinceSnoc(trace, Fetched(envelope), e); }
        DidSinceSnoc(trace, Fetched(envelope), Fetched(envelope));
        Do(Fetched(envelope));
        material := Some(envelope);
      }
    }

    // RecoveryDownload: some ciphertext, or none.
    method Download() returns (cipher: Option<Cipher>)
      requires Valid()
      modifies this
      ensures Valid() && old(trace) <= trace && OnlyElsewhere(old(sys), sys)
      ensures faults == old(faults) + if cipher.None? then 1 else 0
    {
      Meanwhile();
      cipher := Any();
      faults := faults + if cipher.None? then 1 else 0;
    }

    // Whatever extraction leaves in the temporary directory, if it gets so far.
    method Extract(items: seq<Item>) returns (tree: Option<Tree>)
      modifies this`faults
      ensures tree.Some? ==> Fits(tree.value.Keys)
      ensures faults == old(faults) + if tree.Some? && Exactly(tree.value, items) then 0 else 1
    {
      tree := Any();
      if tree.Some? && !Fits(tree.value.Keys) {
        tree := None;
      }
      faults := faults + if tree.Some? && Exactly(tree.value, items) then 0 else 1;
    }

    // A UUID nobody has used.
    method NewId() returns (id: nat)
      ensures id !in sys.sheets && id !in sys.generations && id !in sys.gone && id !in sys.confirmed && sys.current != Some(id)
    {
      var taken := sys.sheets.Keys + sys.generations.Keys + sys.gone + sys.confirmed + if sys.current.Some? then {sys.current.value} else {};
      id := Any();
      ghost var left := taken;
      while id in taken
        invariant left <= taken && forall t | t in taken && t >= id :: t in left
        decreases left
      {
        left := left - {id};
        id := id + 1;
      }
    }

    // The ciphertext as it is on disk now.
    method ReadCiphertext() returns (cipher: Option<Cipher>)
      requires Valid()
      modifies this`sys, this`trace
      ensures Valid() && old(trace) <= trace && sys == old(sys) && cipher == sys.bundle
      ensures cipher.Some? ==> DidSince(trace, ReadBundle(cipher.value))
      ensures forall e | DidSince(old(trace), e) :: DidSince(trace, e)
    {
      hide DidSince;
      cipher := sys.bundle;
      if cipher.Some? {
        forall e ensures DidSince(trace, e) ==> DidSince(trace + [ReadBundle(cipher.value)], e) {
          DidSinceSnoc(trace, ReadBundle(cipher.value), e);
        }
        DidSinceSnoc(trace, ReadBundle(cipher.value), ReadBundle(cipher.value));
        Do(ReadBundle(cipher.value));
      }
    }
  }

  // What this box itself keeps, which nobody else changes but the ciphertext.
  ghost predicate SameHere(s: Sys, t: Sys) {
    && t.sheets == s.sheets && t.operation == s.operation && t.roots == s.roots && t.receipt == s.receipt
  }

  ghost predicate OnlyElsewhere(s: Sys, t: Sys) {
    && SameHere(s, t) && t.confirmed == s.confirmed && t.cancelled == s.cancelled
    && (forall id | id in t.generations && id in s.sheets :: id in s.generations && t.generations[id] == s.generations[id])
    && (forall id | id in s.sheets && id in t.gone :: id in s.gone || s.current == Some(id))
    && (t.current.Some? && t.current.value in s.sheets ==> t.current == s.current)
  }

  lemma ElsewhereIs(s: Sys, e: Event, safe: Validator)
    requires e.Spoil? || (e.Elsewhere? && Plausible(s, e.generations, e.current, e.gone))
    ensures Step(s, e, safe).Some? && OnlyElsewhere(s, Step(s, e, safe).value)
    ensures forall r | OnlyElsewhere(r, s) :: OnlyElsewhere(r, Step(s, e, safe).value)
  {
  }

  lemma RequestIsRemote(s: Sys, e: Event, safe: Validator)
    requires (e.Prepare? || e.Confirm? || e.Cancel?) && Step(s, e, safe).Some?
    ensures SameHere(s, Step(s, e, safe).value) && (e.Confirm? || Step(s, e, safe).value.confirmed == s.confirmed)
  {
  }

  // The service holds the operation's generation with this very envelope.
  ghost predicate Held(s: Sys, op: Operation) {
    op.scope.generation in s.generations && s.generations[op.scope.generation].envelope == op.envelope
  }

  // It is in a stretch of a run.
  ghost predicate Had(trace: seq<Event>, from: nat, e: Event) {
    exists k | from <= k < |trace| :: trace[k] == e
  }

  lemma HadLonger(trace: seq<Event>, more: seq<Event>, from: nat, e: Event)
    requires Had(trace, from, e) && trace <= more
    ensures Had(more, from, e)
  {
    var k :| from <= k < |trace| && trace[k] == e;
    assert more[k] == e;
  }

  predicate OtherHouse(l: Listing, op: Operation) { l.account != op.scope.account || l.house != op.scope.house }

  predicate IsCurrent(l: Listing, op: Operation) {
    l.current == Some(op.scope.generation) && op.scope.generation in l.generations && l.generations[op.scope.generation].envelope == op.envelope
  }

  // `listing` is what the service listed, if it did.
  method EnsurePrepared(st: Station, op: Operation) returns (err: Option<Error>, ghost listing: Option<Listing>)
    requires st.Valid() && st.sys.operation == Some(op)
    modifies st
    ensures st.Valid() && old(st.trace) <= st.trace && SameHere(old(st.sys), st.sys)
    ensures err.None? ==> Held(st.sys, op)
    ensures if listing.Some? then Had(st.trace, |old(st.trace)|, Listed(listing.value)) else err == Some(ErrService)
    ensures err == Some(ErrOtherHouse) <==> listing.Some? && (listing.value.account != op.scope.account || listing.value.house != op.scope.house)
    // Another account or house is never asked to prepare anything, and a
    // generation that is current already not again.
    ensures listing.Some? && (err == Some(ErrOtherHouse) || IsCurrent(listing.value, op)) ==>
              |st.trace| > |old(st.trace)| && st.trace[|st.trace| - 1] == Listed(listing.value) && OnlyElsewhere(old(st.sys), st.sys)
    // Any other error is the service's.
    ensures err.None? || err.value.ErrOtherHouse? || err.value.ErrService?
    ensures st.faults == old(st.faults) + if err == Some(ErrService) then 1 else 0
  {
    hide DidSince, Disciplined, MayAsk, Proves, Ready;
    var reply := st.Status();
    listing := reply;
    if reply.None? {
      return Some(ErrService), listing;
    }
    ghost var replied := st.trace;
    assert replied[|replied| - 1] == Listed(reply.value);
    err := EnsureListed(st, op, reply.value);
    HadLonger(replied, st.trace, |old(st.trace)|, Listed(reply.value));
  }

  method EnsureListed(st: Station, op: Operation, listing: Listing) returns (err: Option<Error>)
    requires st.Valid() && st.sys.operation == Some(op)
    requires listing.generations == st.sys.generations && listing.current == st.sys.current
    modifies st
    ensures st.Valid() && old(st.trace) <= st.trace && SameHere(old(st.sys), st.sys)
    ensures err.None? ==> Held(st.sys, op)
    ensures err == Some(ErrOtherHouse) <==> OtherHouse(listing, op)
    ensures err == Some(ErrOtherHouse) || IsCurrent(listing, op) ==> st.trace == old(st.trace) && st.sys == old(st.sys)
    ensures err.None? || err.value.ErrOtherHouse? || err.value.ErrService?
    ensures st.faults == old(st.faults) + if err == Some(ErrService) then 1 else 0
  {
    hide DidSince, Disciplined, MayAsk, Proves, Ready;
    if OtherHouse(listing, op) {
      return Some(ErrOtherHouse);
    }
    if IsCurrent(listing, op) {
      return None;
    }
    var ok, mid := st.Request(Prepare);
    return if ok then None else Some(ErrService);
  }

  // The envelope is sealed for the operation's own scope.
  predicate Envelopes(op: Operation) { op.envelope.Sealed? && op.envelope.scope == op.scope }

  // No request changes the service until the sheet, the ciphertext and the
  // operation are durable.
  method PrepareOperation(st: Station, identity: nat, predecessor: Option<nat>, cipher: Option<Cipher>, root: string)
    returns (op: Option<Operation>, err: Option<Error>, ghost listing: Option<Listing>)
    requires st.Valid()
    requires st.sys.operation.None? && cipher.Some? ==>
               cipher.value.Encrypted? && cipher.value.identity == identity && st.safe(cipher.value.items) && root !in st.sys.roots
    modifies st
    ensures st.Valid() && old(st.trace) <= st.trace && old(st.faults) <= st.faults
    ensures err.None? ==> op.Some? && st.sys.operation == op && Held(st.sys, op.value)
    ensures err.None? && old(st.sys).operation.None? ==>
              && op.value.cipher == cipher && op.value.root == root && op.value.predecessor == predecessor
              && op.value.envelope.Sealed? && op.value.envelope.identity == identity && op.value.recipient == Recipient(identity)
    // A new operation is for the account and house of a reply to this command.
    ensures listing.Some? ==> Had(st.trace, |old(st.trace)|, Listed(listing.value))
    ensures old(st.sys).operation.None? && st.sys.operation.Some? ==>
              && listing.Some? && var scope := st.sys.operation.value.scope;
              scope.account == listing.value.account && scope.house == listing.value.house && Envelopes(st.sys.operation.value)
    // One is refused exactly where the reply lists material it does not replace;
    // any other error is a failure, or the saved one is for another house.
    ensures err == Some(ErrHasMaterial) <==>
              old(st.sys).operation.None? && predecessor.None? && listing.Some? && listing.value.generations != map[]
    ensures err.Some? ==> err.value.ErrHasMaterial? || err.value.ErrOtherHouse? || err.value.ErrService? || err.value.ErrState?
    ensures err.Some? && (err.value.ErrService? || err.value.ErrState?) ==> st.faults > old(st.faults)
    // A saved operation is resumed, never replaced.
    ensures old(st.sys).operation.Some? ==> op == st.sys.operation == old(st.sys).operation && SameHere(old(st.sys), st.sys)
  {
    hide DidSince, Disciplined, Held;
    if st.sys.operation.Some? {
      op := st.sys.operation;
      err, listing := EnsurePrepared(st, op.value);
      return;
    }
    var reply := st.Status();
    listing := reply;
    if reply.None? {
      return None, Some(ErrService), listing;
    }
    ghost var replied := st.trace;
    assert replied[|replied| - 1] == Listed(reply.value);
    if predecessor.None? && reply.value.generations != map[] {
      return None, Some(ErrHasMaterial), listing;
    }
    var phrase: Phrase := Any();
    var id := st.NewId();
    var scope := Scope(reply.value.account, reply.value.house, id);
    var made := Operation(scope, Sealed(identity, scope, phrase), Recipient(identity), predecessor, cipher, root);
    var durable := MakeDurable(st, made);
    HadLonger(replied, st.trace, |old(st.trace)|, Listed(reply.value));
    if !durable {
      return None, Some(ErrState), listing;
    }
    ghost var stored, listed := st.trace, None;
    err, listed := EnsurePrepared(st, made);
    HadLonger(stored, st.trace, |old(st.trace)|, Listed(reply.value));
    return Some(made), err, listing;
  }

  // The sheet, then the ciphertext, then the operation that names them.
  method MakeDurable(st: Station, op: Operation) returns (ok: bool)
    requires st.Valid() && st.sys.operation.None? && op.envelope.Sealed? && op.envelope.scope == op.scope
    requires op.recipient == Recipient(op.envelope.identity)
    requires var id := op.scope.generation;
             id !in st.sys.sheets && id !in st.sys.generations && id !in st.sys.gone && id !in st.sys.confirmed && st.sys.current != Some(id)
    requires op.cipher.Some? ==>
               op.cipher.value.Encrypted? && op.cipher.value.identity == op.envelope.identity && st.safe(op.cipher.value.items) &&
               op.root !in st.sys.roots
    modifies st
    ensures st.Valid() && old(st.trace) <= st.trace
    ensures ok ==> st.sys.operation == Some(op)
    ensures st.sys.operation.None? || st.sys.operation == Some(op)
    ensures st.faults == old(st.faults) + if ok then 0 else 1
  {
    hide DidSince, Disciplined;
    ok := st.Persist(SaveSheet(op.scope.generation, op.envelope.phrase));
    if ok && op.cipher.Some? {
      ok := st.Persist(SaveBundle(op.cipher.value));
    }
    if ok {
      ok := st.Persist(SaveOperation(op));
    }
  }

  // The new operation replaces the generation a reply listed as current, whose
  // envelope the phrase opened, with the identity that generation and the new
  // bundle are for.
  ghost predicate ReopensListed(l: Listing, op: Operation, phrase: Phrase, safe: Validator) {
    && l.current.Some? && l.current.value in l.generations && op.predecessor == l.current && op.envelope.Sealed?
    && var g := l.generations[l.current.value];
       && OpenEnvelope(g.envelope, Scope(l.account, l.house, l.current.value), phrase) == Some(op.envelope.identity)
       && g.recipient == op.recipient
       && op.cipher.Some? && OpenBundle(op.cipher.value, op.envelope.identity).Some?
       && safe(OpenBundle(op.cipher.value, op.envelope.identity).value)
  }

  // What a restore goes by: the first reply, the envelope fetched and the
  // ciphertext downloaded, as far as it got.
  datatype Seen = Seen(listing: Option<Listing>, material: Option<Envelope>, cipher: Option<Cipher>)

  // The phrase opens the current generation's envelope, for its recipient, and
  // the identity in it opens the ciphertext, whose items are safe.
  predicate Restorable(seen: Seen, phrase: Phrase, safe: Validator) {
    && seen.listing.Some? && seen.material.Some? && seen.cipher.Some?
    && var l := seen.listing.value;
       && l.current.Some? && l.current.value in l.generations
       && var g := l.generations[l.current.value];
          var identity := OpenEnvelope(g.envelope, Scope(l.account, l.house, l.current.value), phrase);
          && seen.material.value == g.envelope && identity.Some? && Recipient(identity.value) == g.recipient
          && OpenBundle(seen.cipher.value, identity.value).Some? && safe(OpenBundle(seen.cipher.value, identity.value).value)
  }

  // What has been seen so far is no ground for a restore: no generation is
  // current, or what was fetched does not open as it should.
  predicate Unfit(seen: Seen, phrase: Phrase, safe: Validator) {
    && seen.listing.Some?
    && var l := seen.listing.value;
       if l.current.None? || l.current.value !in l.generations then true
       else
         var g := l.generations[l.current.value];
         var identity := OpenEnvelope(g.envelope, Scope(l.account, l.house, l.current.value), phrase);
         && seen.material.Some?
         && (|| seen.material.value != g.envelope || identity.None? || Recipient(identity.value) != g.recipient
             || (seen.cipher.Some? && OpenBundle(seen.cipher.value, identity.value).None?)
             || (seen.cipher.Some? && !safe(OpenBundle(seen.cipher.value, identity.value).value)))
  }

  // `listing` is the reply a new operation is scoped by.
  method PrepareCloudRestore(st: Station, root: string, phrase: Phrase)
    returns (op: Option<Operation>, err: Option<Error>, ghost seen: Seen, ghost listing: Option<Listing>)
    requires st.Valid()
    modifies st
    ensures st.Valid() && old(st.trace) <= st.trace && old(st.faults) <= st.faults
    ensures err.None? ==> op.Some? && st.sys.operation == op && Held(st.sys, op.value) && op.value.cipher.Some? && op.value.root == root
    ensures seen.listing.Some? ==> Had(st.trace, |old(st.trace)|, Listed(seen.listing.value))
    ensures listing.Some? ==> Had(st.trace, |old(st.trace)|, Listed(listing.value))
    ensures err.None? && old(st.sys).operation.None? ==>
              && Restorable(seen, phrase, st.safe) && ReopensListed(seen.listing.value, op.value, phrase, st.safe)
              && listing.Some? && op.value.scope.account == listing.value.account && op.value.scope.house == listing.value.house
    ensures old(st.sys).operation.Some? ==> st.sys.operation == old(st.sys).operation
    // A saved operation is for this root or is refused, and a root already there
    // is refused; any other error is a failure, or comes of what it was given.
    ensures err == Some(ErrOtherRoot) <==>
              old(st.sys).operation.Some? && (old(st.sys).operation.value.cipher.None? || old(st.sys).operation.value.root != root)
    ensures err == Some(ErrRootExists) <==> old(st.sys).operation.None? && root in old(st.sys).roots
    ensures err.Some? && !err.value.ErrOtherRoot? && !err.value.ErrRootExists? && !err.value.ErrOtherHouse? ==>
              st.faults > old(st.faults) || (old(st.sys).operation.None? && Unfit(seen, phrase, st.safe))
  {
    hide DidSince, Disciplined;
    seen, listing := Seen(None, None, None), None;
    if st.sys.operation.Some? {
      op := st.sys.operation;
      if op.value.cipher.None? || op.value.root != root {
        return None, Some(ErrOtherRoot), seen, listing;
      }
      err, listing := EnsurePrepared(st, op.value);
      return;
    }
    if root in st.sys.roots {
      return None, Some(ErrRootExists), seen, listing;
    }
    var reply := st.Status();
    seen := Seen(reply, None, None);
    if reply.None? {
      return None, Some(ErrService), seen, listing;
    }
    ghost var replied := st.trace;
    assert replied[|replied| - 1] == Listed(reply.value);
    if reply.value.current.None? || reply.value.current.value !in reply.value.generations {
      return None, Some(ErrNothing), seen, listing;
    }
    var id := reply.value.current.value;
    var current := reply.value.generations[id];
    var material := st.Fetch();
    seen := Seen(reply, material, None);
    HadLonger(replied, st.trace, |old(st.trace)|, Listed(reply.value));
    if material.None? || material.value != current.envelope {
      return None, Some(ErrService), seen, listing;
    }
    var identity := OpenEnvelope(material.value, Scope(reply.value.account, reply.value.house, id), phrase);
    if identity.None? {
      return None, Some(ErrEnvelope), seen, listing;
    }
    if Recipient(identity.value) != current.recipient {
      return None, Some(ErrScope), seen, listing;
    }
    var cipher := st.Download();
    seen := Seen(reply, material, cipher);
    HadLonger(replied, st.trace, |old(st.trace)|, Listed(reply.value));
    if cipher.None? {
      return None, Some(ErrService), seen, listing;
    }
    var items := OpenBundle(cipher.value, identity.value);
    if items.None? {
      return None, Some(ErrEnvelope), seen, listing;
    }
    if !st.safe(items.value) {
      return None, Some(ErrUnsafe), seen, listing;
    }
    ghost var fetched := st.trace;
    op, err, listing := PrepareOperation(st, identity.value, Some(id), cipher, root);
    HadLonger(fetched, st.trace, |old(st.trace)|, Listed(reply.value));
    if listing.Some? {
      HadSooner(st.trace, |old(st.trace)|, |fetched|, Listed(listing.value));
    }
  }

  lemma HadSooner(trace: seq<Event>, from: nat, later: nat, e: Event)
    requires Had(trace, later, e) && from <= later
    ensures Had(trace, from, e)
  {
  }

  lemma ExactlyMeans(tree: Tree, items: seq<Item>)
    ensures Exactly(tree, items) <==>
              && (forall p :: p in tree <==> exists i :: 0 <= i < |items| && items[i].path == p)
              && (forall i | 0 <= i < |items| ::
                    && tree[items[i].path].content == items[i].content
                    && tree[items[i].path].mode == if items[i].mode == 0 then 384 else items[i].mode % 512)
  {
    if Exactly(tree, items) {
      forall p ensures p in tree <==> exists i :: 0 <= i < |items| && items[i].path == p {
        assert p in tree <==> p in PathsOf(items);
      }
    } else if forall p :: p in tree <==> exists i :: 0 <= i < |items| && items[i].path == p {
      assert tree.Keys == PathsOf(items);
    }
  }

  method VerifyFiles(items: seq<Item>, tree: Tree) returns (ok: bool)
    ensures ok <==> Exactly(tree, items)
    // Every file has its item's content and permission bits, 0600 when the item
    // names none, and there is no other.
    ensures ok <==> (forall p :: p in tree <==> exists i :: 0 <= i < |items| && items[i].path == p) &&
                    (forall i | 0 <= i < |items| ::
                       && tree[items[i].path].content == items[i].content
                       && tree[items[i].path].mode == if items[i].mode == 0 then 384 else items[i].mode % 512)
  {
    ExactlyMeans(tree, items);
    var expected: set<string> := {};
    for i := 0 to |items|
      invariant expected == set k | 0 <= k < i :: items[k].path
      invariant forall k | 0 <= k < i :: items[k].path in tree && tree[items[k].path] == FileOf(items[k])
    {
      var it := items[i];
      if it.path !in tree || tree[it.path] != FileOf(it) {
        return false;
      }
      expected := expected + {it.path};
    }
    var left := tree.Keys;
    while left != {}
      invariant left <= tree.Keys && tree.Keys - left <= expected
      decreases left
    {
      var p :| p in left;
      if p !in expected {
        return false;
      }
      left := left - {p};
    }
    return true;
  }

  // A root appears whole, by one rename of a verified tree; a root already
  // there is verified and never written.
  method StageRecovery(st: Station, items: seq<Item>, root: string) returns (err: Option<Error>)
    requires st.Valid() && st.sys.operation.Some? && st.sys.operation.value.root == root
    requires st.sys.operation.value.cipher.Some? && st.sys.operation.value.cipher.value.Encrypted? &&
             st.sys.operation.value.cipher.value.items == items
    requires st.sys.operation.value.scope.generation in st.sys.confirmed
    modifies st
    ensures st.Valid() && old(st.trace) <= st.trace
    ensures st.sys == old(st.sys).(roots := st.sys.roots)
    ensures forall r | r in old(st.sys).roots :: r in st.sys.roots && st.sys.roots[r] == old(st.sys).roots[r]
    ensures root in st.sys.roots && root !in old(st.sys).roots ==> Exactly(st.sys.roots[root], items)
    ensures err.None? ==> root in st.sys.roots && Exactly(st.sys.roots[root], items)
    // What no directory can hold is never staged; what can be is, unless it is
    // extracted wrongly or a write fails.
    ensures err.None? ==> Fits(PathsOf(items))
    ensures err.None? <==> st.faults == old(st.faults)
    ensures old(st.faults) <= st.faults
  {
    hide DidSince, Disciplined, Exactly;
    AlwaysSafe(st.trace, st.safe);
    if root in st.sys.roots {
      var same := VerifyFiles(items, st.sys.roots[root]);
      if same {
        ExactKeys(st.sys.roots[root], items);
      }
      return if same then None else Some(ErrVerify);
    }
    var temporary := st.Extract(items);
    if temporary.None? {
      return Some(ErrState);
    }
    var whole := VerifyFiles(items, temporary.value);
    if !whole {
      return Some(ErrVerify);
    }
    ExactKeys(temporary.value, items);
    var ok := st.Persist(PublishRoot(temporary.value));
    return if ok then None else Some(ErrState);
  }

  // The checks of confirmRecoveryOperation, in its order, on what this command
  // fetched and read. They pass exactly when the service sent the operation's own
  // envelope, the phrase is its sheet's and the bundle on disk is the recorded one.
  method OpenOperation(st: Station, op: Operation, phrase: Phrase) returns (proof: Result<Proof, Error>, ghost material: Option<Envelope>)
    requires st.Valid() && st.sys.operation == Some(op)
    modifies st
    ensures st.Valid() && old(st.trace) <= st.trace && SameHere(old(st.sys), st.sys)
    ensures proof.Ok? ==> proof.value.phrase == phrase && st.May(proof.value)
    ensures material.Some? ==> Had(st.trace, |old(st.trace)|, Fetched(material.value))
    ensures op.scope.generation in st.sys.sheets
    ensures proof.Ok? <==>
              && material == Some(op.envelope) && phrase == st.sys.sheets[op.scope.generation]
              && (op.cipher.Some? ==> st.sys.bundle == op.cipher)
    ensures st.faults == old(st.faults) + if material.None? then 1 else 0
  {
    hide DidSince, Disciplined;
    AlwaysSafe(st.trace, st.safe);
    var fetched := st.Fetch();
    material := fetched;
    if fetched.None? {
      return Err(ErrService), material;
    }
    ghost var replied := st.trace;
    assert replied[|replied| - 1] == Fetched(fetched.value);
    if fetched.value != op.envelope {
      return Err(ErrEnvelope), material;
    }
    var key := OpenEnvelope(fetched.value, op.scope, phrase);
    if key.None? {
      return Err(ErrEnvelope), material;
    }
    if Recipient(key.value) != op.recipient {
      return Err(ErrScope), material;
    }
    if op.cipher.None? {
      return Ok(Proof(phrase, key.value, None)), material;
    }
    var cipher := st.ReadCiphertext();
    HadLonger(replied, st.trace, |old(st.trace)|, Fetched(fetched.value));
    if cipher.None? {
      return Err(ErrState), material;
    }
    if cipher != op.cipher {
      return Err(ErrEnvelope), material;
    }
    var items := OpenBundle(cipher.value, key.value);
    if items.None? {
      return Err(ErrEnvelope), material;
    }
    if !st.safe(items.value) {
      return Err(ErrUnsafe), material;
    }
    return Ok(Proof(phrase, key.value, cipher)), material;
  }

  // `tried` is what the command listed and fetched, and the bundle it read.
  method ConfirmOperation(st: Station, phrase: Phrase) returns (res: Result<nat, Error>, ghost tried: Seen)
    requires st.Valid()
    modifies st
    ensures st.Valid() && old(st.trace) <= st.trace && old(st.faults) <= st.faults
    ensures res.Ok? ==>
              && old(st.sys).operation.Some? && st.sys.operation.None?
              && var op := old(st.sys).operation.value; var id := op.scope.generation;
                 && id in st.sys.confirmed && st.sys.receipt == Some(id) && id in st.sys.sheets && st.sys.sheets[id] == phrase
                 // Success publishes the bundle's items exactly.
                 && (op.cipher.Some? ==> op.cipher.value.Encrypted? && res.value == |op.cipher.value.items| &&
                                         op.root in st.sys.roots && Exactly(st.sys.roots[op.root], op.cipher.value.items))
    // It fails for want of an operation; for a failure on the way; or for another
    // house, another envelope or phrase, or another bundle than the operation's.
    ensures old(st.sys).operation.None? ==> res == Err(ErrNothing) && st.trace == old(st.trace)
    ensures res.Err? && old(st.sys).operation.Some? ==>
              || st.faults > old(st.faults)
              || var op := old(st.sys).operation.value;
                 || (tried.listing.Some? && OtherHouse(tried.listing.value, op))
                 || (tried.material.Some? && tried.material.value != op.envelope)
                 || op.scope.generation !in old(st.sys).sheets || phrase != old(st.sys).sheets[op.scope.generation]
                 || (op.cipher.Some? && tried.cipher != op.cipher)
    ensures res.Ok? ==> tried.listing.Some? && tried.material == Some(old(st.sys).operation.value.envelope)
    // For another house nothing is asked, and nothing is put in place.
    ensures old(st.sys).operation.Some? && tried.listing.Some? && OtherHouse(tried.listing.value, old(st.sys).operation.value) ==>
              res == Err(ErrOtherHouse) && SameHere(old(st.sys), st.sys) && st.sys.confirmed == old(st.sys).confirmed
    ensures tried.listing.Some? ==> Had(st.trace, |old(st.trace)|, Listed(tried.listing.value))
    ensures tried.material.Some? ==> Had(st.trace, |old(st.trace)|, Fetched(tried.material.value))
  {
    hide DidSince, Disciplined, Exactly, Fits, Had, Held, MayAsk, Step;
    tried := Seen(None, None, None);
    if st.sys.operation.None? {
      return Err(ErrNothing), tried;
    }
    st.Begin();
    var op := st.sys.operation.value;
    ghost var listed, fetched;
    var failed;
    failed, listed := EnsurePrepared(st, op);
    tried := Seen(listed, None, None);
    ghost var prepared := st.trace;
    if listed.Some? {
      HadSooner(prepared, |old(st.trace)|, |old(st.trace)| + 1, Listed(listed.value));
    }
    if failed.Some? {
      return Err(failed.value), tried;
    }
    var proof;
    proof, fetched := OpenOperation(st, op, phrase);
    tried := Seen(listed, fetched, st.sys.bundle);
    ghost var checked := st.trace;
    if fetched.Some? {
      HadSooner(checked, |old(st.trace)|, |prepared|, Fetched(fetched.value));
    }
    if listed.Some? {
      HadLonger(prepared, checked, |old(st.trace)|, Listed(listed.value));
    }
    if proof.Err? {
      return Err(proof.error), tried;
    }
    res := AskAndFinish(st, op, proof.value);
    TriedLonger(checked, st.trace, |old(st.trace)|, tried);
  }

  // Everything is checked: the service is asked, and then what it has confirmed
  // is put in place.
  method AskAndFinish(st: Station, op: Operation, proof: Proof) returns (res: Result<nat, Error>)
    requires st.Valid() && st.sys.operation == Some(op) && st.May(proof)
    modifies st
    ensures st.Valid() && old(st.trace) <= st.trace && st.sys.sheets == old(st.sys).sheets
    ensures old(st.faults) <= st.faults && (res.Err? ==> st.faults > old(st.faults))
    ensures res.Ok? ==>
              && st.sys.operation.None? && op.scope.generation in st.sys.confirmed && st.sys.receipt == Some(op.scope.generation)
              && (op.cipher.Some? ==> op.cipher.value.Encrypted? && res.value == |op.cipher.value.items| &&
                                      op.root in st.sys.roots && Exactly(st.sys.roots[op.root], op.cipher.value.items))
  {
    hide DidSince, Disciplined, Exactly, Fits;
    var ok, mid := st.Request(Confirm(proof));
    if !ok {
      return Err(ErrService);
    }
    PromotedIsConfirmed(mid, proof, st.safe);
    var items := if op.cipher.Some? then OpenBundle(op.cipher.value, proof.identity).value else [];
    var failed := FinishConfirmed(st, op, items);
    return if failed.None? then Ok(|items|) else Err(failed.value);
  }

  lemma TriedLonger(trace: seq<Event>, more: seq<Event>, from: nat, tried: Seen)
    requires trace <= more
    requires tried.listing.Some? ==> Had(trace, from, Listed(tried.listing.value))
    requires tried.material.Some? ==> Had(trace, from, Fetched(tried.material.value))
    ensures tried.listing.Some? ==> Had(more, from, Listed(tried.listing.value))
    ensures tried.material.Some? ==> Had(more, from, Fetched(tried.material.value))
  {
    if tried.listing.Some? {
      HadLonger(trace, more, from, Listed(tried.listing.value));
    }
    if tried.material.Some? {
      HadLonger(trace, more, from, Fetched(tried.material.value));
    }
  }

  lemma PromotedIsConfirmed(s: Sys, proof: Proof, safe: Validator)
    requires s.operation.Some? && Step(s, Confirm(proof), safe).Some?
    ensures s.operation.value.scope.generation in Step(s, Confirm(proof), safe).value.confirmed
  {
  }

  // After the service has switched: stage, leave a receipt, then let go.
  method FinishConfirmed(st: Station, op: Operation, items: seq<Item>) returns (err: Option<Error>)
    requires st.Valid() && st.sys.operation == Some(op) && op.scope.generation in st.sys.confirmed
    requires op.cipher.Some? ==> op.cipher.value.Encrypted? && op.cipher.value.items == items
    modifies st
    ensures st.Valid() && old(st.trace) <= st.trace
    ensures st.sys.sheets == old(st.sys).sheets && st.sys.confirmed == old(st.sys).confirmed
    ensures err.None? ==> st.sys.operation.None? && st.sys.receipt == Some(op.scope.generation)
    ensures err.None? && op.cipher.Some? ==> op.root in st.sys.roots && Exactly(st.sys.roots[op.root], items)
    ensures old(st.faults) <= st.faults && (err.Some? ==> st.faults > old(st.faults))
  {
    hide DidSince, Disciplined, Exactly, Fits;
    if op.cipher.Some? {
      err := StageRecovery(st, items, op.root);
      if err.Some? {
        return;
      }
    }
    var ok := st.Persist(SaveReceipt);
    if !ok {
      return Some(ErrState);
    }
    err := LetGo(st, op);
  }

  // Remove the operation, then the ciphertext if that works too.
  method LetGo(st: Station, op: Operation) returns (err: Option<Error>)
    requires st.Valid() && st.sys.operation == Some(op)
    requires op.scope.generation in st.sys.cancelled || st.sys.receipt == Some(op.scope.generation)
    modifies st
    ensures st.Valid() && old(st.trace) <= st.trace
    ensures st.sys.sheets == old(st.sys).sheets && st.sys.confirmed == old(st.sys).confirmed && st.sys.roots == old(st.sys).roots &&
            st.sys.receipt == old(st.sys).receipt && st.sys.cancelled == old(st.sys).cancelled
    ensures err.None? ==> st.sys.operation.None?
    ensures old(st.faults) <= st.faults && (err.Some? ==> err == Some(ErrState) && st.faults > old(st.faults))
  {
    hide DidSince, Disciplined;
    st.Meanwhile();
    var ok := st.Persist(RemoveOperation);
    if !ok {
      return Some(ErrState);
    }
    var gone := st.Persist(RemoveBundle);
    return None;
  }

  method CancelOperation(st: Station) returns (err: Option<Error>)
    requires st.Valid()
    modifies st
    ensures st.Valid() && old(st.trace) <= st.trace
    ensures st.sys.confirmed == old(st.sys).confirmed
    // A cancelled sheet is gone from the service for good before it is gone here.
    ensures err.None? ==> old(st.sys).operation.Some? && st.sys.operation.None? &&
                          var id := old(st.sys).operation.value.scope.generation;
                          id in st.sys.cancelled && id !in st.sys.generations && st.sys.current != Some(id)
    ensures err == Some(ErrNothing) <==> old(st.sys).operation.None?
    ensures err.Some? && err != Some(ErrNothing) ==> st.faults > old(st.faults)
  {
    hide DidSince, Disciplined;
    if st.sys.operation.None? {
      return Some(ErrNothing);
    }
    st.Begin();
    var op := st.sys.operation.value;
    var ok, mid := st.Request(Cancel);
    if !ok {
      return Some(ErrService);
    }
    err := LetGo(st, op);
    AlwaysSafe(st.trace, st.safe);
  }
}
