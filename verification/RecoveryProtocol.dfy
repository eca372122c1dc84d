// The printed-sheet recovery operation: what the box has made durable, what the
// service holds, and the steps between which the box can stop.
module RecoveryProtocol {
  import opened Basics

  type Phrase = nat

  datatype Scope = Scope(account: nat, house: nat, generation: nat)

  // An envelope opens for one phrase and one scope; a bundle for one identity.
  datatype Envelope = Sealed(identity: nat, scope: Scope, phrase: Phrase) | Unreadable(raw: nat)

  datatype Item = Item(path: string, content: Bytes, mode: nat)

  datatype Cipher = Encrypted(items: seq<Item>, identity: nat) | Noise(raw: nat)

  // The public half of an identity names it.
  datatype Recipient = Recipient(of: nat)

  function OpenEnvelope(e: Envelope, scope: Scope, phrase: Phrase): Option<nat> {
    if e.Sealed? && e.scope == scope && e.phrase == phrase then Some(e.identity) else None
  }

  function OpenBundle(c: Cipher, identity: nat): Option<seq<Item>> {
    if c.Encrypted? && c.identity == identity then Some(c.items) else None
  }

  // ---- Items ----

  predicate OccursAt(s: string, t: string, i: nat) { i + |t| <= |s| && s[i..i + |t|] == t }

  predicate Contains(s: string, t: string) {
    exists i | 0 <= i <= |s| :: OccursAt(s, t, i)
  }

  predicate EndsWith(s: string, t: string) { |s| >= |t| && s[|s| - |t|..] == t }

  // An absolute path that filepath.Clean leaves as it is.
  predicate CleanAbsolute(p: string) {
    p == "/" || ("/" <= p && !EndsWith(p, "/") && !Contains(p, "//") && !Contains(p, "/./") && !EndsWith(p, "/.") &&
                 !Contains(p, "/../") && !EndsWith(p, "/.."))
  }

  predicate SafePath(p: string, state: string) {
    CleanAbsolute(p) && !Contains(p, "/account/") && !EndsWith(p, "/backup/identity.key") && !(state + "/account/" <= p)
  }

  predicate SafeItems(items: seq<Item>, state: string) {
    && (forall i | 0 <= i < |items| :: SafePath(items[i].path, state))
    && (forall i, j | 0 <= i < j < |items| :: items[i].path != items[j].path)
  }

  // Permission bits, and the default for an item that names none.
  datatype File = File(content: Bytes, mode: nat)

  type Tree = map<string, File>

  function FileOf(it: Item): File { File(it.content, (if it.mode == 0 then 0x180 else it.mode) % 0x200) }

  function PathsOf(items: seq<Item>): set<string> { set i | 0 <= i < |items| :: items[i].path }

  predicate Exactly(t: Tree, items: seq<Item>) {
    && t.Keys == PathsOf(items)
    && (forall i | 0 <= i < |items| :: items[i].path in t && t[items[i].path] == FileOf(items[i]))
  }

  // Files a directory can hold: none is the directory itself, and none lies
  // below another.
  predicate Fits(paths: set<string>) {
    "/" !in paths && forall p, q | p in paths && q in paths :: !(p + "/" <= q)
  }

  // ---- State ----

  // The rule a bundle's items must pass before anything is confirmed.
  type Validator = seq<Item> -> bool

  // A bundle is recorded with the digest of its ciphertext, and no two
  // ciphertexts share one.
  datatype Operation = Operation(scope: Scope, envelope: Envelope, recipient: Recipient, predecessor: Option<nat>,
                                 cipher: Option<Cipher>, root: string)

  datatype Generation = Generation(envelope: Envelope, recipient: Recipient, predecessor: Option<nat>)

  // What a status reply lists: the pending generations and the current one.
  datatype Listing = Listing(account: nat, house: nat, generations: map<nat, Generation>, current: Option<nat>)

  // What a confirmation goes by: the phrase entered, the identity it opened, and
  // the ciphertext that identity opened.
  datatype Proof = Proof(phrase: Phrase, identity: nat, cipher: Option<Cipher>)

  datatype Sys = Sys(
    sheets: map<nat, Phrase>,
    bundle: Option<Cipher>,
    operation: Option<Operation>,
    receipt: Option<nat>,
    roots: map<string, Tree>,
    // The service: what it lists, which generation is current, which are retired
    // or cancelled for good, and which of those this box cancelled.
    generations: map<nat, Generation>,
    current: Option<nat>,
    gone: set<nat>,
    cancelled: set<nat>,
    // Every generation a confirmation of this box made current.
    confirmed: set<nat>)

  datatype Event =
    // A command begins, with nothing in its memory.
    | Start
    | SaveSheet(generation: nat, phrase: Phrase)
    | SaveBundle(cipher: Cipher)
    | SaveOperation(op: Operation)
    | Listed(listing: Listing)
    // The envelope a reply carries, whatever it is, and the ciphertext on disk.
    | Fetched(envelope: Envelope)
    | ReadBundle(cipher: Cipher)
    | Prepare
    | Confirm(proof: Proof)
    | Cancel
    | PublishRoot(tree: Tree)
    | SaveReceipt
    | RemoveOperation
    | RemoveBundle
    // The ciphertext file is lost or altered.
    | Spoil(bundle: Option<Cipher>)
    // Whatever other boxes of the house and the service itself do.
    | Elsewhere(generations: map<nat, Generation>, current: Option<nat>, gone: set<nat>)

  const Initial := Sys(map[], None, None, None, map[], map[], None, {}, {}, {})

  function GenerationOf(op: Operation): Generation { Generation(op.envelope, op.recipient, op.predecessor) }

  // ---- What the box checks by itself ----

  // The sheet printed for an operation opens its envelope, and the bundle it
  // records opens with the same identity and holds only safe paths.
  predicate Ready(s: Sys, op: Operation, safe: Validator) {
    && op.scope.generation in s.sheets
    && op.envelope.Sealed? && op.envelope.scope == op.scope && op.envelope.phrase == s.sheets[op.scope.generation]
    && op.recipient == Recipient(op.envelope.identity)
    && (op.cipher.Some? ==> op.cipher.value.Encrypted? && op.cipher.value.identity == op.envelope.identity && safe(op.cipher.value.items))
  }

  // The phrase opens the operation's envelope, for its recipient, and what it
  // opens opens the recorded bundle, which is safe.
  predicate Proves(op: Operation, proof: Proof, safe: Validator) {
    && OpenEnvelope(op.envelope, op.scope, proof.phrase) == Some(proof.identity)
    && Recipient(proof.identity) == op.recipient
    && proof.cipher == op.cipher
    && (op.cipher.Some? ==> OpenBundle(op.cipher.value, proof.identity).Some? && safe(OpenBundle(op.cipher.value, proof.identity).value))
  }

  // A command did something since it began.
  ghost predicate DidSince(es: seq<Event>, e: Event) {
    exists m | 0 <= m < |es| :: es[m] == e && forall k | m < k < |es| :: es[k] != Start
  }

  // A confirmation may be asked for only by a command that fetched the recorded
  // envelope and read the recorded ciphertext, and whose phrase opened both. The
  // service cannot tell: it never sees a phrase.
  ghost predicate MayAsk(es: seq<Event>, op: Operation, proof: Proof, safe: Validator) {
    && DidSince(es, Fetched(op.envelope))
    && (op.cipher.Some? ==> DidSince(es, ReadBundle(op.cipher.value)))
    && Proves(op, proof, safe)
  }

  // ---- The transition function: the service's guards are the service's own ----

  // A transition names the exact generation it replaces.
  predicate MayPrepare(s: Sys, op: Operation) {
    var id := op.scope.generation;
    s.current == op.predecessor && s.current != Some(id) && id !in s.gone && (id in s.generations ==> s.generations[id] == GenerationOf(op))
  }

  predicate MayConfirm(s: Sys, op: Operation) {
    var id := op.scope.generation;
    && id in s.generations && s.generations[id].envelope == op.envelope
    && (s.current == Some(id) || s.current == s.generations[id].predecessor)
  }

  // Only a pending generation, or one cancelled before.
  predicate MayCancel(s: Sys, op: Operation) {
    var id := op.scope.generation;
    (id in s.generations && s.current != Some(id)) || id in s.cancelled
  }

  function Promoted(s: Sys, id: nat): Sys {
    if s.current == Some(id) then s.(confirmed := s.confirmed + {id})
    else
      var retired := if s.current.Some? then {s.current.value} else {};
      s.(current := Some(id), confirmed := s.confirmed + {id}, generations := s.generations - retired, gone := s.gone + retired)
  }

  // Nobody else prepares, rewrites, confirms or cancels a generation of this
  // box; replacing its current one retires it, and what is gone stays gone.
  predicate Plausible(s: Sys, generations: map<nat, Generation>, current: Option<nat>, gone: set<nat>) {
    && s.gone <= gone && (forall id | id in generations :: id !in gone)
    && (forall id | id in s.sheets && id in generations :: id in s.generations && generations[id] == s.generations[id])
    && (forall id | id in s.sheets && id in s.generations && s.current != Some(id) :: id in generations)
    && (forall id | id in s.sheets && id in gone :: id in s.gone || s.current == Some(id))
    && (current.Some? ==> current.value in generations)
    && (current != s.current ==> (current.Some? && current.value !in s.sheets && (s.current.Some? ==> s.current.value in gone)))
  }

  function Step(s: Sys, e: Event, safe: Validator): Option<Sys> {
    match e
    case Start => Some(s)
    case SaveSheet(generation, phrase) =>
      if generation !in s.sheets && generation !in s.generations && generation !in s.gone && s.current != Some(generation)
      then Some(s.(sheets := s.sheets[generation := phrase])) else None
    case SaveBundle(cipher) => if s.operation.None? then Some(s.(bundle := Some(cipher))) else None
    case SaveOperation(op) =>
      if s.operation.None? && Ready(s, op, safe) && op.scope.generation !in s.generations && op.scope.generation !in s.gone &&
         op.scope.generation !in s.confirmed && (op.cipher.Some? ==> s.bundle == op.cipher && op.root !in s.roots)
      then Some(s.(operation := Some(op))) else None
    case Listed(listing) => if listing.generations == s.generations && listing.current == s.current then Some(s) else None
    case Fetched(_) => Some(s)
    case ReadBundle(cipher) => if s.bundle == Some(cipher) then Some(s) else None
    case Prepare =>
      if s.operation.Some? && MayPrepare(s, s.operation.value)
      then Some(s.(generations := s.generations[s.operation.value.scope.generation := GenerationOf(s.operation.value)])) else None
    case Confirm(_) =>
      if s.operation.Some? && MayConfirm(s, s.operation.value) then Some(Promoted(s, s.operation.value.scope.generation)) else None
    case Cancel =>
      if s.operation.Some? && MayCancel(s, s.operation.value)
      then
        var id := s.operation.value.scope.generation;
        Some(s.(generations := s.generations - {id}, gone := s.gone + {id}, cancelled := s.cancelled + {id}))
      else None
    case PublishRoot(tree) =>
      if s.operation.Some? && s.operation.value.cipher.Some? && s.operation.value.cipher.value.Encrypted? &&
         s.operation.value.scope.generation in s.confirmed && s.operation.value.root !in s.roots &&
         Exactly(tree, s.operation.value.cipher.value.items) && Fits(tree.Keys)
      then Some(s.(roots := s.roots[s.operation.value.root := tree])) else None
    case SaveReceipt =>
      if s.operation.Some? && s.operation.value.scope.generation in s.confirmed
      then Some(s.(receipt := Some(s.operation.value.scope.generation))) else None
    case RemoveOperation =>
      // Only an operation known to be over, one way or the other.
      if s.operation.Some? && (s.operation.value.scope.generation in s.cancelled || s.receipt == Some(s.operation.value.scope.generation))
      then Some(s.(operation := None)) else None
    case RemoveBundle => if s.operation.None? then Some(s.(bundle := None)) else None
    case Spoil(bundle) => Some(s.(bundle := bundle))
    case Elsewhere(generations, current, gone) =>
      if Plausible(s, generations, current, gone) then Some(s.(generations := generations, current := current, gone := gone)) else None
  }

  function Exec(es: seq<Event>, safe: Validator): Option<Sys> {
    if es == [] then Some(Initial)
    else
      var before := Exec(es[..|es| - 1], safe);
      if before.None? then None else Step(before.value, es[|es| - 1], safe)
  }

  lemma ExecSnoc(es: seq<Event>, e: Event, safe: Validator)
    ensures Exec(es + [e], safe) == if Exec(es, safe).None? then None else Step(Exec(es, safe).value, e, safe)
  {
    assert (es + [e])[..|es|] == es;
  }

  lemma {:induction false} PrefixLegal(es: seq<Event>, safe: Validator, n: nat)
    requires Exec(es, safe).Some? && n <= |es|
    ensures Exec(es[..n], safe).Some?
    decreases |es|
  {
    if n == |es| {
      assert es[..n] == es;
    } else {
      PrefixLegal(es[..|es| - 1], safe, n);
      assert es[..|es| - 1][..n] == es[..n];
    }
  }

  function At(es: seq<Event>, safe: Validator, i: nat): Sys
    requires Exec(es, safe).Some? && i <= |es|
  {
    PrefixLegal(es, safe, i);
    Exec(es[..i], safe).value
  }

  lemma StepAt(es: seq<Event>, safe: Validator, i: nat)
    requires Exec(es, safe).Some? && i < |es|
    ensures Step(At(es, safe, i), es[i], safe) == Some(At(es, safe, i + 1))
  {
    PrefixLegal(es, safe, i);
    PrefixLegal(es, safe, i + 1);
    assert es[..i + 1] == es[..i] + [es[i]];
    ExecSnoc(es[..i], es[i], safe);
  }

  // A run in which this box asks only for confirmations it may ask for. The
  // transition function does not see to that: the commands must.
  ghost predicate Disciplined(es: seq<Event>, safe: Validator) {
    Exec(es, safe).Some? && forall k | 0 <= k < |es| && es[k].Confirm? :: AskedAt(es, safe, k)
  }

  ghost predicate AskedAt(es: seq<Event>, safe: Validator, k: nat)
    requires Exec(es, safe).Some? && k < |es| && es[k].Confirm?
  {
    At(es, safe, k).operation.Some? && MayAsk(es[..k], At(es, safe, k).operation.value, es[k].proof, safe)
  }

  lemma DisciplinedSnoc(es: seq<Event>, e: Event, safe: Validator)
    requires Disciplined(es, safe) && Step(Exec(es, safe).value, e, safe).Some?
    requires e.Confirm? ==> Exec(es, safe).value.operation.Some? && MayAsk(es, Exec(es, safe).value.operation.value, e.proof, safe)
    ensures Disciplined(es + [e], safe) && Exec(es + [e], safe) == Step(Exec(es, safe).value, e, safe)
  {
    hide Step, MayAsk;
    ExecSnoc(es, e, safe);
    var more := es + [e];
    forall k | 0 <= k < |more| && more[k].Confirm? ensures AskedAt(more, safe, k) {
      assert more[..k] == es[..k];
      if k < |es| {
        assert AskedAt(es, safe, k);
      } else {
        assert es[..k] == es;
      }
    }
  }

  lemma DidSinceSnoc(es: seq<Event>, e: Event, f: Event)
    requires e != Start
    ensures DidSince(es, f) ==> DidSince(es + [e], f)
    ensures DidSince(es + [e], e)
  {
    var more := es + [e];
    if DidSince(es, f) {
      var m :| 0 <= m < |es| && es[m] == f && forall k | m < k < |es| :: es[k] != Start;
      assert more[m] == f && forall k | m < k < |more| :: more[k] != Start;
    }
    assert more[|es|] == e;
  }
}

// What every run of the recovery operation keeps.
module RecoverySafety {
  import opened Basics
  import opened RecoveryProtocol

  // A generation this box made is one it printed a sheet for.
  ghost predicate ServiceSafe(s: Sys) {
    // What the service holds of this box was durable first: its sheet opens it.
    && (forall id | id in s.generations && id in s.sheets ::
          s.generations[id].envelope.Sealed? && s.generations[id].envelope.phrase == s.sheets[id])
    // A pending one still has its operation on disk.
    && (forall id | id in s.generations && id in s.sheets && s.current != Some(id) ::
          s.operation.Some? && s.operation.value.scope.generation == id)
    && (s.operation.Some? && s.operation.value.scope.generation in s.generations ==>
          s.generations[s.operation.value.scope.generation] == GenerationOf(s.operation.value))
    && (s.operation.Some? ==> s.operation.value.scope.generation in s.sheets)
    // A current one was made so by a confirmation, and is current until retired.
    && (s.current.Some? ==> s.current.value in s.generations)
    && (s.current.Some? && s.current.value in s.sheets ==> s.current.value in s.confirmed)
    && (forall id | id in s.confirmed :: id in s.sheets && (s.current == Some(id) || id in s.gone))
    && (forall id | id in s.gone :: id !in s.generations)
    && (forall id | id in s.cancelled :: id in s.gone && id !in s.confirmed)
    && (s.receipt.Some? ==> s.receipt.value in s.confirmed)
  }

  ghost predicate FilesSafe(s: Sys, safe: Validator) {
    // The operation on disk comes with its sheet and a bundle found safe.
    && (s.operation.Some? ==> Ready(s, s.operation.value, safe))
    // A published root is whole: it holds exactly the items of its bundle.
    && (s.operation.Some? && s.operation.value.cipher.Some? && s.operation.value.root in s.roots ==>
          Exactly(s.roots[s.operation.value.root], s.operation.value.cipher.value.items))
    && (forall r | r in s.roots :: Fits(s.roots[r].Keys))
  }

  ghost predicate Safe(s: Sys, safe: Validator) { ServiceSafe(s) && FilesSafe(s, safe) }

  lemma StepKeepsFiles(s: Sys, e: Event, safe: Validator)
    requires FilesSafe(s, safe) && Step(s, e, safe).Some?
    ensures FilesSafe(Step(s, e, safe).value, safe)
  {
    hide Fits, Exactly, MayPrepare, MayConfirm, MayCancel, Plausible;
  }

  lemma PrepareKeepsService(s: Sys, safe: Validator)
    requires ServiceSafe(s) && FilesSafe(s, safe) && Step(s, Prepare, safe).Some?
    ensures ServiceSafe(Step(s, Prepare, safe).value)
  {
  }

  lemma ConfirmKeepsService(s: Sys, proof: Proof, safe: Validator)
    requires ServiceSafe(s) && Step(s, Confirm(proof), safe).Some?
    ensures ServiceSafe(Step(s, Confirm(proof), safe).value)
  {
  }

  lemma CancelKeepsService(s: Sys, safe: Validator)
    requires ServiceSafe(s) && Step(s, Cancel, safe).Some?
    ensures ServiceSafe(Step(s, Cancel, safe).value)
  {
  }

  lemma ElsewhereKeepsService(s: Sys, e: Event, safe: Validator)
    requires e.Elsewhere? && ServiceSafe(s) && Step(s, e, safe).Some?
    ensures ServiceSafe(Step(s, e, safe).value)
  {
  }

  predicate OfService(e: Event) { e.Prepare? || e.Confirm? || e.Cancel? || e.Elsewhere? }

  lemma LocalKeepsService(s: Sys, e: Event, safe: Validator)
    requires !OfService(e) && ServiceSafe(s) && FilesSafe(s, safe) && Step(s, e, safe).Some?
    ensures ServiceSafe(Step(s, e, safe).value)
  {
    hide Fits, Exactly, MayPrepare, MayConfirm, MayCancel, Plausible;
  }

  lemma StepKeepsSafe(s: Sys, e: Event, safe: Validator)
    requires Safe(s, safe) && Step(s, e, safe).Some?
    ensures Safe(Step(s, e, safe).value, safe)
  {
    hide Step, ServiceSafe, FilesSafe;
    StepKeepsFiles(s, e, safe);
    match e {
      case Prepare => PrepareKeepsService(s, safe);
      case Confirm(proof) => ConfirmKeepsService(s, proof, safe);
      case Cancel => CancelKeepsService(s, safe);
      case Elsewhere(_, _, _) => ElsewhereKeepsService(s, e, safe);
      case _ => LocalKeepsService(s, e, safe);
    }
  }

  lemma {:induction false} AlwaysSafe(es: seq<Event>, safe: Validator)
    requires Exec(es, safe).Some?
    ensures Safe(Exec(es, safe).value, safe)
    decreases |es|
  {
    hide Step, ServiceSafe, FilesSafe;
    if es != [] {
      AlwaysSafe(es[..|es| - 1], safe);
      StepKeepsSafe(Exec(es[..|es| - 1], safe).value, es[|es| - 1], safe);
    } else {
      InitialIsSafe(safe);
    }
  }

  lemma InitialIsSafe(safe: Validator)
    ensures Safe(Initial, safe)
  {
  }
}
