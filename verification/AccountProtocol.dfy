// The account protocol of internal/account as a transition system: the durable
// state directory, the lock, what each process remembers of a credential it
// selected, and the requests that have left the box. Every event is one step
// that can be separated from the next by a crash or by another process.
module AccountProtocol {
  import opened Basics

  type Pid = nat

  // The largest bundle, in bytes.
  const LIMIT := 200000000

  datatype Capability = Sync | Backup

  // The capability is part of a token's shape, so a token can be well formed
  // for one capability only.
  datatype Token = Token(cap: Capability, secret: nat)

  // An absent pending successor is the empty string of the source.
  datatype Credential = Credential(current: Token, pending: Option<Token>)

  // A user code commits to the transport key it was derived from.
  datatype UserCode = UserCode(key: nat, salt: nat)

  datatype Device = Device(code: nat, userCode: UserCode, expiresAt: int, interval: int)

  datatype PendingUpload = PendingUpload(id: Option<nat>, hash: Digest, bytes: nat, createdAt: int, expiresAt: int)

  datatype Scope = Scope(box: Option<nat>, expiresAt: int)

  datatype Grant = Grant(secret: nat, userCode: Option<UserCode>, requestExpiresAt: int, scope: Scope)

  datatype Account = Account(
    box: Option<nat>,
    needsLogin: bool,
    removed: bool,
    tokens: map<Capability, Credential>,
    transportKey: Option<nat>,
    device: Option<Device>,
    upload: Option<PendingUpload>,
    recovery: Option<Grant>)

  // ---- Requests and replies ----

  datatype Request =
    | Plain | Rotation | Reservation | Completion(id: nat)
    | GrantStart | GrantPoll | GrantUse | DeviceStart | DevicePoll

  datatype Code = NoCode | RemovedCode | NotUploaded | SizeMismatch | OtherCode

  datatype Bundle = Bundle(id: nat, bytes: nat, createdAt: int, receivedAt: int)

  // The part of a reply's body a request reads; anything else is malformed.
  datatype Body =
    | Malformed
    | TokenBody(token: Token)
    | ReservationBody(id: nat, maxBytes: nat, contentLength: nat, writeOnce: bool, urlOk: bool, expiresAt: int)
    | BundleBody(bundle: Bundle)
    | DeviceBody(device: Device, saltOk: bool, expiresIn: int)
    | EnrolledBody(box: nat, sync: Token, backup: Token)
    | CodeBody(userCode: UserCode, codeExpiresAt: int)
    | ScopeBody(scope: Scope)

  datatype Response = Lost | Response(status: int, code: Code, retryAfter: int, body: Body)

  predicate Removal(r: Response) { r.Response? && r.status == 401 && r.code.RemovedCode? }

  predicate Success(r: Response) { r.Response? && 200 <= r.status < 300 }

  // The service has discarded a reservation it is asked to complete.
  predicate Voids(r: Response) { r.Response? && (r.status == 410 || r.status == 404 || (r.status == 409 && r.code.SizeMismatch?)) }

  datatype Answer = Waiting | Accepted | Unauthorized | BoxRemoved | Void | Refused

  function Classify(request: Request, r: Response): Answer
    requires r.Response?
  {
    if Removal(r) then BoxRemoved
    else if r.status == 401 then Unauthorized
    else if Success(r) then Accepted
    else if request.Completion? && Voids(r) then Void
    else Refused
  }

  // What an answer is taken for: a removal only with the code that says so, any
  // other 401 as a refusal of the credential.
  lemma ClassifyMeans(request: Request, r: Response)
    requires r.Response?
    ensures var a := Classify(request, r);
            && (a == BoxRemoved <==> r.status == 401 && r.code == RemovedCode)
            && (a == Unauthorized <==> r.status == 401 && r.code != RemovedCode)
            && (a == Accepted <==> 200 <= r.status <= 299)
            && (a == Void <==> request.Completion? && (r.status == 404 || r.status == 410 || (r.status == 409 && r.code == SizeMismatch)))
            && a != Waiting
  {
  }

  // What a request is made with.
  datatype Authority = Bearer(cap: Capability, used: Credential) | ByGrant | ByNobody

  // A process's latest request, and what it was told. `locked` says the lock
  // has been held without a break since it was made.
  datatype Flight = Flight(box: Option<nat>, authority: Authority, request: Request, locked: bool, answer: Answer, reply: Response)

  datatype Sys = Sys(
    account: Account,
    ciphertext: Option<Bytes>,
    holder: Option<Pid>,
    flights: map<Pid, Flight>,
    // Every token this box has ever stored.
    stored: set<Token>,
    // The service's side of uploads: what each reservation was declared as,
    // every PUT that was sent, and the object stored by the first to arrive.
    declared: map<nat, Digest>,
    puts: set<(nat, Bytes)>,
    objects: map<nat, Bytes>)

  datatype Event =
    | Acquire(p: Pid)
    | Release(p: Pid)
    | Crash(p: Pid)
    | Select(p: Pid, cap: Capability, token: Token, request: Request)
    | UseGrant(p: Pid)
    | Ask(p: Pid, request: Request)
    | Reply(p: Pid, reply: Response)
    | Settle(p: Pid)
    | StorePending(p: Pid, token: Token)
    | LoginKey(p: Pid, key: nat)
    | LoginDevice(p: Pid, device: Device, now: int)
    | LoginInterval(p: Pid, interval: int)
    | LoginExpired(p: Pid)
    | LoginDone(p: Pid, box: nat, sync: Token, backup: Token)
    | WriteFile(p: Pid, data: Bytes)
    | RemoveFile(p: Pid)
    | RecordUpload(p: Pid, createdAt: int)
    | Reserve(p: Pid, id: nat, expiresAt: int, now: int)
    | SendPut(p: Pid, data: Bytes)
    | PutArrives(id: nat, data: Bytes)
    | Discard(p: Pid)
    | Completed(p: Pid)
    | SaveGrant(p: Pid, grant: Option<Grant>, now: int)

  const NoAccount := Account(None, false, false, map[], None, None, None, None)

  const Initial := Sys(NoAccount, None, None, map[], {}, map[], {}, map[])

  // ---- What the code reads and writes ----

  function Selected(c: Credential): Token {
    if c.pending.Some? then c.pending.value else c.current
  }

  predicate ValidToken(t: Token, cap: Capability) { t.cap == cap }

  predicate Selectable(a: Account, cap: Capability) {
    !a.removed && !a.needsLogin && cap in a.tokens && ValidToken(Selected(a.tokens[cap]), cap)
  }

  predicate MayEnrol(a: Account) { a.box.None? || a.needsLogin }

  predicate SignedIn(a: Account) { !a.removed && !a.needsLogin && a.box.Some? }

  // Approved for another box than this one.
  predicate Strange(g: Option<Grant>, box: Option<nat>) {
    g.Some? && g.value.scope.box.Some? && g.value.scope.box != box
  }

  predicate Foreign(a: Account) { Strange(a.recovery, a.box) }

  function MarkRemoved(a: Account): Account {
    a.(removed := true, needsLogin := true, tokens := map[], upload := None, recovery := None)
  }

  // Compare-and-set settlement of an answered request against whatever the
  // store holds by then.
  function Settled(a: Account, f: Flight): Account {
    match f.answer
    case BoxRemoved => if !f.authority.ByNobody? && a.box == f.box && !a.removed then MarkRemoved(a) else a
    case Unauthorized =>
      if f.authority.Bearer? && f.authority.cap in a.tokens && a.tokens[f.authority.cap] == f.authority.used
      then a.(needsLogin := true) else a
    case Accepted =>
      if f.authority.Bearer? && f.authority.used.pending.Some? &&
         f.authority.cap in a.tokens && a.tokens[f.authority.cap] == f.authority.used
      then a.(tokens := a.tokens[f.authority.cap := Credential(f.authority.used.pending.value, None)]) else a
    case _ => a
  }

  // ---- The transition function ----

  predicate Holds(s: Sys, p: Pid) { s.holder == Some(p) }

  predicate Told(s: Sys, p: Pid, answer: Answer) { p in s.flights && s.flights[p].answer == answer }

  // The process was accepted under the lock it still holds.
  predicate AcceptedUnderLock(s: Sys, p: Pid, cap: Capability) {
    Told(s, p, Accepted) && s.flights[p].locked && s.flights[p].authority.Bearer? && s.flights[p].authority.cap == cap
  }

  // It holds the reply to this request, with this status.
  predicate Replied(s: Sys, p: Pid, request: Request, status: int) {
    p in s.flights && s.flights[p].locked && s.flights[p].request == request && s.flights[p].reply.Response? && s.flights[p].reply.status == status
  }

  // The service never answers with a token this box has stored before, or with
  // a reservation it made before, and completes only what is stored with the
  // declared size.
  predicate Honest(s: Sys, request: Request, r: Response) {
    match request
    case Reservation => Success(r) && r.body.ReservationBody? ==> r.body.id !in s.declared
    case Completion(id) =>
      r.Response? && r.status == 200 ==> id in s.objects && id in s.declared && |s.objects[id]| == |s.declared[id].of|
    case Rotation => Success(r) && r.body.TokenBody? ==> r.body.token !in s.stored
    case DevicePoll => Success(r) && r.body.EnrolledBody? ==> r.body.sync !in s.stored && r.body.backup !in s.stored
    case _ => true
  }

  // What the box takes as a reservation, a ceremony and a completed bundle.
  predicate Reserves(u: PendingUpload, b: Body, now: int) {
    && b.ReservationBody? && b.maxBytes >= u.bytes && b.contentLength == u.bytes && b.writeOnce && b.urlOk
    && now < b.expiresAt <= now + 16 * MINUTE
  }

  predicate Starts(key: nat, b: Body) {
    && b.DeviceBody? && b.saltOk && b.device.userCode.key == key && 1 <= b.expiresIn <= 900 && 5 <= b.device.interval <= 60
  }

  predicate Completes(u: PendingUpload, b: Body) {
    && b.BundleBody? && u.id == Some(b.bundle.id) && b.bundle.bytes == u.bytes && b.bundle.createdAt == u.createdAt
    && b.bundle.receivedAt > 0
  }

  const MINUTE := 60000

  // What a command stores as the grant. None, when its use was refused or its
  // code came too late.
  predicate DropsGrant(s: Sys, p: Pid, now: int) {
    || (Replied(s, p, GrantUse, 401) && !Removal(s.flights[p].reply))
    || (Replied(s, p, GrantStart, 200) && s.flights[p].reply.body.CodeBody? && s.flights[p].reply.body.codeExpiresAt <= now)
  }

  // A fresh secret, when there is none or its approval has run out.
  predicate NewSecret(a: Account, g: Grant, now: int) {
    && g == Grant(g.secret, None, 0, Scope(None, 0))
    && (a.recovery.None? || (a.recovery.value.requestExpiresAt != 0 && a.recovery.value.requestExpiresAt <= now))
  }

  // The code the service gave for the stored secret.
  predicate NewCode(s: Sys, p: Pid, g: Grant, now: int) {
    && Replied(s, p, GrantStart, 200) && s.account.recovery.Some? && s.account.recovery.value.userCode.None?
    && var b := s.flights[p].reply.body;
       b.CodeBody? && s.account.transportKey == Some(b.userCode.key) && now < b.codeExpiresAt <= now + 16 * MINUTE &&
       g == s.account.recovery.value.(userCode := Some(b.userCode), requestExpiresAt := b.codeExpiresAt)
  }

  // The scope approved for that code.
  predicate NewScope(s: Sys, p: Pid, g: Grant, now: int) {
    && Replied(s, p, GrantPoll, 200) && s.account.recovery.Some? && s.account.recovery.value.userCode.Some?
    && var b := s.flights[p].reply.body;
       b.ScopeBody? && b.scope.box == s.account.box && now < b.scope.expiresAt <= now + 31 * MINUTE &&
       g == s.account.recovery.value.(scope := b.scope)
  }

  predicate Grants(s: Sys, p: Pid, grant: Option<Grant>, now: int) {
    match grant
    case None => DropsGrant(s, p, now)
    case Some(g) => NewSecret(s.account, g, now) || NewCode(s, p, g, now) || NewScope(s, p, g, now)
  }

  function Unlock(s: Sys, p: Pid): Sys {
    s.(holder := if Holds(s, p) then None else s.holder,
       flights := if p in s.flights then s.flights[p := s.flights[p].(locked := false)] else s.flights)
  }

  function Stored(s: Sys, a: Account): Option<Sys> { Some(s.(account := a)) }

  function Step(s: Sys, e: Event): Option<Sys> {
    var a := s.account;
    match e
    case Acquire(p) => if s.holder.None? then Some(s.(holder := Some(p))) else None
    case Release(p) => if Holds(s, p) then Some(Unlock(s, p)) else None
    case Crash(p) => var u := Unlock(s, p); Some(u.(flights := u.flights - {p}))
    case Select(p, cap, token, request) =>
      if Holds(s, p) && Selectable(a, cap) && token == Selected(a.tokens[cap])
      then Some(s.(flights := s.flights[p := Flight(a.box, Bearer(cap, a.tokens[cap]), request, true, Waiting, Lost)])) else None
    case UseGrant(p) =>
      if Holds(s, p) && SignedIn(a) && a.recovery.Some? && a.recovery.value.scope.box == a.box
      then Some(s.(flights := s.flights[p := Flight(a.box, ByGrant, GrantUse, true, Waiting, Lost)])) else None
    case Ask(p, request) =>
      // Without a credential of the box.
      if Holds(s, p) && (match request
                         case DeviceStart => MayEnrol(a)
                         case DevicePoll => MayEnrol(a) && a.device.Some?
                         case GrantPoll => SignedIn(a) && a.recovery.Some?
                         case _ => false)
      then Some(s.(flights := s.flights[p := Flight(a.box, ByNobody, request, true, Waiting, Lost)])) else None
    case Reply(p, r) =>
      if Told(s, p, Waiting) && r.Response? && Honest(s, s.flights[p].request, r)
      then Some(s.(flights := s.flights[p := s.flights[p].(answer := Classify(s.flights[p].request, r), reply := r)])) else None
    case Settle(p) =>
      if Holds(s, p) && p in s.flights then Stored(s, Settled(a, s.flights[p])) else None
    case StorePending(p, token) =>
      // The token of this very reply, once.
      if Holds(s, p) && !a.removed && AcceptedUnderLock(s, p, token.cap) &&
         Replied(s, p, Rotation, 200) && s.flights[p].reply.body == TokenBody(token) &&
         token.cap in a.tokens && a.tokens[token.cap].pending.None?
      then Some(s.(account := a.(tokens := a.tokens[token.cap := Credential(a.tokens[token.cap].current, Some(token))]),
                   flights := s.flights - {p}, stored := s.stored + {token})) else None
    case LoginKey(p, key) =>
      if Holds(s, p) && MayEnrol(a) then Stored(s, a.(transportKey := Some(key), device := None)) else None
    case LoginDevice(p, device, now) =>
      if Holds(s, p) && MayEnrol(a) && a.transportKey == Some(device.userCode.key) && Replied(s, p, DeviceStart, 200) &&
         Starts(device.userCode.key, s.flights[p].reply.body) &&
         device == s.flights[p].reply.body.device.(expiresAt := now + s.flights[p].reply.body.expiresIn)
      then Stored(s, a.(device := Some(device))) else None
    case LoginInterval(p, interval) =>
      if Holds(s, p) && a.device.Some? && Replied(s, p, DevicePoll, 429) &&
         interval == Max(a.device.value.interval + 5, s.flights[p].reply.retryAfter)
      then Stored(s, a.(device := Some(a.device.value.(interval := interval)))) else None
    case LoginExpired(p) => if Holds(s, p) && Replied(s, p, DevicePoll, 410) then Stored(s, a.(device := None)) else None
    case LoginDone(p, box, sync, backup) =>
      if Holds(s, p) && MayEnrol(a) && ValidToken(sync, Sync) && ValidToken(backup, Backup) &&
         Replied(s, p, DevicePoll, 200) && s.flights[p].reply.body == EnrolledBody(box, sync, backup)
      then Some(s.(account := a.(box := Some(box), needsLogin := false, removed := false, device := None, upload := None,
                                 tokens := map[Sync := Credential(sync, None), Backup := Credential(backup, None)]),
                   flights := s.flights - {p}, stored := s.stored + {sync, backup})) else None
    case WriteFile(p, data) =>
      if Holds(s, p) && a.upload.None? then Some(s.(ciphertext := Some(data))) else None
    case RemoveFile(p) =>
      if Holds(s, p) && a.upload.None? then Some(s.(ciphertext := None)) else None
    case RecordUpload(p, createdAt) =>
      if Holds(s, p) && SignedIn(a) && a.upload.None? && s.ciphertext.Some? && 1 <= |s.ciphertext.value| <= LIMIT
      then Stored(s, a.(upload := Some(PendingUpload(None, Digest(s.ciphertext.value), |s.ciphertext.value|, createdAt, 0)))) else None
    case Reserve(p, id, expiresAt, now) =>
      if Holds(s, p) && AcceptedUnderLock(s, p, Backup) && a.upload.Some? && a.upload.value.id.None? && id !in s.declared &&
         Replied(s, p, Reservation, 201) && Reserves(a.upload.value, s.flights[p].reply.body, now) &&
         s.flights[p].reply.body.id == id && s.flights[p].reply.body.expiresAt == expiresAt
      then Some(s.(account := a.(upload := Some(a.upload.value.(id := Some(id), expiresAt := expiresAt))),
                   declared := s.declared[id := a.upload.value.hash])) else None
    case SendPut(p, data) =>
      // Whatever was read of the stored file, its digest was checked.
      if Holds(s, p) && a.upload.Some? && a.upload.value.id.Some? && Digest(data) == a.upload.value.hash
      then Some(s.(puts := s.puts + {(a.upload.value.id.value, data)})) else None
    case PutArrives(id, data) =>
      // If-None-Match: the first arrival is stored, any later one is refused.
      if (id, data) in s.puts
      then Some(s.(objects := if id in s.objects then s.objects else s.objects[id := data])) else None
    case Discard(p) =>
      // Only when the service said so, asked to complete this very reservation.
      if Holds(s, p) && a.upload.Some? && a.upload.value.id.Some? && Told(s, p, Void) && s.flights[p].locked &&
         s.flights[p].request == Completion(a.upload.value.id.value)
      then Stored(s, a.(upload := Some(a.upload.value.(id := None, expiresAt := 0)))) else None
    case Completed(p) =>
      // The service completes a reservation only from a stored object of the declared size.
      if Holds(s, p) && AcceptedUnderLock(s, p, Backup) && a.upload.Some? && a.upload.value.id.Some? &&
         Replied(s, p, Completion(a.upload.value.id.value), 200) && Completes(a.upload.value, s.flights[p].reply.body) &&
         a.upload.value.id.value in s.objects && |s.objects[a.upload.value.id.value]| == a.upload.value.bytes
      then Stored(s, a.(upload := None)) else None
    case SaveGrant(p, grant, now) =>
      if Holds(s, p) && SignedIn(a) && Grants(s, p, grant, now) then Stored(s, a.(recovery := grant)) else None
  }

  // The process whose memory and durable writes an event belongs to.
  function Actor(e: Event): Option<Pid> {
    if e.PutArrives? then None else Some(e.p)
  }

  // The state after a run from an empty state directory; None when some event
  // of the run could not have happened.
  function Exec(es: seq<Event>): Option<Sys> {
    if es == [] then Some(Initial)
    else
      var before := Exec(es[..|es| - 1]);
      if before.None? then None else Step(before.value, es[|es| - 1])
  }

  ghost predicate Legal(es: seq<Event>) { Exec(es).Some? }

  lemma ExecSnoc(es: seq<Event>, e: Event)
    ensures Exec(es + [e]) == if Exec(es).None? then None else Step(Exec(es).value, e)
  {
    assert (es + [e])[..|es|] == es;
  }

  // A crash may cut a run anywhere: every prefix of a legal run is legal.
  lemma {:induction false} PrefixLegal(es: seq<Event>, n: nat)
    requires Legal(es) && n <= |es|
    ensures Legal(es[..n])
    decreases |es|
  {
    if n == |es| {
      assert es[..n] == es;
    } else {
      PrefixLegal(es[..|es| - 1], n);
      assert es[..|es| - 1][..n] == es[..n];
    }
  }
}
