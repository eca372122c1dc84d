// internal/account's client: the sequence of reads, requests and saves each
// command makes. Every method takes the process it runs as, and leaves a legal
// run of the protocol behind on every path, so AccountSafety speaks of it.
module AccountClient {
  import opened Basics
  import opened AccountProtocol
  import opened AccountSafety
  import opened AccountSteps
  import opened AccountWorld

  // The command holds the lock, and its in-memory state is what is stored.
  ghost predicate Session(w: World, p: Pid, v: Account)
    reads w
  {
    w.Valid() && Holds(w.sys, p) && w.sys.account == v
  }

  // ---- Credentials under the lock ----

  // Every field a request under the lock can leave changed.
  predicate OnlyTokens(v: Account, u: Account) {
    u == v.(tokens := u.tokens) || u == v.(needsLogin := true) || u == MarkRemoved(v)
  }

  method MarkRemovedDurably(w: World, p: Pid, v: Account) returns (u: Account, ok: bool)
    requires Session(w, p, v)
    requires Told(w.sys, p, BoxRemoved) && w.sys.flights[p].box == v.box && !w.sys.flights[p].authority.ByNobody? && !v.removed
    modifies w
    ensures w.Valid() && Holds(w.sys, p) && old(w.trace) <= w.trace
    ensures u == MarkRemoved(v)
    ensures ok ==> w.sys.account == u
    ensures OnlyDid(old(w.trace), w.trace, p, SettlesRemoval)
    ensures w.sys == old(w.sys).(account := w.sys.account, ciphertext := w.sys.ciphertext)
    ensures w.sys.account == v || w.sys.account == u
    ensures w.faults == old(w.faults) + if ok then 0 else 1
  {
    hide Grants;
    hide OnlyDid;
    u := MarkRemoved(v);
    DidNothing(old(w.trace), p, SettlesRemoval);
    DidOne(old(w.trace), w.trace, w.sys, Settle(p), p, SettlesRemoval);
    ok := w.Save(u, Settle(p));
    if ok {
      var gone: bool := Any();
      if gone {
        DidOne(old(w.trace), w.trace, w.sys, RemoveFile(p), p, SettlesRemoval);
        w.Do(RemoveFile(p));
      }
    }
  }

  // The process holds this reply to this request.
  predicate Has(s: Sys, p: Pid, request: Request, r: Response)
    requires r.Response?
  {
    p in s.flights && s.flights[p].locked && s.flights[p].request == request && s.flights[p].reply == r &&
    s.flights[p].answer == Classify(request, r)
  }

  // Select, use and settle one credential without letting go of the lock.
  method AuthenticatedVia(w: World, p: Pid, v: Account, cap: Capability, request: Request)
    returns (u: Account, r: Response, err: Option<Error>)
    requires Session(w, p, v)
    modifies w
    ensures w.Valid() && Holds(w.sys, p) && old(w.trace) <= w.trace
    ensures forall id | id in old(w.sys).objects :: id in w.sys.objects && w.sys.objects[id] == old(w.sys).objects[id]
    ensures w.sys.declared == old(w.sys).declared && w.sys.puts == old(w.sys).puts
    ensures err.None? ==> w.sys.account == u && OnlyTokens(v, u) && r.Response? && Honest(w.sys, request, r)
    // What came back is the reply to this request, taken under this lock.
    ensures err.None? ==> RepliedIn(w.trace, |old(w.trace)|, p, r.status, r.body) && Has(w.sys, p, request, r)
    ensures err.None? ==> (Removal(r) <==> u.removed)
    ensures err.None? && !Removal(r) ==> w.sys.ciphertext == old(w.sys).ciphertext && (r.status == 401 ==> u.needsLogin)
    ensures err.None? && Success(r) ==>
              !u.removed && AcceptedUnderLock(w.sys, p, cap) && cap in v.tokens &&
              u == v.(tokens := v.tokens[cap := Credential(Selected(v.tokens[cap]), None)])
    ensures err.Some? ==> err.value in {ErrRemoved, ErrLogin, ErrNetwork, ErrState}
    ensures err == Some(ErrRemoved) <==> v.removed
    ensures err == Some(ErrLogin) <==> !v.removed && !Selectable(v, cap)
    ensures w.faults == old(w.faults) + Faults(err)
  {
    hide Grants, Step, RepliedIn, Honest, Settled, Classify, AcceptedUnderLock, Success;
    u := v;
    r := Lost;
    if v.removed {
      return u, r, Some(ErrRemoved);
    }
    if v.needsLogin || cap !in v.tokens || !ValidToken(Selected(v.tokens[cap]), cap) {
      return u, r, Some(ErrLogin);
    }
    Selects(w.sys, p, cap, request);
    w.Do(Select(p, cap, Selected(v.tokens[cap]), request));
    r := w.Exchange(p);
    if r.Lost? {
      return u, r, Some(ErrNetwork);
    }
    ghost var replied, before := w.trace, w.sys;
    assert ReplyAt(replied, |replied| - 1, p, r.status, r.body);
    var ok;
    u, ok := SettleReply(w, p, v, cap, request, r);
    HonestStill(before, w.sys, request, r);
    RepliedLonger(replied, w.trace, |old(w.trace)|, p, r.status, r.body);
    return u, r, if ok then None else Some(ErrState);
  }

  method SettleReply(w: World, p: Pid, v: Account, cap: Capability, request: Request, r: Response) returns (u: Account, ok: bool)
    requires Session(w, p, v) && Selectable(v, cap) && r.Response?
    requires p in w.sys.flights && w.sys.flights[p] == Flight(v.box, Bearer(cap, v.tokens[cap]), request, true, Classify(request, r), r)
    modifies w
    ensures w.Valid() && Holds(w.sys, p) && old(w.trace) <= w.trace
    ensures w.sys == old(w.sys).(account := w.sys.account, ciphertext := w.sys.ciphertext)
    ensures ok ==> w.sys.account == u && OnlyTokens(v, u) && (Removal(r) <==> u.removed)
    ensures ok && !Removal(r) ==> w.sys.ciphertext == old(w.sys).ciphertext && (r.status == 401 ==> u.needsLogin)
    ensures ok && Success(r) ==> !u.removed && AcceptedUnderLock(w.sys, p, cap)
    ensures ok && Success(r) ==> u == v.(tokens := v.tokens[cap := Credential(Selected(v.tokens[cap]), None)])
    ensures w.faults == old(w.faults) + if ok then 0 else 1
  {
    hide Grants, Step;
    u, ok := v, true;
    var t := v.tokens[cap];
    Settles(w.sys, p);
    if Removal(r) {
      u, ok := MarkRemovedDurably(w, p, v);
    } else if r.status == 401 {
      // Never fall back to the predecessor.
      u := v.(needsLogin := true);
      ok := w.Save(u, Settle(p));
    } else if Success(r) && t.pending.Some? {
      u := v.(tokens := v.tokens[cap := Credential(t.pending.value, None)]);
      ok := w.Save(u, Settle(p));
    }
    if Success(r) && t.pending.None? {
      assert v.tokens == v.tokens[cap := Credential(Selected(t), None)];
    }
  }

  lemma HonestStill(s: Sys, t: Sys, request: Request, r: Response)
    requires Honest(s, request, r) && t.declared == s.declared && t.stored == s.stored && t.objects == s.objects
    ensures Honest(t, request, r)
  {
  }

  // `r` is the reply, once it was settled.
  method Rotate(w: World, p: Pid, cap: Capability) returns (err: Option<Error>, ghost r: Response)
    requires w.Valid() && !Holds(w.sys, p)
    modifies w
    ensures w.Valid() && !Holds(w.sys, p) && old(w.trace) <= w.trace
    // Success stores as successor exactly the token the service issued to this
    // very request.
    ensures err.None? ==> cap in w.sys.account.tokens && w.sys.account.tokens[cap].pending.Some? &&
                          RepliedIn(w.trace, |old(w.trace)|, p, 200, TokenBody(w.sys.account.tokens[cap].pending.value))
    // It succeeds whenever a good token came and nothing failed; any other reply
    // is passed on.
    ensures r.Response? ==> RepliedIn(w.trace, |old(w.trace)|, p, r.status, r.body)
    ensures r.Response? && w.faults == old(w.faults) ==> err == Rotated(r, cap)
    ensures w.faults == old(w.faults) + Faults(err)
    ensures r.Lost? && w.faults == old(w.faults) ==> err == Some(ErrRemoved) || err == Some(ErrLogin)
  {
    hide Step, RepliedIn;
    r := Lost;
    var open := w.Open(p);
    if !open {
      return Some(ErrBusy), r;
    }
    ghost var from, n := w.trace, |old(w.trace)|;
    err, r := RotateLocked(w, p, cap);
    ghost var done := w.trace;
    w.Close(p);
    if r.Response? {
      RepliedEarlier(done, n, |from|, p, r.status, r.body);
      RepliedLonger(done, w.trace, n, p, r.status, r.body);
    }
  }

  // What a rotation makes of the reply to it.
  function Rotated(r: Response, cap: Capability): Option<Error>
    requires r.Response?
  {
    if r.status != 200 then Some(Failure(r))
    else if !r.body.TokenBody? || !ValidToken(r.body.token, cap) then Some(ErrProtocol)
    else None
  }

  lemma RepliedEarlier(es: seq<Event>, from: nat, later: nat, p: Pid, status: int, body: Body)
    requires RepliedIn(es, later, p, status, body) && from <= later
    ensures RepliedIn(es, from, p, status, body)
  {
    var k :| later <= k < |es| && ReplyAt(es, k, p, status, body);
  }

  method RotateLocked(w: World, p: Pid, cap: Capability) returns (err: Option<Error>, ghost r: Response)
    requires w.Valid() && Holds(w.sys, p)
    modifies w
    ensures w.Valid() && Holds(w.sys, p) && old(w.trace) <= w.trace
    ensures err.None? ==>
              var before := old(w.sys).account; var after := w.sys.account;
              && cap in before.tokens && cap in after.tokens
              && after.tokens[cap].pending.Some? && ValidToken(after.tokens[cap].pending.value, cap)
              && after == before.(tokens := before.tokens[cap := Credential(Selected(before.tokens[cap]), after.tokens[cap].pending)])
              && r.Response? && r.status == 200 && r.body == TokenBody(after.tokens[cap].pending.value)
    ensures r.Response? ==> RepliedIn(w.trace, |old(w.trace)|, p, r.status, r.body)
    ensures err == Some(ErrRemoved) <==> old(w.sys).account.removed
    ensures err == Some(ErrLogin) <==> !old(w.sys).account.removed && !Selectable(old(w.sys).account, cap)
    ensures r.Response? && w.faults == old(w.faults) ==> err == Rotated(r, cap)
    ensures r.Lost? ==> err.Some? && (Fails(err.value) || err.value.ErrRemoved? || err.value.ErrLogin?)
    ensures w.faults == old(w.faults) + Faults(err)
  {
    hide Step, RepliedIn;
    r := Lost;
    var v := w.sys.account;
    var u, reply, failed := AuthenticatedVia(w, p, v, cap, Rotation);
    if failed.Some? {
      return failed, r;
    }
    r := reply;
    if reply.status != 200 {
      return Some(Failure(reply)), r;
    }
    if !reply.body.TokenBody? || !ValidToken(reply.body.token, cap) {
      return Some(ErrProtocol), r;
    }
    var t := u.tokens[cap];
    StoresPending(w.sys, p, reply.body.token);
    ghost var replied := w.trace;
    var ok := w.Save(u.(tokens := u.tokens[cap := t.(pending := Some(reply.body.token))]), StorePending(p, reply.body.token));
    RepliedLonger(replied, w.trace, |old(w.trace)|, p, 200, r.body);
    return if ok then None else Some(ErrState), r;
  }

  // ---- Sync: the lock is held only to read and to settle ----

  predicate ReadsCredential(s: Sys, e: Event) { e.Acquire? || e.Release? || (e.Select? && e.cap.Sync? && e.request.Plain?) }

  // All a sync or a dial may do besides: take an answer, and settle it.
  predicate SettlesRemoval(s: Sys, e: Event) {
    || ReadsCredential(s, e) || e.Reply?
    || (e.Settle? && Told(s, e.p, BoxRemoved) && s.flights[e.p].box == s.account.box)
    || (e.RemoveFile? && s.account.removed)
  }

  predicate SettlesSync(s: Sys, e: Event) {
    SettlesRemoval(s, e) || (e.Settle? && (Told(s, e.p, Accepted) || Told(s, e.p, Unauthorized)))
  }

  method SyncCredential(w: World, p: Pid) returns (flight: Option<Flight>, err: Option<Error>)
    requires w.Valid() && !Holds(w.sys, p)
    modifies w
    ensures w.Valid() && !Holds(w.sys, p) && old(w.trace) <= w.trace
    ensures err.None? <==> flight.Some?
    ensures flight.Some? ==>
              flight.value.authority.Bearer? && flight.value.authority.cap == Sync && flight.value.request == Plain &&
              flight.value.answer == Waiting &&
              p in w.sys.flights && w.sys.flights[p] == flight.value && w.sys.account.box == flight.value.box &&
              Selectable(w.sys.account, Sync) && w.sys.account.tokens[Sync] == flight.value.authority.used
    ensures err.Some? ==> err.value in {ErrBusy, ErrRemoved, ErrLogin}
    ensures err == Some(ErrRemoved) ==> w.sys.account.removed
    ensures err == Some(ErrLogin) ==> !w.sys.account.removed && !Selectable(w.sys.account, Sync)
    ensures w.faults == old(w.faults) + Faults(err)
    ensures OnlyDid(old(w.trace), w.trace, p, ReadsCredential)
  {
    hide OnlyDid;
    DidNothing(old(w.trace), p, ReadsCredential);
    var open := w.Open(p);
    Did(old(w.trace), old(w.trace), w.trace, p, Locks, ReadsCredential);
    if !open {
      return None, Some(ErrBusy);
    }
    DidOne(old(w.trace), w.trace, w.sys, Release(p), p, ReadsCredential);
    var v := w.sys.account;
    if v.removed {
      w.Close(p);
      return None, Some(ErrRemoved);
    }
    if v.needsLogin || Sync !in v.tokens || !ValidToken(Selected(v.tokens[Sync]), Sync) {
      w.Close(p);
      return None, Some(ErrLogin);
    }
    DidOne(old(w.trace), w.trace, w.sys, Select(p, Sync, Selected(v.tokens[Sync]), Plain), p, ReadsCredential);
    w.Do(Select(p, Sync, Selected(v.tokens[Sync]), Plain));
    DidOne(old(w.trace), w.trace, w.sys, Release(p), p, ReadsCredential);
    w.Close(p);
    return Some(w.sys.flights[p]), None;
  }

  // The answered flight a settlement starts from, and what is durable after it:
  // nothing changed but what Settled says of the account found under the lock.
  ghost predicate Answered(w: World, p: Pid, answer: Answer)
    reads w
  {
    w.Valid() && !Holds(w.sys, p) && p in w.sys.flights && w.sys.flights[p].answer == answer
  }

  method SettleRemoved(w: World, p: Pid) returns (applied: bool, err: Option<Error>)
    requires Answered(w, p, BoxRemoved) && !w.sys.flights[p].authority.ByNobody?
    modifies w
    ensures w.Valid() && !Holds(w.sys, p) && old(w.trace) <= w.trace
    ensures err.Some? ==> err.value in {ErrBusy, ErrState}
    ensures err.None? && applied ==> w.sys.account.removed && w.sys.account.box == old(w.sys).flights[p].box
    ensures err.None? && !applied ==> w.sys.account.box != old(w.sys).flights[p].box
    ensures p in w.sys.flights && w.sys.flights[p] == old(w.sys).flights[p].(locked := w.sys.flights[p].locked)
    ensures w.faults == old(w.faults) + Faults(err)
    ensures OnlyDid(old(w.trace), w.trace, p, SettlesRemoval)
  {
    hide OnlyDid;
    DidNothing(old(w.trace), p, SettlesRemoval);
    var open := w.Open(p);
    Did(old(w.trace), old(w.trace), w.trace, p, Locks, SettlesRemoval);
    if !open {
      return false, Some(ErrBusy);
    }
    DidOne(old(w.trace), w.trace, w.sys, Release(p), p, SettlesRemoval);
    ghost var found := w.trace;
    var v := w.sys.account;
    if v.box != w.sys.flights[p].box {
      w.Close(p);
      return false, None;
    }
    if v.removed {
      w.Close(p);
      return true, None;
    }
    var u, ok := MarkRemovedDurably(w, p, v);
    Did(old(w.trace), found, w.trace, p, SettlesRemoval, SettlesRemoval);
    DidOne(old(w.trace), w.trace, w.sys, Release(p), p, SettlesRemoval);
    w.Close(p);
    return true, if ok then None else Some(ErrState);
  }

  method SettleSync(w: World, p: Pid, answer: Answer) returns (err: Option<Error>)
    requires Answered(w, p, answer) && (answer.Unauthorized? || answer.Accepted?)
    requires w.sys.flights[p].authority.Bearer? && w.sys.flights[p].authority.cap == Sync
    requires answer.Accepted? ==> w.sys.flights[p].authority.used.pending.Some?
    modifies w
    ensures w.Valid() && !Holds(w.sys, p) && old(w.trace) <= w.trace
    ensures err.Some? ==> err.value in {ErrBusy, ErrState}
    ensures err.None? ==>
              var used := old(w.sys).flights[p].authority.used; var a := w.sys.account;
              // Never again the credential as it was when it was refused or accepted.
              Sync in a.tokens && a.tokens[Sync] == used ==> answer.Unauthorized? && a.needsLogin
    ensures p in w.sys.flights && w.sys.flights[p] == old(w.sys).flights[p].(locked := w.sys.flights[p].locked)
    ensures w.faults == old(w.faults) + Faults(err)
    ensures OnlyDid(old(w.trace), w.trace, p, SettlesSync)
  {
    hide OnlyDid, Step;
    DidNothing(old(w.trace), p, SettlesSync);
    var open := w.Open(p);
    Did(old(w.trace), old(w.trace), w.trace, p, Locks, SettlesSync);
    if !open {
      return Some(ErrBusy);
    }
    DidOne(old(w.trace), w.trace, w.sys, Release(p), p, SettlesSync);
    DidOne(old(w.trace), w.trace, w.sys, Settle(p), p, SettlesSync);
    var v := w.sys.account;
    var used := w.sys.flights[p].authority.used;
    if Sync !in v.tokens || v.tokens[Sync] != used {
      w.Close(p);
      return None;
    }
    var u := if answer.Unauthorized? then v.(needsLogin := true)
             else v.(tokens := v.tokens[Sync := Credential(used.pending.value, None)]);
    Settles(w.sys, p);
    var ok := w.Save(u, Settle(p));
    DidOne(old(w.trace), w.trace, w.sys, Release(p), p, SettlesSync);
    w.Close(p);
    return if ok then None else Some(ErrState);
  }

  // A process's answered sync request has been settled: a credential that was
  // refused, or accepted as a successor, is not stored as it was.
  predicate SyncSettled(s: Sys, p: Pid) {
    && p in s.flights && s.flights[p].authority.Bearer? && s.flights[p].authority.cap == Sync
    && var f := s.flights[p];
       f.answer.Unauthorized? || (f.answer.Accepted? && f.authority.used.pending.Some?) ==>
         (Sync in s.account.tokens && s.account.tokens[Sync] == f.authority.used ==> f.answer.Unauthorized? && s.account.needsLogin)
  }

  // `box` is the enrolment the request was made for.
  method Synchronise(w: World, p: Pid) returns (err: Option<Error>, ghost box: Option<nat>, ghost r: Response)
    requires w.Valid() && !Holds(w.sys, p)
    modifies w
    ensures w.Valid() && !Holds(w.sys, p) && old(w.trace) <= w.trace
    // A caller is told of a removal only when the stored enrolment is removed,
    // and that it is out of date only when another one is stored.
    ensures err == Some(ErrRemoved) ==> w.sys.account.removed
    ensures err == Some(Refusal(401, RemovedCode)) ==> w.sys.account.removed && w.sys.account.box == box
    ensures err == Some(ErrSuperseded) ==> w.sys.account.box != box
    // An answer is passed on only after it was settled.
    ensures err.None? ==> Told(w.sys, p, Accepted) && SyncSettled(w.sys, p)
    ensures err.Some? && err.value.Refusal? ==> SyncSettled(w.sys, p)
    ensures err.Some? && err.value.Refusal? && err.value.status == 401 && err.value.refusal != RemovedCode ==> Told(w.sys, p, Unauthorized)
    // A reply is passed on as it is, unless the enrolment it speaks of is gone.
    ensures r.Response? ==> p in w.sys.flights && w.sys.flights[p].reply == r
    ensures r.Response? && w.faults == old(w.faults) ==>
              if Removal(r) then err == Some(Failure(r)) || err == Some(ErrSuperseded)
              else err == if r.status != 200 then Some(Failure(r)) else None
    ensures r.Lost? && w.faults == old(w.faults) ==> err == Some(ErrRemoved) || err == Some(ErrLogin)
    ensures w.faults == old(w.faults) + Faults(err)
    // Apart from the lock, it writes nothing but the settlement of its answer.
    ensures OnlyDid(old(w.trace), w.trace, p, SettlesSync)
  {
    hide OnlyDid, Step, Honest, Selectable, SignedIn, ValidToken, Settled;
    box, r := None, Lost;
    DidNothing(old(w.trace), p, SettlesSync);
    var flight, failed := SyncCredential(w, p);
    Did(old(w.trace), old(w.trace), w.trace, p, ReadsCredential, SettlesSync);
    if failed.Some? {
      return failed, box, r;
    }
    box := flight.value.box;
    var used := flight.value.authority.used;
    ghost var selected := w.trace;
    var reply := w.Exchange(p);
    r := reply;
    Did(old(w.trace), selected, w.trace, p, Replies, SettlesSync);
    if reply.Lost? {
      return Some(ErrNetwork), box, r;
    }
    ghost var answered := w.trace;
    if Removal(reply) {
      var applied, unsettled := SettleRemoved(w, p);
      Did(old(w.trace), answered, w.trace, p, SettlesRemoval, SettlesSync);
      if unsettled.Some? {
        return unsettled, box, r;
      }
      if !applied {
        return Some(ErrSuperseded), box, r;
      }
    } else if reply.status == 401 || (Success(reply) && used.pending.Some?) {
      var unsettled := SettleSync(w, p, Classify(Plain, reply));
      Did(old(w.trace), answered, w.trace, p, SettlesSync, SettlesSync);
      if unsettled.Some? {
        return unsettled, box, r;
      }
    }
    return if reply.status != 200 then Some(Failure(reply)) else None, box, r;
  }

  // The bell uses the sync credential but settles only a removal.
  method DialBell(w: World, p: Pid) returns (err: Option<Error>, ghost box: Option<nat>, ghost r: Response)
    requires w.Valid() && !Holds(w.sys, p)
    modifies w
    ensures w.Valid() && !Holds(w.sys, p) && old(w.trace) <= w.trace
    ensures err == Some(ErrRemoved) ==> w.sys.account.removed
    ensures err == Some(ErrSuperseded) ==> w.sys.account.box != box
    // The bell is up exactly when the service says so; a refusal of the
    // credential is told from any other.
    ensures r.Response? ==> p in w.sys.flights && w.sys.flights[p].reply == r
    ensures r.Response? && w.faults == old(w.faults) ==>
              if Removal(r) then err == Some(ErrRemoved) || err == Some(ErrSuperseded)
              else err == if r.status == 101 then None
                          else if r.status == 401 || r.status == 403 then Some(BellRefused(r.status))
                          else Some(Failure(r))
    ensures r.Lost? && w.faults == old(w.faults) ==> err == Some(ErrRemoved) || err == Some(ErrLogin)
    ensures w.faults == old(w.faults) + Faults(err)
    ensures OnlyDid(old(w.trace), w.trace, p, SettlesRemoval)
  {
    hide OnlyDid;
    box, r := None, Lost;
    DidNothing(old(w.trace), p, SettlesRemoval);
    var flight, failed := SyncCredential(w, p);
    Did(old(w.trace), old(w.trace), w.trace, p, ReadsCredential, SettlesRemoval);
    if failed.Some? {
      return failed, box, r;
    }
    box := flight.value.box;
    ghost var selected := w.trace;
    var reply := w.Exchange(p);
    r := reply;
    Did(old(w.trace), selected, w.trace, p, Replies, SettlesRemoval);
    if reply.Lost? {
      return Some(ErrNetwork), box, r;
    }
    if reply.status == 101 {
      return None, box, r;
    }
    ghost var answered := w.trace;
    if Removal(reply) {
      var applied, unsettled := SettleRemoved(w, p);
      Did(old(w.trace), answered, w.trace, p, SettlesRemoval, SettlesRemoval);
      if unsettled.Some? {
        return unsettled, box, r;
      }
      return Some(if applied then ErrRemoved else ErrSuperseded), box, r;
    }
    if reply.status == 401 || reply.status == 403 {
      return Some(BellRefused(reply.status)), box, r;
    }
    return Some(Failure(reply)), box, r;
  }

  // ---- Login ----

  method Login(w: World, p: Pid, named: bool) returns (err: Option<Error>, ghost start: int)
    requires w.Valid() && !Holds(w.sys, p)
    modifies w
    ensures w.Valid() && !Holds(w.sys, p) && old(w.trace) <= w.trace
    ensures err.None? ==> SignedIn(w.sys.account) && w.sys.account.upload.None? && EnrolledIn(w.trace, |old(w.trace)|, p, w.sys.account)
    ensures w.faults == old(w.faults) + Faults(err)
  {
    hide Step, EnrolledIn;
    start := 0;
    var open := w.Open(p);
    if !open {
      return Some(ErrBusy), start;
    }
    ghost var from := w.trace;
    err, start := LoginLocked(w, p, named);
    ghost var done := w.trace;
    w.Close(p);
    if err.None? {
      EnrolledStill(done, w.trace, |from|, |old(w.trace)|, p, w.sys.account);
    }
  }

  method LoginLocked(w: World, p: Pid, named: bool) returns (err: Option<Error>, ghost start: int)
    requires w.Valid() && Holds(w.sys, p)
    modifies w
    ensures w.Valid() && Holds(w.sys, p) && old(w.trace) <= w.trace
    ensures err == Some(ErrEnrolled) <==> old(w.sys).account.box.Some? && !old(w.sys).account.needsLogin
    ensures err == Some(ErrEnrolled) ==> w.trace == old(w.trace)
    // A ceremony with time left is gone on with.
    ensures Ongoing(old(w.sys).account, start) ==> w.sys.account.transportKey == old(w.sys).account.transportKey
    ensures err.None? ==> FreshlyEnrolled(old(w.sys).account, w.sys.account) && EnrolledIn(w.trace, |old(w.trace)|, p, w.sys.account)
    ensures w.faults == old(w.faults) + Faults(err)
  {
    hide Step, EnrolledIn, RepliedIn;
    start := 0;
    var v := w.sys.account;
    if v.box.Some? && !v.needsLogin {
      return Some(ErrEnrolled), start;
    }
    var now: int := Any();
    start := now;
    if v.device.None? || v.device.value.expiresAt <= now {
      var started;
      ghost var reply;
      v, started, reply := StartCeremony(w, p, v, now, named);
      if started.Some? {
        return started, start;
      }
    }
    DeviceAtRest(w.trace);
    ghost var from := w.trace;
    err := PollUntil(w, p, v, now);
    if err.None? {
      EnrolledStill(w.trace, w.trace, |from|, |old(w.trace)|, p, w.sys.account);
    }
  }

  // Polls until the person has approved, or the code expires.
  method PollUntil(w: World, p: Pid, v: Account, from: int) returns (err: Option<Error>)
    requires Session(w, p, v) && MayEnrol(v) && v.device.Some? && v.device.value.interval >= 5
    modifies w
    ensures w.Valid() && Holds(w.sys, p) && old(w.trace) <= w.trace && w.sys.account.transportKey == v.transportKey
    ensures err.None? ==> FreshlyEnrolled(v, w.sys.account) && EnrolledIn(w.trace, |old(w.trace)|, p, w.sys.account)
    ensures err != Some(ErrEnrolled) && w.faults == old(w.faults) + Faults(err)
  {
    hide Step, EnrolledIn, RepliedIn;
    var expiresAt, now, u := v.device.value.expiresAt, from, v;
    while now < expiresAt
      invariant Session(w, p, u) && old(w.trace) <= w.trace && w.faults == old(w.faults)
      invariant MayEnrol(u) && u.recovery == v.recovery && u.transportKey == v.transportKey
      invariant u.device.Some? && u.device.value.expiresAt == expiresAt && u.device.value.interval >= 5
      decreases expiresAt - now
    {
      var goOn := w.Try();
      if !goOn {
        return Some(ErrContext);
      }
      var later: nat := Any();
      now := now + u.device.value.interval + later;
      var done;
      ghost var before, polled := w.trace, Lost;
      u, done, err, polled := PollOnce(w, p, u);
      if done {
        if err.None? {
          EnrolledStill(w.trace, w.trace, |before|, |old(w.trace)|, p, w.sys.account);
        }
        return;
      }
    }
    return Some(ErrExpired);
  }

  predicate Ongoing(a: Account, now: int) { a.device.Some? && a.device.value.expiresAt > now }

  lemma DeviceAtRest(es: seq<Event>)
    requires Legal(es)
    ensures Exec(es).value.account.device.Some? ==> Exec(es).value.account.device.value.interval >= 5
  {
    AlwaysWellFormed(es);
  }

  predicate FreshlyEnrolled(before: Account, after: Account) {
    && SignedIn(after) && after.upload.None? && after.device.None?
    && after.tokens.Keys == {Sync, Backup}
    && (forall cap | cap in after.tokens :: after.tokens[cap].pending.None?)
    // The recovery grant of the enrolment before this one stays.
    && after.recovery == before.recovery
  }

  // Box and credentials are exactly those of a reply taken in this stretch.
  ghost predicate EnrolledIn(es: seq<Event>, from: nat, p: Pid, a: Account) {
    && a.box.Some? && Sync in a.tokens && Backup in a.tokens
    && a.tokens == map[Sync := Credential(a.tokens[Sync].current, None), Backup := Credential(a.tokens[Backup].current, None)]
    && RepliedIn(es, from, p, 200, EnrolledBody(a.box.value, a.tokens[Sync].current, a.tokens[Backup].current))
  }

  lemma EnrolledStill(es: seq<Event>, more: seq<Event>, later: nat, from: nat, p: Pid, a: Account)
    requires EnrolledIn(es, later, p, a) && es <= more && from <= later
    ensures EnrolledIn(more, from, p, a)
  {
    hide RepliedIn;
    var body := EnrolledBody(a.box.value, a.tokens[Sync].current, a.tokens[Backup].current);
    RepliedEarlier(es, from, later, p, 200, body);
    RepliedLonger(es, more, from, p, 200, body);
  }

  // A request that carries no credential of the box.
  method AskFor(w: World, p: Pid, request: Request) returns (r: Response)
    requires w.Valid() && Holds(w.sys, p)
    requires match request
      case DeviceStart => MayEnrol(w.sys.account)
      case DevicePoll => MayEnrol(w.sys.account) && w.sys.account.device.Some?
      case GrantPoll => SignedIn(w.sys.account) && w.sys.account.recovery.Some?
      case _ => false
    modifies w
    ensures w.Valid() && Holds(w.sys, p) && old(w.trace) <= w.trace && w.sys.account == old(w.sys).account
    ensures r.Response? ==> Has(w.sys, p, request, r) && RepliedIn(w.trace, |old(w.trace)|, p, r.status, r.body)
    ensures w.faults == old(w.faults) + if r.Lost? then 1 else 0
    ensures |old(w.trace)| < |w.trace| && w.trace[|old(w.trace)|] == Ask(p, request)
  {
    hide Step, Honest;
    Asks(w.sys, p, request);
    w.Do(Ask(p, request));
    r := w.Exchange(p);
    assert r.Response? ==> ReplyAt(w.trace, |w.trace| - 1, p, r.status, r.body);
  }

  // A body that carries a box and its two tokens.
  predicate Enrols(b: Body) { b.EnrolledBody? && ValidToken(b.sync, Sync) && ValidToken(b.backup, Backup) }

  // `r` is the reply to the poll.
  method PollOnce(w: World, p: Pid, v: Account) returns (u: Account, done: bool, err: Option<Error>, ghost r: Response)
    requires Session(w, p, v) && MayEnrol(v) && v.device.Some? && v.device.value.interval >= 5
    modifies w
    ensures w.Valid() && Holds(w.sys, p) && old(w.trace) <= w.trace
    ensures r.Response? ==> RepliedIn(w.trace, |old(w.trace)|, p, r.status, r.body)
    ensures w.faults == old(w.faults) + Faults(err) && w.sys.account.transportKey == v.transportKey
    ensures r.Lost? ==> done && err == Some(ErrNetwork)
    // Not yet; or too often, and the interval grows by five seconds or to what the
    // service asks for.
    ensures !done ==> err.None? && w.sys.account == u && u.device.Some? && r.Response? && (r.status == 202 || r.status == 429)
    ensures !done ==> u == v.(device := Some(v.device.value.(interval :=
                             if r.status == 202 then v.device.value.interval else Max(v.device.value.interval + 5, r.retryAfter))))
    ensures r.Response? && r.status == 202 ==> !done
    // The ceremony is over.
    ensures done && err.None? ==> FreshlyEnrolled(v, w.sys.account) && EnrolledIn(w.trace, |old(w.trace)|, p, w.sys.account)
    ensures r.Response? && w.faults == old(w.faults) && r.status != 202 && r.status != 429 ==>
              err == if r.status != 200 then Some(Failure(r)) else if !Enrols(r.body) then Some(ErrProtocol) else None
    ensures r.Response? && w.faults == old(w.faults) && r.status != 202 && r.status != 429 ==>
              done && (r.status == 410 ==> w.sys.account == v.(device := None))
    ensures r.Response? && w.faults == old(w.faults) && r.status == 429 ==> !done
  {
    hide Step, Honest, RepliedIn, Classify;
    u := v;
    var reply := AskFor(w, p, DevicePoll);
    r := reply;
    if reply.Lost? {
      return u, true, Some(ErrNetwork), r;
    }
    ghost var replied := w.trace;
    if reply.status == 202 {
      return u, false, None, r;
    }
    if reply.status == 429 {
      var interval := Max(v.device.value.interval + 5, reply.retryAfter);
      u := v.(device := Some(v.device.value.(interval := interval)));
      LoginLengthens(w.sys, p, interval);
      var ok := w.Save(u, LoginInterval(p, interval));
      RepliedLonger(replied, w.trace, |old(w.trace)|, p, r.status, r.body);
      return u, !ok, if ok then None else Some(ErrState), r;
    }
    if reply.status == 410 {
      u := v.(device := None);
      LoginExpires(w.sys, p);
      var ok := w.Save(u, LoginExpired(p));
      RepliedLonger(replied, w.trace, |old(w.trace)|, p, r.status, r.body);
      return u, true, Some(if ok then Failure(reply) else ErrState), r;
    }
    if reply.status != 200 {
      return u, true, Some(Failure(reply)), r;
    }
    if !reply.body.EnrolledBody? || !ValidToken(reply.body.sync, Sync) || !ValidToken(reply.body.backup, Backup) {
      return u, true, Some(ErrProtocol), r;
    }
    u := v.(box := Some(reply.body.box), needsLogin := false, removed := false, device := None, upload := None,
            tokens := map[Sync := Credential(reply.body.sync, None), Backup := Credential(reply.body.backup, None)]);
    LoginEnds(w.sys, p, reply.body.box, reply.body.sync, reply.body.backup);
    var ok := w.Save(u, LoginDone(p, reply.body.box, reply.body.sync, reply.body.backup));
    RepliedLonger(replied, w.trace, |old(w.trace)|, p, 200, reply.body);
    return u, true, if ok then None else Some(ErrState), r;
  }

  // The transport key is durable before the service can derive a code from it.
  // An older service knows no name: then it is asked again without one. `first`
  // is the first reply, taken before `mid`.
  method AskForDevice(w: World, p: Pid, named: bool) returns (r: Response, ghost first: Response, ghost mid: nat)
    requires w.Valid() && Holds(w.sys, p) && MayEnrol(w.sys.account)
    modifies w
    ensures w.Valid() && Holds(w.sys, p) && old(w.trace) <= w.trace && w.sys.account == old(w.sys).account
    ensures r.Response? ==> Has(w.sys, p, DeviceStart, r)
    ensures w.faults == old(w.faults) + if r.Lost? then 1 else 0
    ensures |old(w.trace)| <= mid <= |w.trace|
    ensures if first.Response? && first.status == 400 && named then mid < |w.trace| && w.trace[mid] == Ask(p, DeviceStart)
            else r == first && mid == |w.trace|
  {
    r := AskFor(w, p, DeviceStart);
    first, mid := r, |w.trace|;
    if r.Response? && r.status == 400 && named {
      r := AskFor(w, p, DeviceStart);
    }
  }

  // `r` is the last reply.
  method StartCeremony(w: World, p: Pid, v: Account, now: int, named: bool) returns (u: Account, err: Option<Error>, ghost r: Response)
    requires Session(w, p, v) && MayEnrol(v)
    modifies w
    ensures w.Valid() && Holds(w.sys, p) && old(w.trace) <= w.trace
    ensures err.None? ==> w.sys.account == u && u.device.Some? && u.transportKey == Some(u.device.value.userCode.key)
    ensures u == v.(transportKey := u.transportKey, device := u.device)
    ensures w.faults == old(w.faults) + Faults(err)
    ensures r.Response? && w.faults == old(w.faults) && u.transportKey.Some? ==>
              err == if r.status != 200 then Some(Failure(r)) else if !Starts(u.transportKey.value, r.body) then Some(ErrProtocol) else None
    ensures u.transportKey.Some? && (r.Lost? ==> w.faults > old(w.faults))
  {
    hide Step, Honest, RepliedIn;
    r := Lost;
    var key: nat := Any();
    u := v.(transportKey := Some(key), device := None);
    LoginBegins(w.sys, p, key);
    var ok := w.Save(u, LoginKey(p, key));
    if !ok {
      return u, Some(ErrState), r;
    }
    ghost var first, mid := Lost, 0;
    var reply;
    reply, first, mid := AskForDevice(w, p, named);
    r := reply;
    if reply.Lost? {
      return u, Some(ErrNetwork), r;
    }
    if reply.status != 200 {
      return u, Some(Failure(reply)), r;
    }
    if !reply.body.DeviceBody? || !reply.body.saltOk || reply.body.device.userCode.key != key ||
       !(1 <= reply.body.expiresIn <= 900) || !(5 <= reply.body.device.interval <= 60) {
      return u, Some(ErrProtocol), r;
    }
    u := u.(device := Some(reply.body.device.(expiresAt := now + reply.body.expiresIn)));
    LoginGoesOn(w.sys, p, u.device.value, now);
    ok := w.Save(u, LoginDevice(p, u.device.value, now));
    return u, if ok then None else Some(ErrState), r;
  }

  // ---- Upload ----

  // The service holds, under the bundle's id, an object with this digest.
  ghost predicate StoredAs(s: Sys, hash: Digest, createdAt: int, b: Bundle) {
    b.id in s.objects && Digest(s.objects[b.id]) == hash && b.bytes == |s.objects[b.id]| && b.createdAt == createdAt
  }

  method Upload(w: World, p: Pid, data: Bytes, createdAt: int) returns (res: Result<Bundle, Error>)
    requires w.Valid() && !Holds(w.sys, p)
    modifies w
    ensures w.Valid() && !Holds(w.sys, p) && old(w.trace) <= w.trace
    // Success means the completed object is exactly the data.
    ensures res.Ok? ==> res.value.id in w.sys.objects && w.sys.objects[res.value.id] == data &&
                        res.value.bytes == |data| && res.value.createdAt == createdAt
    ensures res == Err(ErrSize) <==> |data| == 0 || |data| > 200_000_000
    ensures w.faults == old(w.faults) + FaultsOf(res)
  {
    if |data| == 0 || |data| > LIMIT {
      return Err(ErrSize);
    }
    var open := w.Open(p);
    if !open {
      return Err(ErrBusy);
    }
    res := UploadLocked(w, p, data, createdAt);
    w.Close(p);
  }

  method UploadLocked(w: World, p: Pid, data: Bytes, createdAt: int) returns (res: Result<Bundle, Error>)
    requires w.Valid() && Holds(w.sys, p) && 1 <= |data| <= LIMIT
    modifies w
    ensures w.Valid() && Holds(w.sys, p) && old(w.trace) <= w.trace
    ensures res.Ok? ==> StoredAs(w.sys, Digest(data), createdAt, res.value)
    ensures old(w.sys).account.removed ==> res == Err(ErrRemoved)
    ensures !old(w.sys).account.removed && !SignedIn(old(w.sys).account) ==> res == Err(ErrLogin)
    ensures res != Err(ErrSize) && w.faults == old(w.faults) + FaultsOf(res)
    ensures res == Err(ErrLogin) && |w.trace| == |old(w.trace)| ==> !Selectable(old(w.sys).account, Backup) || old(w.sys).account.box.None?
  {
    hide Step, RepliedIn;
    var v := w.sys.account;
    ghost var reserved, first, now, put;
    if v.removed {
      return Err(ErrRemoved);
    }
    if v.needsLogin || v.box.None? {
      return Err(ErrLogin);
    }
    if v.upload.Some? {
      // Finish what an earlier run recorded before starting another.
      var same := v.upload.value.hash == Digest(data) && v.upload.value.createdAt == createdAt;
      v, res, reserved, first, now, put := FinishUpload(w, p, v);
      if res.Err? || same {
        return;
      }
    }
    var u, failed := RecordNew(w, p, v, data, createdAt);
    if failed.Some? {
      return Err(failed.value);
    }
    u, res, reserved, first, now, put := FinishUpload(w, p, u);
  }

  // The ciphertext is durable before the record that names it.
  method RecordNew(w: World, p: Pid, v: Account, data: Bytes, createdAt: int) returns (u: Account, err: Option<Error>)
    requires Session(w, p, v) && SignedIn(v) && v.upload.None? && 1 <= |data| <= LIMIT
    modifies w
    ensures w.Valid() && Holds(w.sys, p) && old(w.trace) <= w.trace
    ensures u == v.(upload := Some(PendingUpload(None, Digest(data), |data|, createdAt, 0)))
    ensures err.None? ==> w.sys.account == u
    ensures (err.None? || err == Some(ErrState)) && w.faults == old(w.faults) + Faults(err)
    ensures err.None? ==> |w.trace| > |old(w.trace)|
  {
    hide Step;
    u := v.(upload := Some(PendingUpload(None, Digest(data), |data|, createdAt, 0)));
    WritesFile(w.sys, p, data);
    var replaced: bool := Any();
    var synced: bool := Any();
    if replaced {
      w.Do(WriteFile(p, data));
    }
    w.Note(replaced && synced);
    if !replaced || !synced {
      return u, Some(ErrState);
    }
    Records(w.sys, p, createdAt);
    var ok := w.Save(u, RecordUpload(p, createdAt));
    return u, if ok then None else Some(ErrState);
  }

  method ReadCiphertext(w: World, u: PendingUpload) returns (data: Option<Bytes>)
    modifies w`faults
    ensures data.Some? ==> w.sys.ciphertext == data && u.hash == Digest(data.value) && u.bytes == |data.value|
    // Nothing that matches the record is refused.
    ensures data.None? && w.sys.ciphertext.Some? && u.hash == Digest(w.sys.ciphertext.value) && u.bytes == |w.sys.ciphertext.value| <= LIMIT ==>
              u.bytes == 0 || w.faults > old(w.faults)
    ensures w.faults == old(w.faults) + if data.Some? then 0 else w.faults - old(w.faults)
    ensures old(w.faults) <= w.faults <= old(w.faults) + 1
  {
    var readable := w.Try();
    if !readable || u.bytes < 1 || u.bytes > LIMIT || w.sys.ciphertext.None? {
      return None;
    }
    var found := w.sys.ciphertext.value;
    return if |found| == u.bytes && Digest(found) == u.hash then Some(found) else None;
  }

  // The service has the reservation but not its object.
  predicate NotYet(r: Response) { r.Response? && r.status != 200 && r.status != 410 && r.status != 404 && r.code.NotUploaded? }

  // `reserved` is the record once it has a reservation, `first` the reply to the
  // first completion, `now` the time read after it, `put` what the PUT came to.
  method FinishUpload(w: World, p: Pid, v: Account)
    returns (u: Account, res: Result<Bundle, Error>, ghost reserved: PendingUpload, ghost first: Response, ghost now: int, ghost put: Option<int>)
    requires Session(w, p, v) && SignedIn(v) && v.upload.Some?
    modifies w
    ensures w.Valid() && Holds(w.sys, p) && old(w.trace) <= w.trace
    ensures res.Ok? ==> w.sys.account == u && SignedIn(u) && u.upload.None? &&
                        StoredAs(w.sys, v.upload.value.hash, v.upload.value.createdAt, res.value)
    ensures w.faults == old(w.faults) + FaultsOf(res) && res != Err(ErrSize)
    ensures res == Err(ErrLogin) && |w.trace| == |old(w.trace)| ==> !Selectable(v, Backup)
    ensures v.upload.value.id.Some? ==> reserved == v.upload.value
    ensures first.Response? ==> RepliedIn(w.trace, |old(w.trace)|, p, first.status, first.body)
    // The recorded bytes are put exactly when the service has the reservation
    // but not its object, and the reservation has time left.
    ensures NotYet(first) && reserved.expiresAt > now ==>
              reserved.id.Some? && exists data :: Digest(data) == v.upload.value.hash && w.sys.puts == old(w.sys).puts + {(reserved.id.value, data)}
    ensures !(NotYet(first) && reserved.expiresAt > now) ==> w.sys.puts == old(w.sys).puts
    ensures res == Err(ErrExpired) ==>
              first.Response? && first.status != 200 && first.code.NotUploaded? && (NotYet(first) ==> reserved.expiresAt <= now)
    ensures NotYet(first) && reserved.expiresAt <= now ==> res == Err(ErrExpired)
    // An object already there is as good as one just put.
    ensures res == Err(ErrObject) <==> put.Some? && put.value != 200 && put.value != 412
  {
    hide Grants, Step, RepliedIn, Honest, StoredAs;
    u, first, now, reserved, put := v, Lost, 0, v.upload.value, None;
    UploadIsBacked(w.trace);
    var data := ReadCiphertext(w, v.upload.value);
    if data.None? {
      return u, Err(ErrState), reserved, first, now, put;
    }
    if v.upload.value.id.None? {
      var failed;
      ghost var reply, at;
      u, failed, reply, at := ReserveUpload(w, p, v);
      if failed.Some? {
        return u, Err(failed.value), reserved, first, now, put;
      }
    }
    reserved := u.upload.value;
    // Complete first on retry: an earlier PUT may have succeeded.
    ghost var from := w.trace;
    u, res, first := CompleteUpload(w, p, u);
    if first.Response? {
      RepliedEarlier(w.trace, |old(w.trace)|, |from|, p, first.status, first.body);
    }
    if res.Ok? || !res.error.Refusal? || res.error.refusal != NotUploaded {
      return;
    }
    var time: int := Any();
    now := time;
    if u.upload.value.id.None? || u.upload.value.expiresAt <= time {
      return u, Err(ErrExpired), reserved, first, now, put;
    }
    ghost var answered := w.trace;
    u, res, put := PutAndComplete(w, p, u, data.value);
    RepliedLonger(answered, w.trace, |old(w.trace)|, p, first.status, first.body);
  }

  // `put` is what the PUT came to, if an answer came.
  method PutAndComplete(w: World, p: Pid, v: Account, data: Bytes) returns (u: Account, res: Result<Bundle, Error>, ghost put: Option<int>)
    requires Session(w, p, v) && !v.removed && v.box.Some? && v.upload.Some? && v.upload.value.id.Some? && Digest(data) == v.upload.value.hash
    modifies w
    ensures w.Valid() && Holds(w.sys, p) && old(w.trace) <= w.trace
    ensures w.sys.puts == old(w.sys).puts + {(v.upload.value.id.value, data)}
    ensures res.Ok? ==> w.sys.account == u && SignedIn(u) && u.upload.None? &&
                        StoredAs(w.sys, v.upload.value.hash, v.upload.value.createdAt, res.value)
    ensures w.faults == old(w.faults) + FaultsOf(res) && (res.Err? ==> !res.error.ErrExpired? && !res.error.ErrSize?)
    ensures |w.trace| > |old(w.trace)|
    // An object already there is as good as one just put.
    ensures res == Err(ErrObject) <==> put.Some? && put.value != 200 && put.value != 412
    ensures put.None? ==> res == Err(ErrNetwork)
  {
    hide Step, RepliedIn, Honest, StoredAs;
    u := v;
    var status := PutObject(w, p, data);
    put := status;
    if status.None? {
      return u, Err(ErrNetwork), put;
    }
    if status.value != 200 && status.value != 412 {
      return u, Err(ErrObject), put;
    }
    ghost var again;
    u, res, again := CompleteUpload(w, p, u);
  }

  method PutObject(w: World, p: Pid, data: Bytes) returns (status: Option<int>)
    requires w.Valid() && Holds(w.sys, p)
    requires var a := w.sys.account; a.upload.Some? && a.upload.value.id.Some? && Digest(data) == a.upload.value.hash
    modifies w
    ensures w.Valid() && Holds(w.sys, p) && old(w.trace) <= w.trace && w.sys.account == old(w.sys).account
    ensures w.sys.puts == old(w.sys).puts + {(w.sys.account.upload.value.id.value, data)} && |w.trace| > |old(w.trace)|
    ensures w.faults == old(w.faults) + if status.None? then 1 else 0
  {
    hide Step;
    SendsPut(w.sys, p, data);
    w.Do(SendPut(p, data));
    w.Interfere(p);
    status := Any();
    w.Note(status.Some?);
  }

  method ReserveUpload(w: World, p: Pid, v: Account) returns (u: Account, err: Option<Error>, ghost r: Response, ghost now: int)
    requires Session(w, p, v) && SignedIn(v) && v.upload.Some? && v.upload.value.id.None?
    modifies w
    ensures w.Valid() && Holds(w.sys, p) && old(w.trace) <= w.trace
    ensures w.sys.puts == old(w.sys).puts && (err.Some? ==> !err.value.ErrObject? && !err.value.ErrExpired? && !err.value.ErrSize?)
    // A reservation is taken whenever it fits the record.
    ensures r.Response? && w.faults == old(w.faults) ==>
              err == if r.status != 201 then Some(Failure(r)) else if !Reserves(v.upload.value, r.body, now) then Some(ErrProtocol) else None
    ensures r.Lost? && w.faults == old(w.faults) ==> err == Some(ErrLogin)
    ensures (err == Some(ErrLogin) <==> !Selectable(v, Backup)) && (err.None? ==> |w.trace| > |old(w.trace)|)
    ensures w.faults == old(w.faults) + Faults(err)
    ensures err.None? ==>
              && Session(w, p, u) && SignedIn(u) && w.sys.ciphertext == old(w.sys).ciphertext
              && u.upload.Some? && u.upload.value.id.Some?
              && u.upload.value == v.upload.value.(id := u.upload.value.id, expiresAt := u.upload.value.expiresAt)
  {
    hide Grants, Step, RepliedIn;
    r, now := Lost, 0;
    var want := v.upload.value;
    var reply, failed;
    u, reply, failed := AuthenticatedVia(w, p, v, Backup, Reservation);
    if failed.Some? {
      return u, failed, r, now;
    }
    r := reply;
    if reply.status != 201 {
      return u, Some(Failure(reply)), r, now;
    }
    var time: int := Any();
    now := time;
    if !reply.body.ReservationBody? || reply.body.maxBytes < want.bytes || reply.body.contentLength != want.bytes ||
       !reply.body.writeOnce || !reply.body.urlOk || reply.body.expiresAt <= time || reply.body.expiresAt > time + 16 * 60 * 1000 {
      return u, Some(ErrProtocol), r, now;
    }
    u := u.(upload := Some(want.(id := Some(reply.body.id), expiresAt := reply.body.expiresAt)));
    Reserved(w.sys, p, reply.body.id, reply.body.expiresAt, time);
    var ok := w.Save(u, Reserve(p, reply.body.id, reply.body.expiresAt, time));
    return u, if ok then None else Some(ErrState), r, now;
  }

  // `r` is the reply, once it was settled.
  method CompleteUpload(w: World, p: Pid, v: Account) returns (u: Account, res: Result<Bundle, Error>, ghost r: Response)
    requires Session(w, p, v) && !v.removed && v.box.Some? && v.upload.Some? && v.upload.value.id.Some?
    modifies w
    ensures w.Valid() && Holds(w.sys, p) && old(w.trace) <= w.trace && w.sys.puts == old(w.sys).puts
    ensures r.Response? ==> RepliedIn(w.trace, |old(w.trace)|, p, r.status, r.body)
    ensures res.Ok? ==> w.sys.account == u && SignedIn(u) && u.upload.None? && r.Response? && r.status == 200 && r.body == BundleBody(res.value) &&
                        StoredAs(w.sys, v.upload.value.hash, v.upload.value.createdAt, res.value)
    ensures res.Err? && res.error.Refusal? ==> r.Response? && r.status != 200 && res.error == Failure(r) && Session(w, p, u)
    ensures res.Err? && !res.error.Refusal? ==> res.error in {ErrRemoved, ErrLogin, ErrNetwork, ErrState, ErrProtocol}
    ensures r.Response? && r.status == 200 ==> res.Ok? || !res.error.Refusal?
    // Otherwise it succeeds exactly for a reply that names this very bundle.
    ensures r.Response? && w.faults == old(w.faults) && r.status == 200 ==>
              if Completes(v.upload.value, r.body) then res.Ok? else res == Err(ErrProtocol)
    ensures r.Response? && w.faults == old(w.faults) && r.status != 200 ==> res == Err(Failure(r))
    ensures r.Lost? && w.faults == old(w.faults) ==> res == Err(ErrLogin)
    ensures res == Err(ErrLogin) <==> !Selectable(v, Backup)
    ensures w.faults == old(w.faults) + FaultsOf(res)
    // The reservation goes exactly when the service has discarded it.
    ensures res.Err? && res.error.Refusal? && !Removal(r) ==>
              && !u.removed && u.box == v.box && w.sys.ciphertext == old(w.sys).ciphertext
              && u.upload == if r.status == 410 || r.status == 404 || (r.status == 409 && r.code.SizeMismatch?)
                             then Some(v.upload.value.(id := None, expiresAt := 0)) else v.upload
    ensures NotYet(r) ==> res == Err(Failure(r))
  {
    hide Grants, Step, RepliedIn, Honest;
    r := Lost;
    var want := v.upload.value;
    var reply, failed;
    u, reply, failed := AuthenticatedVia(w, p, v, Backup, Completion(want.id.value));
    if failed.Some? {
      return u, Err(failed.value), Lost;
    }
    r := reply;
    ghost var replied := w.trace;
    if reply.status != 200 {
      if reply.status == 410 || reply.status == 404 || (reply.status == 409 && reply.code.SizeMismatch?) {
        u, failed := DiscardReservation(w, p, u);
        RepliedLonger(replied, w.trace, |old(w.trace)|, p, r.status, r.body);
        if failed.Some? {
          return u, Err(ErrState), r;
        }
      }
      return u, Err(Failure(reply)), r;
    }
    if !reply.body.BundleBody? || reply.body.bundle.id != want.id.value || reply.body.bundle.bytes != want.bytes ||
       reply.body.bundle.createdAt != want.createdAt || reply.body.bundle.receivedAt <= 0 {
      return u, Err(ErrProtocol), r;
    }
    CompletedContent(w.trace);
    StoredUnder(w.sys, want, reply);
    MayComplete(w.sys, p, want);
    u, failed := ForgetUpload(w, p, u);
    RepliedLonger(replied, w.trace, |old(w.trace)|, p, r.status, r.body);
    return u, if failed.None? then Ok(reply.body.bundle) else Err(failed.value), r;
  }

  lemma StoredUnder(s: Sys, want: PendingUpload, r: Response)
    requires want.id.Some? && r.Response? && r.status == 200 && Honest(s, Completion(want.id.value), r)
    ensures want.id.value in s.objects && want.id.value in s.declared && |s.objects[want.id.value]| == |s.declared[want.id.value].of|
  {
  }

  // The reservation is gone; the ciphertext stays for the next run.
  method DiscardReservation(w: World, p: Pid, v: Account) returns (u: Account, err: Option<Error>)
    requires Session(w, p, v) && v.upload.Some? && v.upload.value.id.Some?
    requires Told(w.sys, p, Void) && w.sys.flights[p].locked && w.sys.flights[p].request == Completion(v.upload.value.id.value)
    modifies w
    ensures w.sys.puts == old(w.sys).puts
    ensures w.Valid() && Holds(w.sys, p) && old(w.trace) <= w.trace && w.sys.ciphertext == old(w.sys).ciphertext
    ensures u == v.(upload := Some(v.upload.value.(id := None, expiresAt := 0)))
    ensures err.None? ==> w.sys.account == u
    ensures (err.None? || err == Some(ErrState)) && w.faults == old(w.faults) + Faults(err)
  {
    u := v.(upload := Some(v.upload.value.(id := None, expiresAt := 0)));
    var ok := w.Save(u, Discard(p));
    return u, if ok then None else Some(ErrState);
  }

  lemma UploadIsBacked(es: seq<Event>)
    requires Legal(es)
    ensures UploadBacked(Exec(es).value.account, Exec(es).value.ciphertext)
  {
    AlwaysWellFormed(es);
  }

  lemma CompletedContent(es: seq<Event>)
    requires Legal(es) && Exec(es).value.account.upload.Some? && Exec(es).value.account.upload.value.id.Some?
    ensures var s := Exec(es).value; var want := s.account.upload.value;
            && want.id.value in s.declared && s.declared[want.id.value] == want.hash && want.bytes == |want.hash.of|
            && (want.id.value in s.objects ==> Digest(s.objects[want.id.value]) == want.hash)
  {
    AlwaysWellFormed(es);
  }

  // The record goes first, so no surviving record names a file already removed.
  method ForgetUpload(w: World, p: Pid, v: Account) returns (u: Account, err: Option<Error>)
    requires Session(w, p, v) && Step(w.sys, Completed(p)).Some?
    modifies w
    ensures w.Valid() && Holds(w.sys, p) && old(w.trace) <= w.trace
    ensures u == v.(upload := None) && w.sys.objects == old(w.sys).objects && w.sys.puts == old(w.sys).puts
    ensures err.None? ==> w.sys.account == u
    ensures (err.None? || err == Some(ErrState)) && w.faults == old(w.faults) + Faults(err)
  {
    u := v.(upload := None);
    var ok := w.Save(u, Completed(p));
    if !ok {
      return u, Some(ErrState);
    }
    var gone: bool := Any();
    if gone {
      w.Do(RemoveFile(p));
    }
    return u, None;
  }

  // ---- Recovery grants ----

  // `start` is the time it began at.
  method AuthorizeRecovery(w: World, p: Pid) returns (res: Result<Scope, Error>, ghost start: int)
    requires w.Valid() && !Holds(w.sys, p)
    modifies w
    ensures w.Valid() && !Holds(w.sys, p) && old(w.trace) <= w.trace
    ensures res.Ok? ==> SignedIn(w.sys.account) && w.sys.account.recovery.Some? && w.sys.account.recovery.value.scope == res.value
    ensures w.faults == old(w.faults) + FaultsOf(res)
  {
    start := 0;
    var open := w.Open(p);
    if !open {
      return Err(ErrBusy), start;
    }
    res, start := AuthorizeLocked(w, p);
    w.Close(p);
  }

  // A grant still in force.
  predicate Alive(a: Account, now: int) { a.recovery.Some? && a.recovery.value.scope.expiresAt > now }

  method AuthorizeLocked(w: World, p: Pid) returns (res: Result<Scope, Error>, ghost start: int)
    requires w.Valid() && Holds(w.sys, p)
    modifies w
    ensures w.Valid() && Holds(w.sys, p) && old(w.trace) <= w.trace
    ensures res.Ok? ==> SignedIn(w.sys.account) && w.sys.account.recovery.Some? && w.sys.account.recovery.value.scope == res.value
    // A grant still alive is handed out as it is, whichever box it was for; a
    // fresh one is always for the stored box.
    ensures SignedIn(old(w.sys).account) && Alive(old(w.sys).account, start) ==>
              res == Ok(old(w.sys).account.recovery.value.scope) && w.trace == old(w.trace)
    ensures res.Ok? && !Alive(old(w.sys).account, start) ==> res.value.box == w.sys.account.box
    ensures res == Err(ErrRemoved) <==> old(w.sys).account.removed
    ensures !old(w.sys).account.removed && !SignedIn(old(w.sys).account) ==> res == Err(ErrLogin)
    ensures w.faults == old(w.faults) + FaultsOf(res)
  {
    hide Step, RepliedIn, Honest;
    start := 0;
    var v := w.sys.account;
    if v.removed {
      return Err(ErrRemoved), start;
    }
    if v.box.None? || v.needsLogin {
      return Err(ErrLogin), start;
    }
    var now: int := Any();
    start := now;
    if v.recovery.Some? && v.recovery.value.scope.expiresAt > now {
      return Ok(v.recovery.value.scope), start;
    }
    var failed;
    ghost var reply;
    v, failed, reply := RequestGrant(w, p, v, now);
    if failed.Some? {
      return Err(failed.value), start;
    }
    var g := v.recovery.value;
    while now < g.requestExpiresAt
      invariant Session(w, p, v) && SignedIn(v) && v.recovery == Some(g) && old(w.trace) <= w.trace && w.faults == old(w.faults)
      decreases g.requestExpiresAt - now
    {
      var goOn := w.Try();
      if !goOn {
        return Err(ErrContext), start;
      }
      var later: nat := Any();
      now := now + 5000 + later;
      var done;
      ghost var polled;
      done, res, polled := PollGrant(w, p, v, now);
      if done {
        return;
      }
    }
    return Err(ErrApproval), start;
  }

  // The scope a poll may bring: of this box, and for half an hour at most.
  predicate ScopeFits(b: Body, box: Option<nat>, now: int) {
    b.ScopeBody? && b.scope.box == box && now < b.scope.expiresAt <= now + 31 * MINUTE
  }

  // `r` is the reply to the poll.
  method PollGrant(w: World, p: Pid, v: Account, now: int) returns (done: bool, res: Result<Scope, Error>, ghost r: Response)
    requires Session(w, p, v) && SignedIn(v) && v.recovery.Some? && v.recovery.value.userCode.Some?
    modifies w
    ensures w.Valid() && Holds(w.sys, p) && old(w.trace) <= w.trace
    ensures r.Response? ==> RepliedIn(w.trace, |old(w.trace)|, p, r.status, r.body)
    ensures done <==> r.Lost? || r.status != 202
    ensures !done ==> w.sys.account == v && w.faults == old(w.faults)
    ensures done ==> w.faults == old(w.faults) + FaultsOf(res)
    ensures r.Lost? ==> res == Err(ErrNetwork)
    ensures r.Response? && done && w.faults == old(w.faults) ==>
              res == if r.status != 200 then Err(Failure(r)) else if !ScopeFits(r.body, v.box, now) then Err(ErrProtocol) else Ok(r.body.scope)
    ensures done && res.Ok? ==>
              r.Response? && r.body == ScopeBody(res.value) && res.value.box == v.box &&
              w.sys.account == v.(recovery := Some(v.recovery.value.(scope := res.value)))
  {
    hide Step, RepliedIn, Honest;
    var reply := AskFor(w, p, GrantPoll);
    r := reply;
    if reply.Lost? {
      return true, Err(ErrNetwork), r;
    }
    if reply.status == 202 {
      return false, Err(ErrApproval), r;
    }
    if reply.status != 200 {
      return true, Err(Failure(reply)), r;
    }
    if !reply.body.ScopeBody? || reply.body.scope.box != v.box || reply.body.scope.expiresAt <= now ||
       reply.body.scope.expiresAt > now + 31 * 60 * 1000 {
      return true, Err(ErrProtocol), r;
    }
    ghost var replied := w.trace;
    var u := v.(recovery := Some(v.recovery.value.(scope := reply.body.scope)));
    SavesGrant(w.sys, p, u.recovery, now);
    var ok := w.Save(u, SaveGrant(p, u.recovery, now));
    RepliedLonger(replied, w.trace, |old(w.trace)|, p, r.status, r.body);
    return true, if ok then Ok(reply.body.scope) else Err(ErrState), r;
  }

  // A code for the stored transport key, for a quarter of an hour at most.
  predicate CodeFits(b: Body, key: Option<nat>, now: int) {
    b.CodeBody? && key == Some(b.userCode.key) && b.codeExpiresAt <= now + 16 * MINUTE
  }

  // A request is used again until it expires.
  predicate Requested(g: Option<Grant>, now: int) { g.Some? && (g.value.requestExpiresAt == 0 || g.value.requestExpiresAt > now) }

  // A saved secret first, then a code that commits to the stored transport key.
  // `r` is the reply, if one was needed.
  method RequestGrant(w: World, p: Pid, v: Account, now: int) returns (u: Account, err: Option<Error>, ghost r: Response)
    requires Session(w, p, v) && SignedIn(v)
    modifies w
    ensures w.Valid() && Holds(w.sys, p) && old(w.trace) <= w.trace
    ensures err.None? ==> w.sys.account == u && SignedIn(u) && u.box == v.box && u.recovery.Some? && u.recovery.value.userCode.Some?
    // The request stored before, or one whose code commits to the stored key.
    ensures err.None? ==> u.recovery == v.recovery || u.transportKey == Some(u.recovery.value.userCode.value.key)
    ensures Requested(v.recovery, now) && v.recovery.value.userCode.Some? ==> err.None? && u == v && w.trace == old(w.trace)
    ensures Requested(v.recovery, now) && err.None? ==> u.recovery.value.secret == v.recovery.value.secret
    ensures r.Response? && w.faults == old(w.faults) ==>
              err == if r.status != 200 then Some(Failure(r))
                     else if !CodeFits(r.body, v.transportKey, now) then Some(ErrProtocol)
                     else if r.body.codeExpiresAt <= now then Some(ErrApproval)
                     else None
    ensures r.Lost? && w.faults == old(w.faults) ==> err.None? || (err == Some(ErrLogin) && !Selectable(v, Backup))
    ensures err != Some(ErrRemoved) && w.faults == old(w.faults) + Faults(err)
  {
    hide Step, RepliedIn, Honest;
    u, r := v, Lost;
    if v.recovery.None? || (v.recovery.value.requestExpiresAt != 0 && v.recovery.value.requestExpiresAt <= now) {
      var secret: nat := Any();
      u := v.(recovery := Some(Grant(secret, None, 0, Scope(None, 0))));
      SavesGrant(w.sys, p, u.recovery, now);
      var ok := w.Save(u, SaveGrant(p, u.recovery, now));
      if !ok {
        return u, Some(ErrState), r;
      }
    }
    if u.recovery.value.userCode.Some? {
      return u, None, r;
    }
    var failed;
    u, failed, r := RequestCode(w, p, u, now);
    return u, failed, r;
  }

  method RequestCode(w: World, p: Pid, v: Account, now: int) returns (u: Account, err: Option<Error>, ghost r: Response)
    requires Session(w, p, v) && SignedIn(v) && v.recovery.Some? && v.recovery.value.userCode.None?
    modifies w
    ensures w.Valid() && Holds(w.sys, p) && old(w.trace) <= w.trace
    ensures err.None? ==> w.sys.account == u && SignedIn(u) && u.box == v.box && u.recovery.Some? && u.recovery.value.userCode.Some?
    ensures err.None? ==> u.transportKey == Some(u.recovery.value.userCode.value.key) && u.recovery.value.secret == v.recovery.value.secret
    ensures r.Response? && w.faults == old(w.faults) ==>
              err == if r.status != 200 then Some(Failure(r))
                     else if !CodeFits(r.body, v.transportKey, now) then Some(ErrProtocol)
                     else if r.body.codeExpiresAt <= now then Some(ErrApproval)
                     else None
    ensures r.Lost? && w.faults == old(w.faults) ==> err == Some(ErrLogin) && !Selectable(v, Backup)
    ensures err != Some(ErrRemoved) && w.faults == old(w.faults) + Faults(err)
  {
    hide Step, RepliedIn, Honest;
    r := Lost;
    var reply, failed;
    u, reply, failed := AuthenticatedVia(w, p, v, Backup, GrantStart);
    if failed.Some? {
      return u, failed, r;
    }
    r := reply;
    if reply.status != 200 {
      return u, Some(Failure(reply)), r;
    }
    if !reply.body.CodeBody? || u.transportKey != Some(reply.body.userCode.key) || reply.body.codeExpiresAt > now + 16 * 60 * 1000 {
      return u, Some(ErrProtocol), r;
    }
    if reply.body.codeExpiresAt <= now {
      u := u.(recovery := None);
      SavesGrant(w.sys, p, None, now);
      var ok := w.Save(u, SaveGrant(p, None, now));
      return u, Some(if ok then ErrApproval else ErrState), r;
    }
    u := u.(recovery := Some(u.recovery.value.(userCode := Some(reply.body.userCode), requestExpiresAt := reply.body.codeExpiresAt)));
    SavesGrant(w.sys, p, u.recovery, now);
    var ok := w.Save(u, SaveGrant(p, u.recovery, now));
    return u, if ok then None else Some(ErrState), r;
  }

  // `r` is the reply, `now` the time the grant was looked at.
  method RecoveryPost(w: World, p: Pid) returns (res: Result<Scope, Error>, ghost r: Response, ghost now: int)
    requires w.Valid() && !Holds(w.sys, p)
    modifies w
    ensures w.Valid() && !Holds(w.sys, p) && old(w.trace) <= w.trace
    ensures res.Ok? ==> res.value.box == w.sys.account.box
    ensures res == Err(Refusal(401, RemovedCode)) ==> w.sys.account.removed
    ensures res.Ok? ==> r.Response? && r.status == 200
    ensures w.faults == old(w.faults) + FaultsOf(res)
  {
    r, now := Lost, 0;
    var open := w.Open(p);
    if !open {
      return Err(ErrBusy), r, now;
    }
    res, r, now := RecoveryPostLocked(w, p);
    w.Close(p);
  }

  method RecoveryPostLocked(w: World, p: Pid) returns (res: Result<Scope, Error>, ghost r: Response, ghost now: int)
    requires w.Valid() && Holds(w.sys, p)
    modifies w
    ensures w.Valid() && Holds(w.sys, p) && old(w.trace) <= w.trace
    // A grant of another enrolment is never sent, nor one that has expired.
    ensures var a := old(w.sys).account;
            !SignedIn(a) || a.recovery.None? || a.recovery.value.scope.box != a.box || !Alive(a, now) ==>
              && w.trace == old(w.trace)
              && res == Err(if a.removed then ErrRemoved else if !SignedIn(a) then ErrLogin else ErrApproval)
    ensures res.Ok? ==> w.sys.account == old(w.sys).account && res.value.box == w.sys.account.box
    ensures res == Err(Refusal(401, RemovedCode)) ==> w.sys.account.removed
    // The reply is passed on; a refusal of the grant drops it.
    ensures r.Response? ==> RepliedIn(w.trace, |old(w.trace)|, p, r.status, r.body)
    ensures r.Response? && w.faults == old(w.faults) ==>
              && old(w.sys).account.recovery.Some?
              && res == if r.status == 200 then Ok(old(w.sys).account.recovery.value.scope)
                        else if r.status == 401 && !Removal(r) then Err(ErrApproval)
                        else Err(Failure(r))
    ensures r.Response? && w.faults == old(w.faults) && r.status == 401 && !Removal(r) ==> w.sys.account == old(w.sys).account.(recovery := None)
    // One that is alive and of this box is sent.
    ensures var a := old(w.sys).account;
            SignedIn(a) && a.recovery.Some? && a.recovery.value.scope.box == a.box && Alive(a, now) ==> r.Response? || w.faults > old(w.faults)
    ensures res.Ok? ==> r.Response? && r.status == 200
    ensures w.faults == old(w.faults) + FaultsOf(res)
  {
    hide Step, RepliedIn, Honest;
    r, now := Lost, 0;
    var v := w.sys.account;
    if v.removed {
      return Err(ErrRemoved), r, now;
    }
    if v.needsLogin || v.box.None? {
      return Err(ErrLogin), r, now;
    }
    var time: int := Any();
    now := time;
    if v.recovery.None? || v.recovery.value.scope.expiresAt <= time || v.recovery.value.scope.box != v.box {
      return Err(ErrApproval), r, now;
    }
    res, r := SendGrant(w, p, v, time);
  }

  // The grant is sent, and a refusal of it or of the box recorded.
  method SendGrant(w: World, p: Pid, v: Account, now: int) returns (res: Result<Scope, Error>, ghost r: Response)
    requires Session(w, p, v) && SignedIn(v) && v.recovery.Some? && v.recovery.value.scope.box == v.box
    modifies w
    ensures w.Valid() && Holds(w.sys, p) && old(w.trace) <= w.trace
    ensures res.Ok? ==> w.sys.account == v && res.value == v.recovery.value.scope
    ensures res == Err(Refusal(401, RemovedCode)) ==> w.sys.account.removed
    ensures r.Response? ==> RepliedIn(w.trace, |old(w.trace)|, p, r.status, r.body)
    ensures r.Response? && w.faults == old(w.faults) ==>
              res == if r.status == 200 then Ok(v.recovery.value.scope)
                     else if r.status == 401 && !Removal(r) then Err(ErrApproval)
                     else Err(Failure(r))
    ensures r.Response? && w.faults == old(w.faults) && r.status == 401 && !Removal(r) ==> w.sys.account == v.(recovery := None)
    ensures r.Lost? ==> res == Err(ErrNetwork)
    ensures res.Ok? ==> r.Response? && r.status == 200
    ensures w.faults == old(w.faults) + FaultsOf(res)
  {
    hide Step, RepliedIn, Honest;
    UsesGrant(w.sys, p);
    w.Do(UseGrant(p));
    var reply := w.Exchange(p);
    r := reply;
    if reply.Lost? {
      return Err(ErrNetwork), r;
    }
    ghost var replied := w.trace;
    RepliedLast(replied, |old(w.trace)|, p, reply);
    if Removal(reply) {
      var u, ok := MarkRemovedDurably(w, p, v);
      RepliedLonger(replied, w.trace, |old(w.trace)|, p, r.status, r.body);
      return Err(if ok then Failure(reply) else ErrState), r;
    }
    if reply.status == 401 {
      SavesGrant(w.sys, p, None, now);
      var ok := w.Save(v.(recovery := None), SaveGrant(p, None, now));
      RepliedLonger(replied, w.trace, |old(w.trace)|, p, r.status, r.body);
      return Err(if ok then ErrApproval else ErrState), r;
    }
    if reply.status != 200 {
      return Err(Failure(reply)), r;
    }
    return Ok(v.recovery.value.scope), r;
  }
}
