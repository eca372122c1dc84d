// What each event of the account protocol does when it can happen, so that the
// client's proofs need not look into the transition function.
module AccountSteps {
  import opened Basics
  import opened AccountProtocol

  lemma Selects(s: Sys, p: Pid, cap: Capability, request: Request)
    requires Holds(s, p) && Selectable(s.account, cap)
    ensures Step(s, Select(p, cap, Selected(s.account.tokens[cap]), request)) ==
              Some(s.(flights := s.flights[p := Flight(s.account.box, Bearer(cap, s.account.tokens[cap]), request, true, Waiting, Lost)]))
  {
    hide Grants, Settled;
  }

  lemma UsesGrant(s: Sys, p: Pid)
    requires Holds(s, p) && SignedIn(s.account) && s.account.recovery.Some? && s.account.recovery.value.scope.box == s.account.box
    ensures Step(s, UseGrant(p)) == Some(s.(flights := s.flights[p := Flight(s.account.box, ByGrant, GrantUse, true, Waiting, Lost)]))
  {
    hide Grants, Settled;
  }

  lemma Asks(s: Sys, p: Pid, request: Request)
    requires Holds(s, p)
    requires match request
      case DeviceStart => MayEnrol(s.account)
      case DevicePoll => MayEnrol(s.account) && s.account.device.Some?
      case GrantPoll => SignedIn(s.account) && s.account.recovery.Some?
      case _ => false
    ensures Step(s, Ask(p, request)) == Some(s.(flights := s.flights[p := Flight(s.account.box, ByNobody, request, true, Waiting, Lost)]))
  {
    hide Grants, Settled;
  }

  lemma Answers(s: Sys, p: Pid, r: Response)
    requires Told(s, p, Waiting) && r.Response? && Honest(s, s.flights[p].request, r)
    ensures Step(s, Reply(p, r)) == Some(s.(flights := s.flights[p := s.flights[p].(answer := Classify(s.flights[p].request, r), reply := r)]))
  {
    hide Grants, Settled;
  }

  lemma Settles(s: Sys, p: Pid)
    requires Holds(s, p) && p in s.flights
    ensures Step(s, Settle(p)) == Some(s.(account := Settled(s.account, s.flights[p])))
  {
    hide Grants, Settled;
  }

  lemma StoresPending(s: Sys, p: Pid, token: Token)
    requires Holds(s, p) && !s.account.removed && AcceptedUnderLock(s, p, token.cap) && Replied(s, p, Rotation, 200)
    requires s.flights[p].reply.body == TokenBody(token) && token.cap in s.account.tokens && s.account.tokens[token.cap].pending.None?
    ensures var a := s.account;
            Step(s, StorePending(p, token)) ==
              Some(s.(account := a.(tokens := a.tokens[token.cap := Credential(a.tokens[token.cap].current, Some(token))]),
                      flights := s.flights - {p}, stored := s.stored + {token}))
  {
    hide Grants, Settled;
  }

  lemma LoginBegins(s: Sys, p: Pid, key: nat)
    requires Holds(s, p) && MayEnrol(s.account)
    ensures Step(s, LoginKey(p, key)) == Some(s.(account := s.account.(transportKey := Some(key), device := None)))
  {
    hide Grants, Settled;
  }

  lemma LoginGoesOn(s: Sys, p: Pid, d: Device, now: int)
    requires Holds(s, p) && MayEnrol(s.account) && s.account.transportKey == Some(d.userCode.key) && Replied(s, p, DeviceStart, 200)
    requires Starts(d.userCode.key, s.flights[p].reply.body)
    requires d == s.flights[p].reply.body.device.(expiresAt := now + s.flights[p].reply.body.expiresIn)
    ensures Step(s, LoginDevice(p, d, now)) == Some(s.(account := s.account.(device := Some(d))))
  {
    hide Grants, Settled;
  }

  lemma LoginLengthens(s: Sys, p: Pid, interval: int)
    requires Holds(s, p) && s.account.device.Some? && Replied(s, p, DevicePoll, 429)
    requires interval == Max(s.account.device.value.interval + 5, s.flights[p].reply.retryAfter)
    ensures Step(s, LoginInterval(p, interval)) == Some(s.(account := s.account.(device := Some(s.account.device.value.(interval := interval)))))
  {
    hide Grants, Settled;
  }

  lemma LoginExpires(s: Sys, p: Pid)
    requires Holds(s, p) && Replied(s, p, DevicePoll, 410)
    ensures Step(s, LoginExpired(p)) == Some(s.(account := s.account.(device := None)))
  {
    hide Grants, Settled;
  }

  lemma LoginEnds(s: Sys, p: Pid, box: nat, sync: Token, backup: Token)
    requires Holds(s, p) && MayEnrol(s.account) && ValidToken(sync, Sync) && ValidToken(backup, Backup)
    requires Replied(s, p, DevicePoll, 200) && s.flights[p].reply.body == EnrolledBody(box, sync, backup)
    ensures Step(s, LoginDone(p, box, sync, backup)) ==
              Some(s.(account := s.account.(box := Some(box), needsLogin := false, removed := false, device := None, upload := None,
                                            tokens := map[Sync := Credential(sync, None), Backup := Credential(backup, None)]),
                      flights := s.flights - {p}, stored := s.stored + {sync, backup}))
  {
    hide Grants, Settled;
  }

  lemma WritesFile(s: Sys, p: Pid, data: Bytes)
    requires Holds(s, p) && s.account.upload.None?
    ensures Step(s, WriteFile(p, data)) == Some(s.(ciphertext := Some(data)))
  {
    hide Grants, Settled;
  }

  lemma Records(s: Sys, p: Pid, createdAt: int)
    requires Holds(s, p) && SignedIn(s.account) && s.account.upload.None? && s.ciphertext.Some? && 1 <= |s.ciphertext.value| <= LIMIT
    ensures Step(s, RecordUpload(p, createdAt)) ==
              Some(s.(account := s.account.(upload := Some(PendingUpload(None, Digest(s.ciphertext.value), |s.ciphertext.value|, createdAt, 0)))))
  {
    hide Grants, Settled;
  }

  lemma SendsPut(s: Sys, p: Pid, data: Bytes)
    requires Holds(s, p) && s.account.upload.Some? && s.account.upload.value.id.Some? && Digest(data) == s.account.upload.value.hash
    ensures Step(s, SendPut(p, data)) == Some(s.(puts := s.puts + {(s.account.upload.value.id.value, data)}))
  {
    hide Grants, Settled;
  }

  lemma Reserved(s: Sys, p: Pid, id: nat, expiresAt: int, now: int)
    requires Holds(s, p) && AcceptedUnderLock(s, p, Backup) && s.account.upload.Some? && s.account.upload.value.id.None? && id !in s.declared
    requires Replied(s, p, Reservation, 201) && Reserves(s.account.upload.value, s.flights[p].reply.body, now)
    requires s.flights[p].reply.body.id == id && s.flights[p].reply.body.expiresAt == expiresAt
    ensures Step(s, Reserve(p, id, expiresAt, now)) ==
              Some(s.(account := s.account.(upload := Some(s.account.upload.value.(id := Some(id), expiresAt := expiresAt))),
                      declared := s.declared[id := s.account.upload.value.hash]))
  {
    hide Grants, Settled;
  }

  lemma MayComplete(s: Sys, p: Pid, want: PendingUpload)
    requires Holds(s, p) && AcceptedUnderLock(s, p, Backup) && s.account.upload == Some(want) && want.id.Some?
    requires Replied(s, p, Completion(want.id.value), 200) && Completes(want, s.flights[p].reply.body)
    requires want.id.value in s.objects && |s.objects[want.id.value]| == want.bytes
    ensures Step(s, Completed(p)) == Some(s.(account := s.account.(upload := None)))
  {
    hide Grants, Settled;
  }

  lemma SavesGrant(s: Sys, p: Pid, grant: Option<Grant>, now: int)
    requires Holds(s, p) && SignedIn(s.account) && Grants(s, p, grant, now)
    ensures Step(s, SaveGrant(p, grant, now)) == Some(s.(account := s.account.(recovery := grant)))
  {
    hide Grants, Settled;
  }
}
