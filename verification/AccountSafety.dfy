// What every run of the account protocol keeps, whatever the interleaving, the
// lost replies and the crashes.
module AccountSafety {
  import opened Basics
  import opened AccountProtocol

  // ---- The durable state is well formed at every crash point ----

  predicate TokensShaped(a: Account) {
    forall cap | cap in a.tokens ::
      && ValidToken(a.tokens[cap].current, cap)
      && (a.tokens[cap].pending.Some? ==> ValidToken(a.tokens[cap].pending.value, cap))
  }

  predicate RemovedIsEmpty(a: Account) {
    a.removed ==> a.needsLogin && a.tokens == map[] && a.upload.None? && a.recovery.None?
  }

  predicate DeviceCommits(a: Account) {
    a.device.Some? ==> a.transportKey == Some(a.device.value.userCode.key) && a.device.value.interval >= 5
  }

  predicate UploadBacked(a: Account, ciphertext: Option<Bytes>) {
    a.upload.Some? ==>
      && ciphertext.Some? && a.upload.value.hash == Digest(ciphertext.value) && a.upload.value.bytes == |ciphertext.value|
      && 1 <= a.upload.value.bytes <= LIMIT
  }

  predicate GrantApprovedByCode(a: Account) {
    a.recovery.Some? && a.recovery.value.scope.box.Some? ==> a.recovery.value.userCode.Some?
  }

  ghost predicate StoreWellFormed(a: Account, ciphertext: Option<Bytes>) {
    TokensShaped(a) && RemovedIsEmpty(a) && DeviceCommits(a) && UploadBacked(a, ciphertext) && GrantApprovedByCode(a)
  }

  ghost predicate WellFormed(s: Sys) { StoreWellFormed(s.account, s.ciphertext) }

  // ---- One reservation, one content ----

  ghost predicate ContentsDeclared(s: Sys) {
    && (forall put | put in s.puts :: put.0 in s.declared && s.declared[put.0] == Digest(put.1))
    && (forall id | id in s.objects :: id in s.declared && s.declared[id] == Digest(s.objects[id]))
    && (s.account.upload.Some? && s.account.upload.value.id.Some? ==>
          var u := s.account.upload.value;
          u.id.value in s.declared && s.declared[u.id.value] == u.hash)
  }

  predicate OfUpload(e: Event) {
    e.WriteFile? || e.RemoveFile? || e.RecordUpload? || e.Reserve? || e.SendPut? || e.PutArrives? || e.Discard? || e.Completed?
  }

  predicate OfLogin(e: Event) {
    e.LoginKey? || e.LoginDevice? || e.LoginInterval? || e.LoginExpired? || e.LoginDone?
  }

  lemma UploadKeepsWellFormed(s: Sys, e: Event)
    requires OfUpload(e) && WellFormed(s) && Step(s, e).Some?
    ensures WellFormed(Step(s, e).value)
  {
  }

  lemma LoginKeepsWellFormed(s: Sys, e: Event)
    requires OfLogin(e) && WellFormed(s) && Step(s, e).Some?
    ensures WellFormed(Step(s, e).value)
  {
  }

  lemma SettledKeepsWellFormed(a: Account, ciphertext: Option<Bytes>, f: Flight)
    requires StoreWellFormed(a, ciphertext)
    ensures StoreWellFormed(Settled(a, f), ciphertext)
  {
  }

  lemma PendingKeepsWellFormed(s: Sys, e: Event)
    requires e.StorePending? && WellFormed(s) && Step(s, e).Some?
    ensures WellFormed(Step(s, e).value)
  {
    hide Grants, Settled;
  }

  lemma RequestSparesStore(s: Sys, e: Event)
    requires !OfUpload(e) && !OfLogin(e) && !e.SaveGrant? && !e.Settle? && !e.StorePending? && Step(s, e).Some?
    ensures Step(s, e).value.account == s.account && Step(s, e).value.ciphertext == s.ciphertext
  {
    hide Grants, Settled;
  }

  lemma GrantKeepsWellFormed(s: Sys, e: Event)
    requires e.SaveGrant? && WellFormed(s) && Step(s, e).Some?
    ensures WellFormed(Step(s, e).value)
  {
  }

  lemma StepKeepsWellFormed(s: Sys, e: Event)
    requires WellFormed(s) && Step(s, e).Some?
    ensures WellFormed(Step(s, e).value)
  {
    hide StoreWellFormed, Step, Settled;
    if OfUpload(e) {
      UploadKeepsWellFormed(s, e);
    } else if OfLogin(e) {
      LoginKeepsWellFormed(s, e);
    } else if e.SaveGrant? {
      GrantKeepsWellFormed(s, e);
    } else if e.StorePending? {
      PendingKeepsWellFormed(s, e);
    } else if e.Settle? {
      SettleStores(s, e.p);
      SettledKeepsWellFormed(s.account, s.ciphertext, s.flights[e.p]);
    } else {
      RequestSparesStore(s, e);
    }
  }

  lemma SettleStores(s: Sys, p: Pid)
    requires Step(s, Settle(p)).Some?
    ensures p in s.flights && Step(s, Settle(p)).value == s.(account := Settled(s.account, s.flights[p]))
  {
    hide Settled;
  }

  lemma UploadKeepsContents(s: Sys, e: Event)
    requires OfUpload(e) && WellFormed(s) && ContentsDeclared(s) && Step(s, e).Some?
    ensures ContentsDeclared(Step(s, e).value)
  {
  }

  lemma OthersKeepContents(s: Sys, e: Event)
    requires !OfUpload(e) && Step(s, e).Some?
    ensures var t := Step(s, e).value;
            && t.declared == s.declared && t.puts == s.puts && t.objects == s.objects
            && (t.account.upload == s.account.upload || t.account.upload.None?)
  {
  }

  lemma StepKeepsContents(s: Sys, e: Event)
    requires WellFormed(s) && ContentsDeclared(s) && Step(s, e).Some?
    ensures ContentsDeclared(Step(s, e).value)
  {
    if OfUpload(e) {
      UploadKeepsContents(s, e);
    } else {
      OthersKeepContents(s, e);
    }
  }

  lemma {:induction false} AlwaysWellFormed(es: seq<Event>)
    requires Legal(es)
    ensures WellFormed(Exec(es).value) && ContentsDeclared(Exec(es).value)
    decreases |es|
  {
    if es != [] {
      AlwaysWellFormed(es[..|es| - 1]);
      StepKeepsWellFormed(Exec(es[..|es| - 1]).value, es[|es| - 1]);
      StepKeepsContents(Exec(es[..|es| - 1]).value, es[|es| - 1]);
    }
  }

  // Every PUT ever sent for one reservation carries the same bytes, and so does
  // the object stored for it: a refused second PUT can be taken as success.
  lemma OneContentPerReservation(es: seq<Event>, id: nat, data: Bytes, other: Bytes)
    requires Legal(es)
    requires (id, data) in Exec(es).value.puts
    requires (id, other) in Exec(es).value.puts || (id in Exec(es).value.objects && Exec(es).value.objects[id] == other)
    ensures data == other
  {
    AlwaysWellFormed(es);
  }

  // ---- Credential order ----

  // The tokens stored for a capability since the last login, oldest first.
  function Chain(es: seq<Event>, cap: Capability): seq<Token> {
    if es == [] then []
    else
      var before := Chain(es[..|es| - 1], cap);
      Extend(before, es[|es| - 1], cap)
  }

  function Extend(chain: seq<Token>, e: Event, cap: Capability): seq<Token> {
    match e
    case LoginDone(_, _, sync, backup) => [if cap.Sync? then sync else backup]
    case StorePending(_, token) => if token.cap == cap then chain + [token] else chain
    case _ => chain
  }

  // A stored credential is the newest token of its chain, alone or pending
  // beside its immediate predecessor.
  ghost predicate TracksChain(a: Account, cap: Capability, chain: seq<Token>) {
    cap in a.tokens ==>
      var c := a.tokens[cap];
      && chain != []
      && Selected(c) == chain[|chain| - 1]
      && (c.pending.Some? ==> |chain| >= 2 && c.current == chain[|chain| - 2])
  }

  lemma StepTracksChain(s: Sys, e: Event, cap: Capability, chain: seq<Token>)
    requires TracksChain(s.account, cap, chain) && Step(s, e).Some?
    ensures TracksChain(Step(s, e).value.account, cap, Extend(chain, e, cap))
  {
    hide Step, Settled;
    if e.Settle? {
      SettleStores(s, e.p);
      SettledTracksChain(s.account, s.flights[e.p], cap, chain);
    } else if StoresTokens(e) {
      StoringTracksChain(s, e, cap, chain);
    } else {
      OthersKeepTokens(s, e);
    }
  }

  lemma StoringTracksChain(s: Sys, e: Event, cap: Capability, chain: seq<Token>)
    requires TracksChain(s.account, cap, chain) && Step(s, e).Some? && StoresTokens(e)
    ensures TracksChain(Step(s, e).value.account, cap, Extend(chain, e, cap))
  {
    hide Grants, Settled;
  }

  lemma OthersKeepTokens(s: Sys, e: Event)
    requires Step(s, e).Some? && !StoresTokens(e) && !e.Settle?
    ensures Step(s, e).value.account.tokens == s.account.tokens
  {
    hide Grants, Settled;
  }

  lemma SettledTracksChain(a: Account, f: Flight, cap: Capability, chain: seq<Token>)
    requires TracksChain(a, cap, chain)
    ensures TracksChain(Settled(a, f), cap, chain)
  {
  }

  lemma {:induction false} AlwaysTracksChain(es: seq<Event>, cap: Capability)
    requires Legal(es)
    ensures TracksChain(Exec(es).value.account, cap, Chain(es, cap))
    decreases |es|
  {
    if es != [] {
      AlwaysTracksChain(es[..|es| - 1], cap);
      StepTracksChain(Exec(es[..|es| - 1]).value, es[|es| - 1], cap, Chain(es[..|es| - 1], cap));
    }
  }

  ghost predicate NoLogin(es: seq<Event>, i: nat, j: nat)
    requires i <= j <= |es|
  {
    forall k | i <= k < j :: !es[k].LoginDone?
  }

  lemma {:induction false} ChainGrows(es: seq<Event>, i: nat, j: nat, cap: Capability)
    requires i <= j <= |es| && NoLogin(es, i, j)
    ensures Chain(es[..i], cap) <= Chain(es[..j], cap)
    decreases j
  {
    if i < j {
      ChainGrows(es, i, j - 1, cap);
      assert es[..j][..j - 1] == es[..j - 1];
    }
  }

  // Selection always yields the newest successor ever stored in this enrolment.
  lemma SelectsNewest(es: seq<Event>, i: nat)
    requires i < |es| && Legal(es) && es[i].Select?
    ensures Chain(es[..i], es[i].cap) != []
    ensures es[i].token == Chain(es[..i], es[i].cap)[|Chain(es[..i], es[i].cap)| - 1]
  {
    PrefixLegal(es, i);
    PrefixLegal(es, i + 1);
    assert es[..i + 1] == es[..i] + [es[i]];
    ExecSnoc(es[..i], es[i]);
    AlwaysTracksChain(es[..i], es[i].cap);
  }

  // ---- A chain holds what the service issued, each token once ----

  // What a reply taken under a lock still held would have the box store.
  predicate NewTokens(f: Flight, stored: set<Token>) {
    && (f.request.Rotation? && Success(f.reply) && f.reply.body.TokenBody? ==> f.reply.body.token !in stored)
    && (f.request.DevicePoll? && Success(f.reply) && f.reply.body.EnrolledBody? ==>
          f.reply.body.sync !in stored && f.reply.body.backup !in stored)
  }

  ghost predicate RepliesAreNew(s: Sys) {
    forall p | p in s.flights && s.flights[p].locked :: s.holder == Some(p) && NewTokens(s.flights[p], s.stored)
  }

  predicate StoresTokens(e: Event) { e.StorePending? || e.LoginDone? }

  lemma StoringKeepsNew(s: Sys, e: Event)
    requires RepliesAreNew(s) && Step(s, e).Some? && StoresTokens(e)
    ensures RepliesAreNew(Step(s, e).value)
  {
    hide Grants, Settled, NewTokens;
  }

  lemma ReplyKeepsNew(s: Sys, e: Event)
    requires RepliesAreNew(s) && Step(s, e).Some? && e.Reply?
    ensures RepliesAreNew(Step(s, e).value)
  {
    hide Grants, Settled;
  }

  lemma OthersKeepNew(s: Sys, e: Event)
    requires RepliesAreNew(s) && Step(s, e).Some? && !StoresTokens(e) && !e.Reply?
    ensures RepliesAreNew(Step(s, e).value)
  {
    hide Grants, Settled;
  }

  lemma {:induction false} AlwaysNew(es: seq<Event>)
    requires Legal(es)
    ensures RepliesAreNew(Exec(es).value)
    decreases |es|
  {
    hide Step, RepliesAreNew;
    if es == [] {
      NoRepliesYet();
    } else {
      var s, e := Exec(es[..|es| - 1]).value, es[|es| - 1];
      AlwaysNew(es[..|es| - 1]);
      if StoresTokens(e) {
        StoringKeepsNew(s, e);
      } else if e.Reply? {
        ReplyKeepsNew(s, e);
      } else {
        OthersKeepNew(s, e);
      }
    }
  }

  lemma NoRepliesYet()
    ensures RepliesAreNew(Initial)
  {
  }

  lemma StoresOnlyNew(s: Sys, e: Event)
    requires RepliesAreNew(s) && Step(s, e).Some?
    ensures s.stored <= Step(s, e).value.stored
    ensures e.StorePending? ==> e.token !in s.stored && e.token in Step(s, e).value.stored
    ensures e.LoginDone? ==> {e.sync, e.backup} !! s.stored && {e.sync, e.backup} <= Step(s, e).value.stored
  {
    hide Grants, Settled;
  }

  ghost predicate Distinct(ts: seq<Token>) {
    forall i, j | 0 <= i < j < |ts| :: ts[i] != ts[j]
  }

  // No chain holds a token twice, because the service never answers with one
  // the box has stored before.
  lemma {:induction false} ChainIsDistinct(es: seq<Event>, cap: Capability)
    requires Legal(es)
    ensures Distinct(Chain(es, cap)) && forall t | t in Chain(es, cap) :: t in Exec(es).value.stored
    decreases |es|
  {
    hide Step, RepliesAreNew;
    if es != [] {
      var before := es[..|es| - 1];
      ChainIsDistinct(before, cap);
      AlwaysNew(before);
      StoresOnlyNew(Exec(before).value, es[|es| - 1]);
    }
  }

  predicate Issues(r: Response, t: Token) {
    r.Response? && r.status == 200 && (r.body == TokenBody(t) || (r.body.EnrolledBody? && (r.body.sync == t || r.body.backup == t)))
  }

  ghost predicate ReplyCame(es: seq<Event>, p: Pid, r: Response) {
    exists k :: 0 <= k < |es| && es[k] == Reply(p, r)
  }

  lemma StepKeepsReplies(s: Sys, e: Event, p: Pid)
    requires Step(s, e).Some?
    ensures var t := Step(s, e).value;
            p in t.flights && t.flights[p].reply.Response? ==>
              e == Reply(p, t.flights[p].reply) || (p in s.flights && s.flights[p].reply == t.flights[p].reply)
  {
    hide Grants, Settled;
  }

  lemma {:induction false} RepliesCame(es: seq<Event>, p: Pid)
    requires Legal(es) && p in Exec(es).value.flights && Exec(es).value.flights[p].reply.Response?
    ensures ReplyCame(es, p, Exec(es).value.flights[p].reply)
    decreases |es|
  {
    hide Step;
    if es == [] {
      assert false;
    }
    var n := |es| - 1;
    var r := Exec(es).value.flights[p].reply;
    StepKeepsReplies(Exec(es[..n]).value, es[n], p);
    if es[n] != Reply(p, r) {
      RepliesCame(es[..n], p);
      var k :| 0 <= k < n && es[..n][k] == Reply(p, r);
      assert es[k] == Reply(p, r);
    }
  }

  // What came of an answer is what its reply says.
  predicate Classified(s: Sys, p: Pid) {
    p in s.flights ==>
      var f := s.flights[p];
      if f.reply.Response? then f.answer == Classify(f.request, f.reply) else f.answer.Waiting?
  }

  lemma StepKeepsClassified(s: Sys, e: Event, p: Pid)
    requires Classified(s, p) && Step(s, e).Some?
    ensures Classified(Step(s, e).value, p)
  {
    hide Grants, Settled, Classify;
  }

  lemma {:induction false} AlwaysClassified(es: seq<Event>, p: Pid)
    requires Legal(es)
    ensures Classified(Exec(es).value, p)
  {
    hide Step;
    if es != [] {
      AlwaysClassified(es[..|es| - 1], p);
      StepKeepsClassified(Exec(es[..|es| - 1]).value, es[|es| - 1], p);
    }
  }

  // A reservation is discarded only after the service answered that it is gone,
  // or that its object has another size, to a request to complete this very one.
  lemma DiscardedOnlyWhen(es: seq<Event>, i: nat)
    requires Legal(es) && i < |es| && es[i].Discard?
    ensures Legal(es[..i]) && var s := Exec(es[..i]).value;
            && s.account.upload.Some? && s.account.upload.value.id.Some? && es[i].p in s.flights
            && s.flights[es[i].p].request == Completion(s.account.upload.value.id.value)
            && exists k :: 0 <= k < i && RepliedVoid(es[k], es[i].p, s.flights[es[i].p].reply)
  {
    StepAt(es, i);
    var before, p := Exec(es[..i]).value, es[i].p;
    AlwaysClassified(es[..i], p);
    RepliesCame(es[..i], p);
    var k :| 0 <= k < i && es[..i][k] == Reply(p, before.flights[p].reply);
    assert RepliedVoid(es[k], p, before.flights[p].reply);
  }

  predicate RepliedVoid(e: Event, p: Pid, r: Response) {
    e == Reply(p, r) && r.Response? && (r.status == 410 || r.status == 404 || (r.status == 409 && r.code == SizeMismatch))
  }

  lemma StoresWhatWasReplied(s: Sys, e: Event, cap: Capability)
    requires Step(s, e).Some? && ((e.StorePending? && e.token.cap == cap) || e.LoginDone?)
    ensures var t := if e.StorePending? then e.token else if cap.Sync? then e.sync else e.backup;
            e.p in s.flights && Issues(s.flights[e.p].reply, t)
  {
    hide Grants, Settled;
  }

  // Every token of a chain is one the service gave in a reply of the run.
  lemma {:induction false} ChainIsIssued(es: seq<Event>, cap: Capability, t: Token)
    requires Legal(es) && t in Chain(es, cap)
    ensures exists k :: 0 <= k < |es| && es[k].Reply? && Issues(es[k].reply, t)
    decreases |es|
  {
    hide Step;
    var n := |es| - 1;
    if t in Chain(es[..n], cap) {
      ChainIsIssued(es[..n], cap, t);
      var k :| 0 <= k < n && es[..n][k].Reply? && Issues(es[..n][k].reply, t);
      assert es[k] == es[..n][k];
    } else {
      StoresWhatWasReplied(Exec(es[..n]).value, es[n], cap);
      RepliesCame(es[..n], es[n].p);
      var k :| 0 <= k < n && es[..n][k] == Reply(es[n].p, Exec(es[..n]).value.flights[es[n].p].reply);
      assert es[k] == es[..n][k];
    }
  }

  // Within one enrolment a later selection is at the same place of the chain or
  // further along it; each token has one place, so one once passed is never
  // selected again.
  lemma NeverStepsBack(es: seq<Event>, i: nat, j: nat)
    requires i < j < |es| && Legal(es) && NoLogin(es, i, j)
    requires es[i].Select? && es[j].Select? && es[i].cap == es[j].cap
    ensures var earlier, later := Chain(es[..i], es[i].cap), Chain(es[..j], es[i].cap);
            && 1 <= |earlier| <= |later|
            && later[|earlier| - 1] == es[i].token && later[|later| - 1] == es[j].token
            && (es[j].token != es[i].token ==> es[i].token in later[..|later| - 1])
            && (|earlier| < |later| ==> es[j].token != es[i].token)
  {
    PrefixLegal(es, j);
    ChainIsDistinct(es[..j], es[i].cap);
    ChainGrows(es, i, j, es[i].cap);
    SelectsNewest(es, i);
    SelectsNewest(es, j);
    var earlier, later := Chain(es[..i], es[i].cap), Chain(es[..j], es[i].cap);
    if |earlier| < |later| {
      assert later[..|later| - 1][|earlier| - 1] == es[i].token;
    }
  }

  // Once a successor is stored, no later selection of that enrolment yields any
  // token stored before it.
  lemma SuccessorRetiresPredecessors(es: seq<Event>, i: nat, j: nat, k: nat)
    requires i < j < |es| && Legal(es) && es[i].StorePending? && es[j].Select? && es[j].cap == es[i].token.cap
    requires NoLogin(es, i, j)
    requires k < |Chain(es[..i], es[j].cap)|
    ensures es[j].token != Chain(es[..i], es[j].cap)[k]
  {
    var cap := es[j].cap;
    PrefixLegal(es, j);
    ChainIsDistinct(es[..j], cap);
    ChainGrows(es, i + 1, j, cap);
    assert es[..i + 1][..i] == es[..i];
    assert Chain(es[..i + 1], cap) == Chain(es[..i], cap) + [es[i].token];
    SelectsNewest(es, j);
    assert Chain(es[..j], cap)[k] == Chain(es[..i], cap)[k];
  }

  // ---- Settlement ----

  // An answer to an outdated credential, or about another enrolment, changes
  // nothing at all.
  lemma StaleSettlementChangesNothing(s: Sys, p: Pid)
    requires Step(s, Settle(p)).Some?
    requires var f := s.flights[p];
             if f.answer.BoxRemoved? then s.account.box != f.box
             else f.authority.Bearer? && (f.authority.cap !in s.account.tokens || s.account.tokens[f.authority.cap] != f.authority.used)
    ensures Step(s, Settle(p)).value == s
  {
  }

  // Whatever the answer, settlement leaves a concurrent upload and recovery
  // grant alone, unless it records the removal of the very box in the store.
  lemma SettlementSparesOthers(s: Sys, p: Pid)
    requires WellFormed(s) && Step(s, Settle(p)).Some?
    ensures var t := Step(s, Settle(p)).value;
            || (t.account.upload == s.account.upload && t.account.recovery == s.account.recovery &&
                t.account.box == s.account.box && t.account.device == s.account.device && t.ciphertext == s.ciphertext &&
                forall cap | cap in s.account.tokens :: cap in t.account.tokens && Selected(t.account.tokens[cap]) == Selected(s.account.tokens[cap]))
            || (s.flights[p].answer.BoxRemoved? && s.flights[p].box == s.account.box && t.account == MarkRemoved(s.account))
  {
  }

  ghost predicate Erased(es: seq<Event>, i: nat, j: nat)
    requires i <= j <= |es|
  {
    exists k | i <= k < j :: es[k].LoginDone? || (es[k].Settle? && Exec(es[..k + 1]).Some? && Exec(es[..k + 1]).value.account.removed)
  }

  // Every stored successor stays pending, becomes current, or has been passed
  // by a later successor, until a login or a removal erases the credential.
  lemma SuccessorSurvives(es: seq<Event>, i: nat, j: nat)
    requires i < j <= |es| && Legal(es) && es[i].StorePending? && !Erased(es, i, j)
    ensures Legal(es[..j])
    ensures var a := Exec(es[..j]).value.account; var cap := es[i].token.cap;
            && cap in a.tokens
            && (|| a.tokens[cap].pending == Some(es[i].token)
                || a.tokens[cap].current == es[i].token
                || exists k | i < k < j :: es[k].StorePending? && es[k].token.cap == cap)
  {
    var cap := es[i].token.cap;
    CredentialKept(es, i, j);
    PrefixLegal(es, j);
    AlwaysTracksChain(es[..j], cap);
    if forall k | i < k < j :: !(es[k].StorePending? && es[k].token.cap == cap) {
      ChainUnchanged(es, i + 1, j, cap);
      assert es[..i + 1][..i] == es[..i];
    }
  }

  lemma {:induction false} ChainUnchanged(es: seq<Event>, i: nat, j: nat, cap: Capability)
    requires i <= j <= |es| && NoLogin(es, i, j)
    requires forall k | i <= k < j :: !(es[k].StorePending? && es[k].token.cap == cap)
    ensures Chain(es[..j], cap) == Chain(es[..i], cap)
    decreases j
  {
    if i < j {
      ChainUnchanged(es, i, j - 1, cap);
      assert es[..j][..j - 1] == es[..j - 1];
    }
  }

  lemma StepKeepsCredential(s: Sys, e: Event, cap: Capability)
    requires Step(s, e).Some? && !s.account.removed && !e.LoginDone?
    requires cap in s.account.tokens || (e.StorePending? && e.token.cap == cap)
    requires e.Settle? ==> !Step(s, e).value.account.removed
    ensures cap in Step(s, e).value.account.tokens && !Step(s, e).value.account.removed
  {
  }

  lemma {:induction false} CredentialKept(es: seq<Event>, i: nat, j: nat)
    requires i < j <= |es| && Legal(es) && es[i].StorePending? && !Erased(es, i, j)
    ensures NoLogin(es, i, j)
    ensures Legal(es[..j]) && es[i].token.cap in Exec(es[..j]).value.account.tokens && !Exec(es[..j]).value.account.removed
    decreases j
  {
    PrefixLegal(es, j - 1);
    PrefixLegal(es, j);
    assert es[..j] == es[..j - 1] + [es[j - 1]];
    ExecSnoc(es[..j - 1], es[j - 1]);
    if i < j - 1 {
      CredentialKept(es, i, j - 1);
    }
    assert es[..j - 1 + 1] == es[..j];
    StepKeepsCredential(Exec(es[..j - 1]).value, es[j - 1], es[i].token.cap);
  }

  // ---- Removal ----

  lemma StepStaysRemoved(s: Sys, e: Event)
    requires WellFormed(s) && s.account.removed && Step(s, e).Some?
    ensures !e.Select? && !e.UseGrant? && !e.RecordUpload? && !e.StorePending? && !e.SaveGrant? && !e.SendPut?
    ensures e.LoginDone? || Step(s, e).value.account.removed
  {
  }

  // Once a removal is recorded, no credential or grant is selected, nothing is
  // recorded for upload, and the box stays removed, until a login completes.
  lemma {:induction false} RemovedStaysSilent(es: seq<Event>, i: nat, j: nat)
    requires i <= j < |es| && Legal(es) && NoLogin(es, i, j)
    requires Exec(es[..i]).Some? && Exec(es[..i]).value.account.removed
    ensures !es[j].Select? && !es[j].UseGrant? && !es[j].RecordUpload? && !es[j].StorePending? && !es[j].SaveGrant? && !es[j].SendPut?
    ensures Exec(es[..j]).Some? && Exec(es[..j]).value.account.removed
    decreases j
  {
    PrefixLegal(es, j);
    if i < j {
      RemovedStaysSilent(es, i, j - 1);
      StepAt(es, j - 1);
      StepStaysRemoved(Exec(es[..j - 1]).value, es[j - 1]);
    }
    StepAt(es, j);
    StepStaysRemoved(Exec(es[..j]).value, es[j]);
  }

  lemma StepAt(es: seq<Event>, i: nat)
    requires Legal(es) && i < |es|
    ensures Legal(es[..i]) && Legal(es[..i + 1]) && Step(Exec(es[..i]).value, es[i]) == Exec(es[..i + 1])
    ensures WellFormed(Exec(es[..i]).value)
  {
    PrefixLegal(es, i);
    PrefixLegal(es, i + 1);
    assert es[..i + 1] == es[..i] + [es[i]];
    ExecSnoc(es[..i], es[i]);
    AlwaysWellFormed(es[..i]);
  }
}
