// What the step results of AccountSafety mean for requests in flight: an answer
// may come back any number of events after its credential was selected.
module AccountRuns {
  import opened Basics
  import opened AccountProtocol
  import opened AccountSafety
  import opened AccountSteps

  function At(es: seq<Event>, i: nat): Sys
    requires Legal(es) && i <= |es|
  {
    PrefixLegal(es, i);
    Exec(es[..i]).value
  }

  // A process's memory of its latest request ends with another, with what is
  // stored of its reply, or with the process.
  predicate BeginsAnew(e: Event) {
    e.Select? || e.UseGrant? || e.Ask? || e.StorePending? || e.LoginDone? || e.Crash?
  }

  predicate StillAsking(es: seq<Event>, i: nat, j: nat, p: Pid)
    requires i < j <= |es|
  {
    forall k | i < k < j :: Actor(es[k]) == Some(p) ==> !BeginsAnew(es[k])
  }

  lemma StepKeepsFlight(s: Sys, e: Event, p: Pid)
    requires Step(s, e).Some? && p in s.flights
    requires Actor(e) == Some(p) ==> !BeginsAnew(e)
    ensures var t := Step(s, e).value;
            p in t.flights && t.flights[p].box == s.flights[p].box && t.flights[p].authority == s.flights[p].authority
  {
  }

  // The flight remembers the enrolment and the credential of its selection.
  lemma {:induction false} FlightRemembers(es: seq<Event>, i: nat, j: nat)
    requires Legal(es) && i < j <= |es| && es[i].Select? && StillAsking(es, i, j, es[i].p)
    ensures es[i].cap in At(es, i).account.tokens
    ensures var p := es[i].p; var a := At(es, i).account;
            p in At(es, j).flights && At(es, j).flights[p].box == a.box &&
            At(es, j).flights[p].authority == Bearer(es[i].cap, a.tokens[es[i].cap])
    decreases j
  {
    StepAt(es, j - 1);
    if i < j - 1 {
      FlightRemembers(es, i, j - 1);
      StepKeepsFlight(At(es, j - 1), es[j - 1], es[i].p);
    }
  }

  // An answer settled after the stored credential has changed changes nothing,
  // and neither does a removal settled after the enrolment has.
  lemma OutdatedAnswerChangesNothing(es: seq<Event>, i: nat, j: nat)
    requires Legal(es) && i < j < |es| && es[i].Select? && es[j] == Settle(es[i].p) && StillAsking(es, i, j, es[i].p)
    requires Told(At(es, j), es[i].p, BoxRemoved) ==> At(es, j).account.box != At(es, i).account.box
    requires !Told(At(es, j), es[i].p, BoxRemoved) ==>
               es[i].cap !in At(es, j).account.tokens || es[i].cap !in At(es, i).account.tokens ||
               At(es, j).account.tokens[es[i].cap] != At(es, i).account.tokens[es[i].cap]
    ensures At(es, j + 1) == At(es, j)
  {
    FlightRemembers(es, i, j);
    StepAt(es, j);
    StaleSettlementChangesNothing(At(es, j), es[i].p);
  }

  // So once a successor has been stored in between, no late 200 or 401 for the
  // credential selected before it changes anything.
  lemma LateAnswerAfterRotation(es: seq<Event>, i: nat, k: nat, j: nat)
    requires Legal(es) && i < k < j < |es| && es[i].Select? && es[j] == Settle(es[i].p) && StillAsking(es, i, j, es[i].p)
    requires es[k].StorePending? && es[k].token.cap == es[i].cap && NoLogin(es, i, j)
    requires !Told(At(es, j), es[i].p, BoxRemoved)
    ensures At(es, j + 1) == At(es, j)
  {
    var cap := es[i].cap;
    FlightRemembers(es, i, j);
    PrefixLegal(es, i);
    PrefixLegal(es, j);
    AlwaysTracksChain(es[..i], cap);
    AlwaysTracksChain(es[..j], cap);
    ChainIsDistinct(es[..j], cap);
    ChainGrows(es, i, k, cap);
    ChainGrows(es, k + 1, j, cap);
    assert es[..k + 1][..k] == es[..k];
    assert Chain(es[..k + 1], cap) == Chain(es[..k], cap) + [es[k].token];
    assert |Chain(es[..i], cap)| < |Chain(es[..j], cap)| && Chain(es[..i], cap) <= Chain(es[..j], cap);
    OutdatedAnswerChangesNothing(es, i, j);
  }

  lemma StepSparesUpload(s: Sys, e: Event)
    requires WellFormed(s) && Step(s, e).Some? && !OfUpload(e) && !e.LoginDone? && !Step(s, e).value.account.removed
    ensures !s.account.removed
    ensures Step(s, e).value.account.upload == s.account.upload && Step(s, e).value.ciphertext == s.ciphertext
    ensures e.SaveGrant? || Step(s, e).value.account.recovery == s.account.recovery
  {
    if s.account.removed {
      StepStaysRemoved(s, e);
    }
  }

  // Whatever settles or rotates meanwhile, an unfinished upload and its
  // ciphertext stay as its own command left them, and a grant as its own did,
  // until a login or a recorded removal.
  lemma {:induction false} OthersSpareUploadAndGrant(es: seq<Event>, i: nat, j: nat)
    requires Legal(es) && i <= j <= |es| && NoLogin(es, i, j) && !At(es, j).account.removed
    requires forall k | i <= k < j :: !OfUpload(es[k])
    ensures At(es, j).account.upload == At(es, i).account.upload && At(es, j).ciphertext == At(es, i).ciphertext
    ensures (forall k | i <= k < j :: !es[k].SaveGrant?) ==> At(es, j).account.recovery == At(es, i).account.recovery
    decreases j
  {
    if i < j {
      StepAt(es, j - 1);
      StepSparesUpload(At(es, j - 1), es[j - 1]);
      OthersSpareUploadAndGrant(es, i, j - 1);
    }
  }

  // ---- A grant can outlive the enrolment it was approved for ----

  // A login at k to another box than the one the grant in the store names, with
  // no login and no grant saved since.
  ghost predicate CrossedAt(es: seq<Event>, k: nat) {
    && k < |es| && es[k].LoginDone?
    && Legal(es[..k]) && Strange(Exec(es[..k]).value.account.recovery, Some(es[k].box))
    && forall j | k < j < |es| :: !es[j].LoginDone? && !es[j].SaveGrant?
  }

  ghost predicate Crossed(es: seq<Event>) { exists k :: CrossedAt(es, k) }

  // A box holds a grant of another box exactly when its last login was to
  // another box than the one the stored grant named, no grant was saved since,
  // and the enrolment stands.
  lemma {:induction false} ForeignGrantExactlyWhen(es: seq<Event>)
    requires Legal(es)
    ensures Foreign(Exec(es).value.account) <==> !Exec(es).value.account.removed && Crossed(es)
    decreases |es|
  {
    AlwaysWellFormed(es);
    if es != [] {
      var n := |es| - 1;
      StepAt(es, n);
      assert es[..n + 1] == es;
      ForeignGrantExactlyWhen(es[..n]);
      ForeignStep(Exec(es[..n]).value, es[n]);
      CrossedStep(es);
    } else {
      assert !Crossed(es);
    }
  }

  lemma SavedGrantIsOwn(s: Sys, e: Event)
    requires WellFormed(s) && e.SaveGrant? && Step(s, e).Some?
    ensures !Foreign(Step(s, e).value.account)
  {
    hide Settled;
  }

  lemma LoginKeepsGrant(s: Sys, e: Event)
    requires e.LoginDone? && Step(s, e).Some?
    ensures var b := Step(s, e).value.account; !b.removed && b.recovery == s.account.recovery && b.box == Some(e.box)
  {
    hide Grants, Settled;
  }

  lemma SettledGrant(a: Account, f: Flight)
    ensures var b := Settled(a, f);
            || (b.removed && b.recovery.None?)
            || (b.box == a.box && b.recovery == a.recovery && b.removed == a.removed)
  {
  }

  // Nothing else touches the grant or the box, but a removal.
  lemma OthersKeepGrant(s: Sys, e: Event)
    requires !e.SaveGrant? && !e.LoginDone? && Step(s, e).Some?
    ensures var a, b := s.account, Step(s, e).value.account;
            || (b.removed && b.recovery.None?)
            || (b.box == a.box && b.recovery == a.recovery && b.removed == a.removed)
  {
    hide Grants, Settled;
    if e.Settle? {
      SettledGrant(s.account, s.flights[e.p]);
    }
  }

  lemma ForeignStep(s: Sys, e: Event)
    requires WellFormed(s) && Step(s, e).Some?
    ensures var a, b := s.account, Step(s, e).value.account;
            match e
            case SaveGrant(_, _, _) => !Foreign(b)
            case LoginDone(_, box, _, _) => !b.removed && (Foreign(b) <==> Strange(a.recovery, Some(box)))
            case _ => (a.removed ==> b.removed) && (b.removed ==> !Foreign(b)) && (!b.removed ==> (Foreign(b) <==> Foreign(a)))
  {
    hide Step;
    if e.SaveGrant? {
      SavedGrantIsOwn(s, e);
    } else if e.LoginDone? {
      LoginKeepsGrant(s, e);
    } else {
      OthersKeepGrant(s, e);
    }
  }

  lemma CrossedStep(es: seq<Event>)
    requires Legal(es) && es != []
    ensures var n := |es| - 1;
            match es[n]
            case LoginDone(_, _, _, _) => Crossed(es) <==> CrossedAt(es, n)
            case SaveGrant(_, _, _) => !Crossed(es)
            case _ => Crossed(es) <==> Crossed(es[..n])
  {
    var n := |es| - 1;
    if Crossed(es) {
      var k: nat :| CrossedAt(es, k);
      if k < n {
        assert es[..n][..k] == es[..k];
        assert CrossedAt(es[..n], k);
      }
    }
    if Crossed(es[..n]) && !es[n].LoginDone? && !es[n].SaveGrant? {
      var k: nat :| CrossedAt(es[..n], k);
      assert es[..n][..k] == es[..k];
      assert CrossedAt(es, k);
    }
  }

  // Nobody can use it: a foreign grant is never sent.
  lemma ForeignGrantIsNeverUsed(es: seq<Event>, i: nat)
    requires Legal(es) && i < |es| && es[i].UseGrant?
    ensures !Foreign(At(es, i).account)
  {
    StepAt(es, i);
  }

  const Code := UserCode(5, 0)

  const OutlivedGrant := Grant(7, Some(Code), 60, Scope(Some(1), 99))

  function Says(status: int, body: Body): Response { Response(status, NoCode, 0, body) }

  // A grant approved the ordinary way, an ordinary 401 and a login to another
  // box leave the old grant in the store, signed in and alive.
  lemma GrantOutlivesEnrolment() returns (es: seq<Event>)
    ensures Legal(es) && SignedIn(Exec(es).value.account) && Foreign(Exec(es).value.account)
    ensures Exec(es).value.account.recovery == Some(OutlivedGrant) && Exec(es).value.account.box == Some(2)
  {
    hide Step, Grants;
    var s: Sys;
    es, s := NothingYet();
    es, s := Enrols(es, s, 1, 1);
    es, s := Approves(es, s);
    es, s := IsRefused(es, s);
    es, s := Enrols(es, s, 2, 2);
  }

  lemma NothingYet() returns (es: seq<Event>, s: Sys)
    ensures Exec(es) == Some(s) && Holds(s, 0) && MayEnrol(s.account) && s.stored == {} && s.account.recovery.None?
  {
    es, s := Follow([], Initial, Acquire(0));
  }

  // A login, request by request.
  lemma Enrols(es: seq<Event>, s: Sys, box: nat, n: nat) returns (more: seq<Event>, t: Sys)
    requires Exec(es) == Some(s) && Holds(s, 0) && MayEnrol(s.account)
    requires forall k | k >= n :: Token(Sync, k) !in s.stored && Token(Backup, k) !in s.stored
    ensures Exec(more) == Some(t) && Holds(t, 0) && SignedIn(t.account) && t.account.box == Some(box)
    ensures t.account.transportKey == Some(5) && t.account.recovery == s.account.recovery
    ensures Backup in t.account.tokens && t.account.tokens[Backup] == Credential(Token(Backup, n), None)
    ensures t.stored == s.stored + {Token(Sync, n), Token(Backup, n)}
  {
    hide Step;
    more, t := Begins(es, s);
    Asks(t, 0, DevicePoll);
    more, t := Follow(more, t, Ask(0, DevicePoll));
    var body := EnrolledBody(box, Token(Sync, n), Token(Backup, n));
    Answers(t, 0, Says(200, body));
    more, t := Follow(more, t, Reply(0, Says(200, body)));
    LoginEnds(t, 0, box, Token(Sync, n), Token(Backup, n));
    more, t := Follow(more, t, LoginDone(0, box, Token(Sync, n), Token(Backup, n)));
  }

  lemma Begins(es: seq<Event>, s: Sys) returns (more: seq<Event>, t: Sys)
    requires Exec(es) == Some(s) && Holds(s, 0) && MayEnrol(s.account)
    ensures Exec(more) == Some(t) && Holds(t, 0) && MayEnrol(t.account) && t.account.device.Some? && t.account.transportKey == Some(5)
    ensures t.account.recovery == s.account.recovery && t.stored == s.stored
  {
    hide Step;
    var d := Device(3, Code, 0, 5);
    LoginBegins(s, 0, 5);
    more, t := Follow(es, s, LoginKey(0, 5));
    Asks(t, 0, DeviceStart);
    more, t := Follow(more, t, Ask(0, DeviceStart));
    Answers(t, 0, Says(200, DeviceBody(d, true, 60)));
    more, t := Follow(more, t, Reply(0, Says(200, DeviceBody(d, true, 60))));
    LoginGoesOn(t, 0, d.(expiresAt := 60), 0);
    more, t := Follow(more, t, LoginDevice(0, d.(expiresAt := 60), 0));
  }

  lemma Approves(es: seq<Event>, s: Sys) returns (more: seq<Event>, t: Sys)
    requires Exec(es) == Some(s) && Holds(s, 0) && SignedIn(s.account) && s.account.box == Some(1)
    requires s.account.transportKey == Some(5) && s.account.recovery.None?
    requires Backup in s.account.tokens && s.account.tokens[Backup] == Credential(Token(Backup, 1), None)
    ensures Exec(more) == Some(t) && Holds(t, 0) && t.stored == s.stored && t.account == s.account.(recovery := Some(OutlivedGrant))
  {
    hide Step;
    more, t := TakesSecret(es, s);
    more, t := TakesCode(more, t);
    more, t := TakesScope(more, t);
  }

  const Secret := Grant(7, None, 0, Scope(None, 0))

  lemma TakesSecret(es: seq<Event>, s: Sys) returns (more: seq<Event>, t: Sys)
    requires Exec(es) == Some(s) && Holds(s, 0) && SignedIn(s.account) && s.account.recovery.None?
    ensures Exec(more) == Some(t) && Holds(t, 0) && t.stored == s.stored && t.account == s.account.(recovery := Some(Secret))
  {
    hide Step, DropsGrant, NewCode, NewScope;
    SavesGrant(s, 0, Some(Secret), 0);
    more, t := Follow(es, s, SaveGrant(0, Some(Secret), 0));
  }

  lemma TakesCode(es: seq<Event>, s: Sys) returns (more: seq<Event>, t: Sys)
    requires Exec(es) == Some(s) && Holds(s, 0) && SignedIn(s.account)
    requires s.account.transportKey == Some(5) && s.account.recovery == Some(Secret)
    requires Backup in s.account.tokens && s.account.tokens[Backup] == Credential(Token(Backup, 1), None)
    ensures Exec(more) == Some(t) && Holds(t, 0) && t.stored == s.stored
    ensures t.account == s.account.(recovery := Some(Secret.(userCode := Some(Code), requestExpiresAt := 60)))
  {
    hide Step, DropsGrant, NewSecret, NewScope;
    var g := Secret.(userCode := Some(Code), requestExpiresAt := 60);
    Selects(s, 0, Backup, GrantStart);
    more, t := Follow(es, s, Select(0, Backup, Token(Backup, 1), GrantStart));
    Answers(t, 0, Says(200, CodeBody(Code, 60)));
    more, t := Follow(more, t, Reply(0, Says(200, CodeBody(Code, 60))));
    SavesGrant(t, 0, Some(g), 0);
    more, t := Follow(more, t, SaveGrant(0, Some(g), 0));
  }

  lemma TakesScope(es: seq<Event>, s: Sys) returns (more: seq<Event>, t: Sys)
    requires Exec(es) == Some(s) && Holds(s, 0) && SignedIn(s.account) && s.account.box == Some(1)
    requires s.account.recovery == Some(Secret.(userCode := Some(Code), requestExpiresAt := 60))
    ensures Exec(more) == Some(t) && Holds(t, 0) && t.stored == s.stored && t.account == s.account.(recovery := Some(OutlivedGrant))
  {
    hide Step, DropsGrant, NewSecret, NewCode;
    Asks(s, 0, GrantPoll);
    more, t := Follow(es, s, Ask(0, GrantPoll));
    Answers(t, 0, Says(200, ScopeBody(Scope(Some(1), 99))));
    more, t := Follow(more, t, Reply(0, Says(200, ScopeBody(Scope(Some(1), 99)))));
    SavesGrant(t, 0, Some(OutlivedGrant), 0);
    more, t := Follow(more, t, SaveGrant(0, Some(OutlivedGrant), 0));
  }

  lemma IsRefused(es: seq<Event>, s: Sys) returns (more: seq<Event>, t: Sys)
    requires Exec(es) == Some(s) && Holds(s, 0) && SignedIn(s.account)
    requires Backup in s.account.tokens && s.account.tokens[Backup] == Credential(Token(Backup, 1), None)
    ensures Exec(more) == Some(t) && Holds(t, 0) && t.account == s.account.(needsLogin := true) && t.stored == s.stored
  {
    hide Step;
    Selects(s, 0, Backup, Plain);
    more, t := Follow(es, s, Select(0, Backup, Token(Backup, 1), Plain));
    Answers(t, 0, Says(401, Malformed));
    more, t := Follow(more, t, Reply(0, Says(401, Malformed)));
    Settles(t, 0);
    more, t := Follow(more, t, Settle(0));
  }

  lemma Follow(es: seq<Event>, s: Sys, e: Event) returns (more: seq<Event>, t: Sys)
    requires Exec(es) == Some(s) && Step(s, e).Some?
    ensures more == es + [e] && Exec(more) == Some(t) && t == Step(s, e).value
  {
    hide Step;
    ExecSnoc(es, e);
    more, t := es + [e], Step(s, e).value;
  }

  // ---- A removal spares the enrolment that follows ----

  lemma BoxStays(s: Sys, e: Event)
    requires Step(s, e).Some? && !e.LoginDone?
    ensures Step(s, e).value.account.box == s.account.box
  {
    hide Grants;
  }

  lemma {:induction false} BoxOfLastLogin(es: seq<Event>, k: nat, j: nat)
    requires Legal(es) && k < j <= |es| && es[k].LoginDone? && NoLogin(es, k + 1, j)
    ensures At(es, j).account.box == Some(es[k].box)
    decreases j
  {
    hide Step;
    StepAt(es, j - 1);
    if k == j - 1 {
      LoginKeepsGrant(At(es, k), es[k]);
    } else {
      BoxOfLastLogin(es, k, j - 1);
      BoxStays(At(es, j - 1), es[j - 1]);
    }
  }

  // The answer that a box was removed, asked for before a login to another box
  // and settled after it, at whatever distance, changes nothing.
  lemma LateRemovalSparesTheNewBox(es: seq<Event>, i: nat, k: nat, j: nat)
    requires Legal(es) && i < k < j < |es| && es[i].Select? && es[j] == Settle(es[i].p) && StillAsking(es, i, j, es[i].p)
    requires Told(At(es, j), es[i].p, BoxRemoved)
    requires es[k].LoginDone? && NoLogin(es, k + 1, j) && At(es, i).account.box != Some(es[k].box)
    ensures At(es, j + 1) == At(es, j)
  {
    BoxOfLastLogin(es, k, j);
    OutdatedAnswerChangesNothing(es, i, j);
  }
}
