// The world the account client runs in: one durable state directory shared by
// every process of the box, the service's object store, and the network. Each
// primitive is a legal event of the protocol, so a run of the client is a run
// of the protocol, with the other processes acting wherever they can.
module AccountWorld {
  import opened Basics
  import opened AccountProtocol
  import opened AccountSafety

  datatype Error =
    | ErrState | ErrBusy | ErrLogin | ErrProtocol | ErrNetwork | ErrRemoved | ErrSuperseded
    | ErrEnrolled | ErrExpired | ErrObject | ErrApproval | ErrContext | ErrSize
    | Refusal(status: int, refusal: Code)
    | BellRefused(bellStatus: int)

  function Failure(r: Response): Error
    requires r.Response?
  {
    Refusal(r.status, r.code)
  }

  // Errors that are nobody's answer: each counts once.
  predicate Fails(e: Error) { e.ErrBusy? || e.ErrNetwork? || e.ErrState? || e.ErrContext? }

  function Faults(err: Option<Error>): nat { if err.Some? && Fails(err.value) then 1 else 0 }

  function FaultsOf<T>(res: Result<T, Error>): nat { if res.Err? && Fails(res.error) then 1 else 0 }

  // A reply a process took in a stretch of a run.
  ghost predicate RepliedIn(es: seq<Event>, from: nat, p: Pid, status: int, body: Body) {
    exists k :: from <= k < |es| && ReplyAt(es, k, p, status, body)
  }

  ghost predicate ReplyAt(es: seq<Event>, k: nat, p: Pid, status: int, body: Body)
    requires k < |es|
  {
    es[k].Reply? && es[k].p == p && es[k].reply.Response? && es[k].reply.status == status && es[k].reply.body == body
  }

  lemma RepliedLast(es: seq<Event>, from: nat, p: Pid, r: Response)
    requires from < |es| && es[|es| - 1] == Reply(p, r) && r.Response?
    ensures RepliedIn(es, from, p, r.status, r.body)
  {
    assert ReplyAt(es, |es| - 1, p, r.status, r.body);
  }

  lemma RepliedLonger(es: seq<Event>, more: seq<Event>, from: nat, p: Pid, status: int, body: Body)
    requires RepliedIn(es, from, p, status, body) && es <= more
    ensures RepliedIn(more, from, p, status, body)
  {
    var k :| from <= k < |es| && ReplyAt(es, k, p, status, body);
    assert ReplyAt(more, k, p, status, body);
  }

  // What a process itself did between two points of a run, judged by the state
  // it did it in.
  ghost predicate OnlyDid(before: seq<Event>, after: seq<Event>, p: Pid, may: (Sys, Event) -> bool) {
    before <= after && forall k | |before| <= k < |after| && Actor(after[k]) == Some(p) :: DidAt(after, k, may)
  }

  ghost predicate DidAt(es: seq<Event>, k: nat, may: (Sys, Event) -> bool)
    requires k < |es|
  {
    Exec(es[..k]).Some? && may(Exec(es[..k]).value, es[k])
  }

  // First one thing and then another, each of which a permission allows.
  lemma Did(a: seq<Event>, b: seq<Event>, c: seq<Event>, p: Pid, narrow: (Sys, Event) -> bool, may: (Sys, Event) -> bool)
    requires OnlyDid(a, b, p, may) && OnlyDid(b, c, p, narrow) && forall s, e | narrow(s, e) :: may(s, e)
    ensures OnlyDid(a, c, p, may)
  {
    forall k | |a| <= k < |c| && Actor(c[k]) == Some(p) ensures DidAt(c, k, may) {
      if k < |b| {
        assert c[k] == b[k] && c[..k] == b[..k];
        assert DidAt(b, k, may);
      } else {
        assert DidAt(c, k, narrow);
      }
    }
  }

  lemma DidOne(a: seq<Event>, b: seq<Event>, s: Sys, e: Event, p: Pid, may: (Sys, Event) -> bool)
    requires OnlyDid(a, b, p, may) && Exec(b) == Some(s) && (Actor(e) == Some(p) ==> may(s, e))
    ensures OnlyDid(a, b + [e], p, may)
  {
    forall k | |a| <= k <= |b| && Actor((b + [e])[k]) == Some(p) ensures DidAt(b + [e], k, may) {
      assert (b + [e])[..k] == b[..k];
      assert b[..|b|] == b;
      if k < |b| {
        assert DidAt(b, k, may);
      }
    }
  }

  lemma DidNothing(a: seq<Event>, p: Pid, may: (Sys, Event) -> bool)
    ensures OnlyDid(a, a, p, may)
  {
  }

  predicate Nothing(s: Sys, e: Event) { false }

  predicate Replies(s: Sys, e: Event) { e.Reply? }

  predicate Locks(s: Sys, e: Event) { e.Acquire? }

  class World {
    var sys: Sys
    ghost var trace: seq<Event>
    // How often the lock was taken, a write failed, an answer was lost or the
    // caller gave up.
    ghost var faults: nat

    ghost predicate Valid()
      reads this
    {
      Exec(trace) == Some(sys)
    }

    constructor ()
      ensures Valid() && sys == Initial && trace == [] && faults == 0
    {
      sys := Initial;
      trace, faults := [], 0;
    }

    method Do(e: Event)
      requires Valid() && Step(sys, e).Some?
      modifies this`sys, this`trace
      ensures Valid() && trace == old(trace) + [e] && sys == Step(old(sys), e).value
    {
      ExecSnoc(trace, e);
      sys := Step(sys, e).value;
      trace := trace + [e];
    }

    // Any number of events of other processes, and of PUTs already sent.
    method Interfere(p: Pid)
      requires Valid()
      modifies this`sys, this`trace
      ensures Valid() && old(trace) <= trace
      ensures Untouched(old(sys), sys, p)
      ensures OnlyDid(old(trace), trace, p, Nothing)
    {
      hide OnlyDid, Step, Untouched;
      var n: nat := Any();
      StartsUntouched(sys, trace, p);
      while n > 0
        invariant Valid() && old(trace) <= trace
        invariant Untouched(old(sys), sys, p)
        invariant OnlyDid(old(trace), trace, p, Nothing)
      {
        var e: Event := Any();
        if Actor(e) != Some(p) && Step(sys, e).Some? {
          OthersLeaveUntouched(sys, e, p);
          UntouchedThen(old(sys), sys, Step(sys, e).value, p);
          DidOne(old(trace), trace, sys, e, p, Nothing);
          Do(e);
        }
        n := n - 1;
      }
    }

    // One round trip. The request may reach the service whether or not its
    // answer comes back.
    method Exchange(p: Pid) returns (r: Response)
      requires Valid() && Told(sys, p, Waiting)
      modifies this
      ensures Valid() && old(trace) <= trace
      ensures r.Lost? ==> Untouched(old(sys), sys, p)
      ensures r.Response? ==>
                UntouchedButFlight(old(sys), sys, p) && p in sys.flights &&
                var f := old(sys).flights[p];
                sys.flights[p] == f.(answer := Classify(f.request, r), reply := r) && Honest(sys, f.request, r) &&
                |trace| > |old(trace)| && trace[|trace| - 1] == Reply(p, r)
      ensures OnlyDid(old(trace), trace, p, Replies)
      ensures faults == old(faults) + if r.Lost? then 1 else 0
    {
      hide OnlyDid;
      Interfere(p);
      DidNothing(old(trace), p, Replies);
      Did(old(trace), old(trace), trace, p, Nothing, Replies);
      r := Any();
      if !Honest(sys, sys.flights[p].request, r) {
        r := Lost;
      }
      if r.Response? {
        DidOne(old(trace), trace, sys, Reply(p, r), p, Replies);
        Do(Reply(p, r));
      }
      Note(r.Response?);
    }

    // A failure counts once.
    ghost method Note(ok: bool)
      modifies this`faults
      ensures faults == old(faults) + if ok then 0 else 1
    {
      faults := faults + if ok then 0 else 1;
    }

    // Whatever can fail for reasons of its own.
    method Try() returns (ok: bool)
      modifies this`faults
      ensures faults == old(faults) + if ok then 0 else 1
    {
      ok := Any();
      Note(ok);
    }

    // store.save: the file is replaced atomically, but the directory sync that
    // follows can still fail after the replacement.
    method Save(v: Account, e: Event) returns (ok: bool)
      requires Valid() && Step(sys, e).Some? && Step(sys, e).value.account == v
      modifies this
      ensures Valid() && old(trace) <= trace
      ensures ok ==> sys == Step(old(sys), e).value
      ensures sys == old(sys) || sys == Step(old(sys), e).value
      ensures trace == old(trace) || trace == old(trace) + [e]
      ensures faults == old(faults) + if ok then 0 else 1
    {
      var replaced: bool := Any();
      ok := Any();
      if replaced {
        Do(e);
      } else {
        ok := false;
      }
      Note(ok);
    }

    // openStore and openStoreWait: others act until the lock is free, or the
    // process gives up.
    method Open(p: Pid) returns (ok: bool)
      requires Valid() && !Holds(sys, p)
      modifies this
      ensures Valid() && old(trace) <= trace
      ensures Untouched(old(sys), sys.(holder := old(sys).holder), p)
      ensures ok <==> Holds(sys, p)
      ensures OnlyDid(old(trace), trace, p, Locks)
      ensures faults == old(faults) + if ok then 0 else 1
    {
      hide OnlyDid;
      Interfere(p);
      DidNothing(old(trace), p, Locks);
      Did(old(trace), old(trace), trace, p, Nothing, Locks);
      ok := sys.holder.None?;
      if ok {
        DidOne(old(trace), trace, sys, Acquire(p), p, Locks);
        Do(Acquire(p));
      }
      Note(ok);
    }

    method Close(p: Pid)
      requires Valid() && Holds(sys, p)
      modifies this`sys, this`trace
      ensures Valid() && trace == old(trace) + [Release(p)]
      ensures !Holds(sys, p) && sys == Unlock(old(sys), p)
    {
      Do(Release(p));
    }
  }

  // What other processes cannot touch: p's own memory, and everything durable
  // while p holds the lock. Stored objects never change.
  ghost predicate Untouched(s: Sys, t: Sys, p: Pid) {
    && UntouchedButFlight(s, t, p)
    && (p in s.flights <==> p in t.flights)
    && (p in s.flights ==> t.flights[p] == s.flights[p])
  }

  ghost predicate UntouchedButFlight(s: Sys, t: Sys, p: Pid) {
    && (Holds(s, p) ==> t.account == s.account && t.ciphertext == s.ciphertext && t.declared == s.declared && t.puts == s.puts && t.stored == s.stored)
    && (Holds(s, p) <==> Holds(t, p))
    && (forall id | id in s.objects :: id in t.objects && t.objects[id] == s.objects[id])
  }

  lemma StartsUntouched(s: Sys, es: seq<Event>, p: Pid)
    ensures Untouched(s, s, p) && OnlyDid(es, es, p, Nothing)
  {
  }

  lemma UntouchedThen(s: Sys, t: Sys, u: Sys, p: Pid)
    requires Untouched(s, t, p) && Untouched(t, u, p)
    ensures Untouched(s, u, p)
  {
  }

  lemma UploadLeavesUntouched(s: Sys, e: Event, p: Pid)
    requires OfUpload(e) && Step(s, e).Some? && Actor(e) != Some(p)
    ensures Untouched(s, Step(s, e).value, p)
  {
  }

  lemma OthersLeaveUntouched(s: Sys, e: Event, p: Pid)
    requires Step(s, e).Some? && Actor(e) != Some(p)
    ensures Untouched(s, Step(s, e).value, p)
  {
    if OfUpload(e) {
      UploadLeavesUntouched(s, e, p);
    }
  }
}
