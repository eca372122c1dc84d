// The daemon's lobby pass book: what admission is served from across edits,
// reloads and restarts.
module PassService {
  import opened Basics
  import opened IncludeGraph

  // A file's bytes: either something the parser refuses, or a book that passes
  // its own rules. Bytes and contents name each other, so equal hashes are
  // equal contents.
  datatype Content = Junk(raw: nat) | BookFile(book: Book, layout: nat)

  type Files = map<string, Content>

  // What the shared rules say of a set of books and an inventory.
  type Rules = (Files, nat) -> bool

  predicate IsPass(c: Content) { c.BookFile? && c.book.lobbyPass }

  ghost predicate OnePassFile(files: Files) {
    forall a, b | a in files && b in files && IsPass(files[a]) && IsPass(files[b]) :: a == b
  }

  // All the reload relies on: an accepted set holds at most one pass book.
  ghost predicate Sound(rules: Rules) {
    forall files, inventory :: rules(files, inventory) ==> OnePassFile(files)
  }

  ghost function PassOf(files: Files): (c: Option<Content>)
    ensures c.Some? ==> IsPass(c.value) && c.value in files.Values
    ensures c.None? ==> forall n | n in files :: !IsPass(files[n])
  {
    if n :| n in files && IsPass(files[n]) then Some(files[n]) else None
  }

  // The pass book in service, and the copy kept for a restart.
  datatype Service = Service(served: Option<Content>, lastGood: Option<Content>)

  // One considered input; None is a directory that could not be read. `saved`
  // says whether the copy could be written, `readable` whether it can be read.
  datatype Act = Act(restart: bool, files: Option<Files>, inventory: nat, saved: bool, readable: bool)

  ghost predicate Accepts(rules: Rules, act: Act) {
    act.files.Some? && rules(act.files.value, act.inventory)
  }

  ghost function Apply(rules: Rules, s: Service, act: Act): Service {
    if Accepts(rules, act) then
      var pass := PassOf(act.files.value);
      Service(pass, if pass.Some? && act.saved then pass else s.lastGood)
    else if act.restart then Service(if act.readable then s.lastGood else None, s.lastGood)
    else s
  }

  ghost function Serve(rules: Rules, acts: seq<Act>): Service {
    if acts == [] then Service(None, None)
    else Apply(rules, Serve(rules, acts[..|acts| - 1]), acts[|acts| - 1])
  }

  lemma ServeSnoc(rules: Rules, acts: seq<Act>, act: Act)
    ensures Serve(rules, acts + [act]) == Apply(rules, Serve(rules, acts), act)
  {
    assert (acts + [act])[..|acts|] == acts;
  }

  // The pass book most recently accepted and saved.
  ghost function LastSaved(rules: Rules, acts: seq<Act>): Option<Content> {
    if acts == [] then None
    else
      var act := acts[|acts| - 1];
      if Accepts(rules, act) && act.saved && PassOf(act.files.value).Some? then PassOf(act.files.value)
      else LastSaved(rules, acts[..|acts| - 1])
  }

  ghost predicate AcceptedBy(rules: Rules, acts: seq<Act>, c: Content) {
    exists i | 0 <= i < |acts| :: Accepts(rules, acts[i]) && PassOf(acts[i].files.value) == Some(c)
  }

  // Whatever the edits, reloads and restarts: service is empty or a pass book
  // of a set the rules accepted, and the copy is the one saved last.
  lemma {:induction false} ServesOnlyAccepted(rules: Rules, acts: seq<Act>)
    ensures var s := Serve(rules, acts);
            && (s.served.Some? ==> IsPass(s.served.value) && AcceptedBy(rules, acts, s.served.value))
            && (s.lastGood.Some? ==> IsPass(s.lastGood.value) && AcceptedBy(rules, acts, s.lastGood.value))
            && s.lastGood == LastSaved(rules, acts)
  {
    if acts != [] {
      var before := acts[..|acts| - 1];
      ServesOnlyAccepted(rules, before);
      forall c | AcceptedBy(rules, before, c) ensures AcceptedBy(rules, acts, c) {
        var i :| 0 <= i < |before| && Accepts(rules, before[i]) && PassOf(before[i].files.value) == Some(c);
        assert Accepts(rules, acts[i]);
      }
      var last := acts[|acts| - 1];
      if Accepts(rules, last) && PassOf(last.files.value).Some? {
        assert AcceptedBy(rules, acts, PassOf(last.files.value).value);
      }
    }
  }

  // A run of refused reloads serves what it served before.
  lemma {:induction false} RefusedChangesNothing(rules: Rules, acts: seq<Act>, more: seq<Act>)
    requires forall i | 0 <= i < |more| :: !more[i].restart && !Accepts(rules, more[i])
    ensures Serve(rules, acts + more) == Serve(rules, acts)
  {
    if more == [] {
      assert acts + more == acts;
    } else {
      var n := |more| - 1;
      assert (acts + more)[..|acts| + n] == acts + more[..n];
      RefusedChangesNothing(rules, acts, more[..n]);
    }
  }

  // A restart onto a refused set serves the copy saved last, so it keeps
  // service exactly when that copy is the book that was in service.
  lemma {:induction false} RefusedRestart(rules: Rules, acts: seq<Act>, act: Act)
    requires act.restart && act.readable && !Accepts(rules, act)
    ensures Serve(rules, acts + [act]).served == LastSaved(rules, acts)
    ensures Serve(rules, acts + [act]).served == Serve(rules, acts).served <==> Serve(rules, acts).served == LastSaved(rules, acts)
  {
    ServesOnlyAccepted(rules, acts);
    assert (acts + [act])[..|acts|] == acts;
  }

  // Whether the copy kept on disk is the book in service, read off the history
  // branch by branch: an accepted pass book that was saved, or was the copy
  // already; none in service and none ever saved; a restart that could read the
  // copy, or had none to read.
  ghost predicate InStep(rules: Rules, acts: seq<Act>)
    decreases |acts|
  {
    acts == [] || (
      var before, act := acts[..|acts| - 1], acts[|acts| - 1];
      if Accepts(rules, act) then
        (act.saved && PassOf(act.files.value).Some?) || PassOf(act.files.value) == LastSaved(rules, before)
      else if act.restart then act.readable || LastSaved(rules, before).None?
      else InStep(rules, before))
  }

  // So a restart onto a refused set keeps service exactly then.
  lemma {:induction false} RestartKeepsService(rules: Rules, acts: seq<Act>, act: Act)
    requires act.restart && act.readable && !Accepts(rules, act)
    ensures Serve(rules, acts + [act]).served == Serve(rules, acts).served <==> InStep(rules, acts)
    decreases |acts|
  {
    RefusedRestart(rules, acts, act);
    ServesOnlyAccepted(rules, acts);
    if acts != [] {
      var before := acts[..|acts| - 1];
      ServesOnlyAccepted(rules, before);
      RestartKeepsService(rules, before, act);
      RefusedRestart(rules, before, act);
    }
  }

  // It does not always: a pass book that was removed comes back in service when
  // the daemon restarts onto a set the rules refuse.
  lemma RemovedBookReturns(rules: Rules, files: Files, inventory: nat, refused: Files)
    requires rules(files, inventory) && PassOf(files).Some? && rules(map[], inventory) && !rules(refused, inventory)
    ensures var acts := [Act(true, Some(files), inventory, true, true), Act(false, Some(map[]), inventory, true, true)];
            && Serve(rules, acts).served == None
            && Serve(rules, acts + [Act(true, Some(refused), inventory, true, true)]).served == PassOf(files)
  {
    var first := [Act(true, Some(files), inventory, true, true)];
    var acts := first + [Act(false, Some(map[]), inventory, true, true)];
    assert acts[..1] == first && first[..0] == [];
    assert acts == [Act(true, Some(files), inventory, true, true), Act(false, Some(map[]), inventory, true, true)];
    RefusedRestart(rules, acts, Act(true, Some(refused), inventory, true, true));
  }
}

// configcheck.AccountBooks as far as the books alone decide: what makes the
// shared rules sound.
module PassRules {
  import opened Basics
  import opened IncludeGraph
  import opened PassService
  import AccountBook

  function FileName(id: Id): string { id + ".toml" }

  predicate Own(name: string, c: Content, valid: Id -> bool) {
    c.BookFile? && valid(c.book.id) && name == FileName(c.book.id)
  }

  // Every file is a book, under the name of its id.
  predicate Filed(files: Files, valid: Id -> bool) {
    forall n | n in files :: Own(n, files[n], valid)
  }

  function BooksOf(files: Files, valid: Id -> bool): (books: Books)
    requires Filed(files, valid)
    ensures forall n | n in files :: files[n].book.id in books && books[files[n].book.id] == files[n].book
    ensures forall id | id in books :: FileName(id) in files && files[FileName(id)].book.id == id && valid(id)
    ensures files == map[] ==> books == map[]
  {
    map n | n in files :: files[n].book.id := files[n].book
  }

  lemma OneMore(files: Files, valid: Id -> bool, n: string, c: Content)
    requires Filed(files, valid) && n !in files && Own(n, c, valid)
    ensures Filed(files[n := c], valid) && BooksOf(files[n := c], valid) == BooksOf(files, valid)[c.book.id := c.book]
  {
    hide FileName;
    var a, b := BooksOf(files[n := c], valid), BooksOf(files, valid)[c.book.id := c.book];
    forall id | id in a ensures id in b && a[id] == b[id] {
      assert FileName(id) in files[n := c];
    }
    forall id | id in b ensures id in a {
      assert FileName(id) in files[n := c] && files[n := c][FileName(id)].book.id == id;
    }
  }

  method Parsed(files: Files, valid: Id -> bool) returns (books: Option<Books>)
    ensures books.Some? <==> Filed(files, valid)
    ensures books.Some? ==> books.value == BooksOf(files, valid)
  {
    hide BooksOf;
    var all: Books := map[];
    ghost var seen: Files := map[];
    var left := files.Keys;
    while left != {}
      invariant left <= files.Keys && seen.Keys == files.Keys - left
      invariant forall n | n in seen :: seen[n] == files[n]
      invariant Filed(seen, valid) && all == BooksOf(seen, valid)
      decreases left
    {
      var n :| n in left;
      if !Own(n, files[n], valid) {
        return None;
      }
      OneMore(seen, valid, n, files[n]);
      all := all[files[n].book.id := files[n].book];
      seen := seen[n := files[n]];
      left := left - {n};
    }
    assert seen == files;
    return Some(all);
  }

  method AccountBooks(files: Files, valid: Id -> bool) returns (accepted: bool)
    requires !valid("")
    ensures accepted <==> Filed(files, valid) && Acceptable(BooksOf(files, valid))
  {
    hide Acceptable, Filed, FileName;
    var books := Parsed(files, valid);
    if books.None? {
      return false;
    }
    var problems := AccountBook.Check(books.value);
    return problems == [];
  }

  // Whatever else they ask of an inventory, rules that ask this of the books
  // accept one pass book at most.
  lemma SharedRulesAreSound(rules: Rules, valid: Id -> bool)
    requires forall files: Files, inventory :: rules(files, inventory) ==> Filed(files, valid) && Acceptable(BooksOf(files, valid))
    ensures Sound(rules)
  {
    forall files: Files, inventory | rules(files, inventory) ensures OnePassFile(files) {
      forall a, b | a in files && b in files && IsPass(files[a]) && IsPass(files[b]) ensures a == b {
        var books := BooksOf(files, valid);
        var i, j := files[a].book.id, files[b].book.id;
        assert i in books && j in books;
        assert books[i].lobbyPass && books[j].lobbyPass;
      }
    }
  }
}

module PassList {
  import opened Basics
  import opened PassService
  import AccountBook

  // What is on disk at one instant.
  datatype Input = Input(files: Option<Files>, inventory: nat)

  // The instants of one reload's four reads, in the order it makes them: the
  // stamp's inventory and books, then the books and inventory it decides on.
  datatype Reads = Reads(stampInventory: nat, stampFiles: nat, files: nat, inventory: nat)

  ghost predicate InOrder(r: Reads, history: seq<Input>) {
    r.stampInventory <= r.stampFiles <= r.files <= r.inventory < |history|
  }

  ghost function StampRead(r: Reads, history: seq<Input>): Input
    requires InOrder(r, history)
  {
    Input(history[r.stampFiles].files, history[r.stampInventory].inventory)
  }

  ghost function Decided(r: Reads, history: seq<Input>): Input
    requires InOrder(r, history)
  {
    Input(history[r.files].files, history[r.inventory].inventory)
  }

  // Content that was edited away does not come back.
  ghost predicate NeverReverts(history: seq<Input>) {
    forall i, j, k | 0 <= i <= j <= k < |history| ::
      && (history[i].files == history[k].files ==> history[j].files == history[i].files)
      && (history[i].inventory == history[k].inventory ==> history[j].inventory == history[i].inventory)
  }

  ghost predicate QuietSince(history: seq<Input>, i: nat) {
    i < |history| && forall k | i <= k < |history| :: history[k] == history[|history| - 1]
  }

  ghost predicate Accepted(rules: Rules, i: Input) { i.files.Some? && rules(i.files.value, i.inventory) }

  ghost function Reconsidered(rules: Rules, s: Service, final: Input, saved: bool): Service {
    Apply(rules, s, Act(false, final.files, final.inventory, saved, true))
  }

  lemma RunningIsReconsidered(rules: Rules, s: Service, act: Act, final: Input)
    requires !act.restart && act.files == final.files && (act.files.Some? ==> act.inventory == final.inventory)
    ensures Apply(rules, s, act) == Reconsidered(rules, s, final, act.saved)
  {
  }

  // A tick on a disk that no longer changes.
  ghost predicate Quieted(rules: Rules, s: Service, stamp: Input, final: Input, t: Service) {
    if stamp == final then t == s else exists saved :: t == Reconsidered(rules, s, final, saved)
  }

  class PassList {
    const rules: Rules
    // The directory and the inventory, edited by others at any time.
    var input: Input
    var lastGood: Option<Content>
    // The swapped set: the book's bytes, and the index admission asks.
    var served: Option<Content>
    var index: map<string, AccountBook.Holder>
    // The inputs last considered.
    var stamp: Option<Input>

    ghost var history: seq<Input>
    // How often the copy could not be written or read.
    ghost var faults: nat
    ghost var seen: Reads
    ghost var acts: seq<Act>

    ghost predicate InService()
      reads this
    {
      && (served.None? ==> index == map[])
      && (served.Some? ==> IsPass(served.value) && AccountBook.Indexes(index, served.value.book.contacts))
    }

    ghost predicate Valid()
      reads this
    {
      && Sound(rules) && InService()
      && history != [] && history[|history| - 1] == input
      && Serve(rules, acts) == Service(served, lastGood)
      && (stamp.Some? ==> Considered())
    }

    // An accepted decision is what is served.
    ghost predicate Considered()
      reads this
    {
      && InOrder(seen, history)
      && stamp == Some(StampRead(seen, history))
      && var d := Decided(seen, history);
         (d.files.Some? && rules(d.files.value, d.inventory) ==> served == PassOf(d.files.value))
    }

    constructor (rules: Rules, input: Input)
      requires Sound(rules)
      ensures Valid() && this.rules == rules && acts == [] && history == [input] && this.input == input
    {
      this.rules := rules;
      this.input := input;
      lastGood, served, index, stamp := None, None, map[], None;
      history, acts, seen, faults := [input], [], Reads(0, 0, 0, 0), 0;
    }

    method Edited()
      requires history != [] && history[|history| - 1] == input
      modifies this`input, this`history
      ensures old(history) <= history && history[|history| - 1] == input
    {
      var n: nat := Any();
      while n > 0
        invariant old(history) <= history && history[|history| - 1] == input
      {
        input := Any();
        history := history + [input];
        n := n - 1;
      }
    }

    // Every reload is one act of the service, on inputs read in order since it
    // began.
    ghost predicate Reloaded(before: seq<Input>, acted: seq<Act>, restart: bool)
      reads this
    {
      && Valid() && stamp.Some? && before != [] && before <= history && |before| - 1 <= seen.stampInventory
      && |acts| == |acted| + 1 && acted <= acts
      && var act := acts[|acted|]; var d := Decided(seen, history);
         act.restart == restart && act.files == d.files && (d.files.Some? ==> act.inventory == d.inventory)
    }

    // A copy is kept and found again unless writing or reading it fails.
    ghost predicate CopiesUnless(act: Act, from: nat)
      reads this
    {
      && (act.files.Some? && rules(act.files.value, act.inventory) && PassOf(act.files.value).Some? ==> act.saved || faults > from)
      && (act.readable || faults > from)
    }

    // reload while running.
    method Reload()
      requires Valid()
      modifies this
      ensures Reloaded(old(history), old(acts), false) && CopiesUnless(acts[|old(acts)|], old(faults))
    {
      ServesOnlyAccepted(rules, acts);
      ghost var act := Consider(false, Service(served, lastGood));
      Record(act);
    }

    // A new process on the same disk: openPasses.
    method Restart()
      requires Valid()
      modifies this
      ensures Reloaded(old(history), old(acts), true) && CopiesUnless(acts[|old(acts)|], old(faults))
    {
      ServesOnlyAccepted(rules, acts);
      ghost var before := Service(served, lastGood);
      served, index := None, map[];
      ghost var act := Consider(true, before);
      Record(act);
    }

    method Consider(startup: bool, ghost before: Service) returns (ghost act: Act)
      requires Sound(rules) && InService() && history != [] && history[|history| - 1] == input
      requires lastGood == before.lastGood && (lastGood.Some? ==> IsPass(lastGood.value))
      requires served == if startup then None else before.served
      modifies this`input, this`history, this`stamp, this`seen, this`served, this`index, this`lastGood, this`faults
      ensures CopiesUnless(act, old(faults))
      ensures InService() && old(history) <= history && history[|history| - 1] == input
      ensures Considered() && |old(history)| - 1 <= seen.stampInventory
      ensures act.restart == startup && Decided(seen, history) == Input(act.files, act.inventory)
      ensures Apply(rules, before, act) == Service(served, lastGood)
    {
      var files, accepted := Read();
      var saved, readable := false, true;
      if accepted {
        saved := TakeIn(files.value);
      } else if startup {
        readable := Try();
        if lastGood.Some? && readable {
          Accept(lastGood.value);
        }
      }
      act := Act(startup, files, history[seen.inventory].inventory, saved, readable);
    }

    ghost method Record(act: Act)
      requires Apply(rules, Serve(rules, acts), act) == Service(served, lastGood)
      modifies this`acts
      ensures acts == old(acts) + [act] && Serve(rules, acts) == Service(served, lastGood)
    {
      var more := acts + [act];
      assert Serve(rules, more) == Service(served, lastGood) by {
        ServeSnoc(rules, acts, act);
      }
      acts := more;
    }

    // The reads of one reload, and whether the rules take what they found.
    method Read() returns (files: Option<Files>, accepted: bool)
      requires history != [] && history[|history| - 1] == input
      modifies this`input, this`history, this`stamp, this`seen
      ensures old(history) <= history && history[|history| - 1] == input
      ensures InOrder(seen, history) && |old(history)| - 1 <= seen.stampInventory
      ensures stamp == Some(StampRead(seen, history)) && files == Decided(seen, history).files
      ensures accepted <==> files.Some? && rules(files.value, Decided(seen, history).inventory)
    {
      Edited();
      var inventory := input.inventory;
      ghost var a := |history| - 1;
      Edited();
      stamp := Some(Input(input.files, inventory));
      ghost var b := |history| - 1;
      Edited();
      files := input.files;
      ghost var c := |history| - 1;
      Edited();
      seen := Reads(a, b, c, |history| - 1);
      accepted := files.Some? && rules(files.value, input.inventory);
    }

    method Try() returns (ok: bool)
      modifies this`faults
      ensures faults == old(faults) + if ok then 0 else 1
    {
      ok := Any();
      faults := faults + if ok then 0 else 1;
    }

    // An accepted set: its pass book goes in service and a copy is kept, or
    // service ends. The copy is left alone when the pass book is gone.
    method TakeIn(files: Files) returns (saved: bool)
      requires InService() && OnePassFile(files)
      modifies this`served, this`index, this`lastGood, this`faults
      ensures old(faults) <= faults && (served.Some? ==> saved || faults > old(faults))
      ensures InService() && served == PassOf(files)
      ensures lastGood == if served.Some? && saved then served else old(lastGood)
    {
      saved := false;
      var pass := FindPass(files);
      if pass.None? {
        served, index := None, map[];
        return;
      }
      Accept(pass.value);
      saved := Try();
      if saved {
        lastGood := pass;
      }
    }

    method Accept(data: Content)
      requires InService() && IsPass(data)
      modifies this`served, this`index
      ensures InService() && served == Some(data)
    {
      if served == Some(data) {
        return;
      }
      index := AccountBook.Holders(data.book);
      served := Some(data);
    }

    // One tick of watch.
    method Tick()
      requires Valid() && stamp.Some?
      modifies this
      ensures Valid() && stamp.Some? && old(history) <= history && old(acts) <= acts
      // Once the edits have stopped, a tick reconsiders the set exactly when the
      // last stamp is not of it.
      ensures QuietSince(history, |old(history)| - 1) ==>
                stamp == Some(input) &&
                Quieted(rules, Service(old(served), old(lastGood)), old(stamp.value), input, Service(served, lastGood))
      // What was decided on last is then the final set, unless the stamp already
      // was of it and the reload of that stamp decided on something else.
      ensures QuietSince(history, |old(history)| - 1) && InOrder(old(seen), old(history)) ==>
                (Decided(seen, history) == input <==> old(stamp) != Some(input) || Decided(old(seen), old(history)) == input)
      // With nothing edited away that came back, what is served is its pass book.
      ensures QuietSince(history, |old(history)| - 1) && NeverReverts(history) && Accepted(rules, input) ==>
                served == PassOf(input.files.value)
    {
      hide CopiesUnless, PassOf, Apply, Serve;
      ghost var start, before := |history| - 1, Service(served, lastGood);
      var found := Glance();
      if stamp != Some(found) {
        Reload();
        QuietDecides(history, seen, start);
        if QuietSince(history, start) {
          ghost var act := acts[|old(acts)|];
          ServeSnoc(rules, old(acts), act);
          assert acts == old(acts) + [act];
          RunningIsReconsidered(rules, before, act, input);
        }
      } else if QuietSince(history, start) && NeverReverts(history) {
        SeenIsFinal(history, seen);
      }
    }

    // The stamp of the directory and the inventory as they are read now.
    method Glance() returns (found: Input)
      requires Valid()
      modifies this`input, this`history
      ensures Valid() && old(history) <= history
      ensures QuietSince(history, |old(history)| - 1) ==> found == history[|history| - 1]
    {
      Edited();
      var inventory := input.inventory;
      ghost var a := |history| - 1;
      Edited();
      found := Input(input.files, inventory);
      assert QuietSince(history, |old(history)| - 1) ==> history[a] == history[|history| - 1];
    }
  }

  // What a reload decides on after the edits stopped is the final input.
  lemma QuietDecides(history: seq<Input>, r: Reads, i: nat)
    requires InOrder(r, history) && i <= r.stampInventory
    ensures QuietSince(history, i) ==> Decided(r, history) == history[|history| - 1]
  {
  }

  // A stamp of the final input, and no reverts: the decision was of it too.
  lemma SeenIsFinal(history: seq<Input>, r: Reads)
    requires InOrder(r, history) && NeverReverts(history) && StampRead(r, history) == history[|history| - 1]
    ensures Decided(r, history) == history[|history| - 1]
  {
    var last := |history| - 1;
    assert history[r.files].files == history[last].files;
    assert history[r.inventory].inventory == history[last].inventory;
  }

  method FindPass(files: Files) returns (pass: Option<Content>)
    requires OnePassFile(files)
    ensures pass == PassOf(files)
  {
    pass := None;
    var left := files.Keys;
    while left != {}
      invariant left <= files.Keys
      invariant pass.None? && forall n | n in files && n !in left :: !IsPass(files[n])
      decreases left
    {
      var n :| n in left;
      if IsPass(files[n]) {
        return Some(files[n]);
      }
      left := left - {n};
    }
  }

  // When such a tick leaves the right book in service: the last stamp is not of
  // the final set, or what is served already is that set's pass book, which it
  // is, when the last decision was accepted, exactly if that had the same one.
  lemma QuietTickIsRightWhen(rules: Rules, s: Service, r: Reads, history: seq<Input>, t: Service)
    requires InOrder(r, history) && (Accepted(rules, Decided(r, history)) ==> s.served == PassOf(Decided(r, history).files.value))
    requires Accepted(rules, history[|history| - 1])
    requires Quieted(rules, s, StampRead(r, history), history[|history| - 1], t)
    ensures var final := history[|history| - 1];
            t.served == PassOf(final.files.value) <==> StampRead(r, history) != final || s.served == PassOf(final.files.value)
    ensures var final, d := history[|history| - 1], Decided(r, history);
            Accepted(rules, d) ==>
              (t.served == PassOf(final.files.value) <==>
                 StampRead(r, history) != final || PassOf(d.files.value) == PassOf(final.files.value))
    ensures NeverReverts(history) ==> t.served == PassOf(history[|history| - 1].files.value)
  {
    if NeverReverts(history) && StampRead(r, history) == history[|history| - 1] {
      SeenIsFinal(history, r);
    }
  }

  // Content that comes back inside one reload is missed: the stamp is of the
  // final set, the decision of one in between, and however many ticks follow,
  // the book of that one stays in service.
  lemma {:induction false} RevertIsMissed(rules: Rules, a: Input, b: Input, ticks: seq<Service>)
    requires Accepted(rules, a) && Accepted(rules, b) && PassOf(a.files.value) != PassOf(b.files.value)
    requires ticks != [] && ticks[0] == Serve(rules, [Act(false, b.files, b.inventory, true, true)])
    requires forall k | 0 < k < |ticks| :: Quieted(rules, ticks[k - 1], StampRead(Reads(0, 0, 1, 1), [a, b, a]), a, ticks[k])
    ensures ticks[|ticks| - 1].served == PassOf(b.files.value) != PassOf(a.files.value)
    decreases |ticks|
  {
    if |ticks| == 1 {
      var acts := [Act(false, b.files, b.inventory, true, true)];
      assert acts[..0] == [];
    } else {
      var n := |ticks| - 1;
      RevertIsMissed(rules, a, b, ticks[..n]);
      assert Quieted(rules, ticks[n - 1], StampRead(Reads(0, 0, 1, 1), [a, b, a]), a, ticks[n]);
    }
  }
}
