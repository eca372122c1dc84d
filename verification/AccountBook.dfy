// accountbook.Check: the rules a set of account books must keep, found by one
// depth-first walk; and the index admission reads.
module AccountBook {
  import opened Basics
  import opened IncludeGraph

  datatype Problem =
    | TooManyBooks
    | TwoPassBooks(first: Id, second: Id)
    | Unheld(book: Id, inc: Id)
    | IncludesPassBook(book: Id, inc: Id)
    | CycleThrough(book: Id)
    | TooDeep(book: Id, depth: int)

  datatype Mark = Active | Done

  // The variables Check's recursive closure shares: an unvisited book has no
  // mark. An empty `cycle` means none was met.
  class Walk {
    const books: Books
    var state: map<Id, Mark>
    var depth: map<Id, int>
    var cycle: Id

    constructor (books: Books)
      requires AllResolved(books) && "" !in books
      ensures this.books == books && state == map[] && cycle == "" && Valid([])
    {
      this.books := books;
      state, depth, cycle := map[], map[], "";
    }

    // `stack` is the path of books being visited.
    ghost predicate Valid(stack: seq<Id>)
      reads this
    {
      && AllResolved(books) && "" !in books
      && state.Keys <= books.Keys
      && (forall x | x in state :: state[x].Active? <==> x in stack)
      && (forall x | x in stack :: x in state)
      && (stack != [] ==> IsPath(books, stack))
      && (forall x | x in depth :: x in state && state[x].Done?)
      && (forall x | x in state && state[x].Done? :: x in depth)
      && (cycle == "" ==> AllRanked(books, depth))
      && (cycle != "" ==> OnCycle(books, cycle))
    }

    // What a visit keeps of the walk before it.
    twostate predicate Extends()
      reads this
    {
      && old(state).Keys <= state.Keys
      && (forall x | x in old(depth) :: x in depth && depth[x] == old(depth)[x])
      && (old(cycle) != "" ==> cycle == old(cycle))
    }

    method Visit(id: Id, ghost stack: seq<Id>) returns (d: int)
      requires Valid(stack) && id in books
      requires stack != [] ==> Edge(books, stack[|stack| - 1], id)
      modifies this
      ensures Valid(stack) && Extends() && id in state
      ensures cycle == "" ==> id in depth && d == depth[id]
      decreases books.Keys - state.Keys, 0
    {
      if id in state && state[id].Active? {
        if cycle == "" {
          CycleFound(books, stack, id);
          cycle := id;
        }
        return 0;
      }
      if id in state {
        return depth[id];
      }
      Enter(id, stack);
      d := Descend(id, stack + [id]);
      Leave(id, d, stack);
    }

    method Enter(id: Id, ghost stack: seq<Id>)
      requires Valid(stack) && id in books && id !in state
      requires stack != [] ==> Edge(books, stack[|stack| - 1], id)
      modifies this`state
      ensures Valid(stack + [id]) && Extends() && state == old(state)[id := Active]
    {
      PathSnoc(books, stack, id);
      state := state[id := Active];
    }

    // What the first n includes of a book come down to, once visited.
    ghost predicate Measured(id: Id, n: nat, deepest: int)
      requires id in books && n <= |books[id].includes|
      reads this
    {
      cycle == "" ==> DeepestOf(books[id].includes[..n], depth, deepest)
    }

    method Descend(id: Id, ghost path: seq<Id>) returns (deepest: int)
      requires Valid(path) && id in books && path != [] && path[|path| - 1] == id
      modifies this
      ensures Valid(path) && Extends() && Measured(id, |books[id].includes|, deepest)
      decreases books.Keys - state.Keys, 1
    {
      deepest := 0;
      for i := 0 to |books[id].includes|
        invariant Valid(path) && Extends() && Measured(id, i, deepest)
      {
        deepest := Include(id, i, deepest, path);
      }
    }

    method Include(id: Id, i: nat, before: int, ghost path: seq<Id>) returns (deepest: int)
      requires Valid(path) && id in books && path != [] && path[|path| - 1] == id
      requires i < |books[id].includes| && Measured(id, i, before)
      modifies this
      ensures Valid(path) && Extends() && Measured(id, i + 1, deepest)
      decreases books.Keys - state.Keys, 1, 0
    {
      var inc := books[id].includes[i];
      var d := 1;
      if inc != HOUSE {
        assert Resolved(books, inc);
        var below := Visit(inc, path);
        d := d + below;
      }
      deepest := if d > before then d else before;
      if cycle == "" {
        DeepestNext(books[id].includes, i, old(depth), depth, before, deepest);
      }
    }

    method Leave(id: Id, deepest: int, ghost stack: seq<Id>)
      requires Valid(stack + [id]) && id in books && id !in stack && Measured(id, |books[id].includes|, deepest)
      modifies this`state, this`depth
      ensures Valid(stack) && Extends() && id in state && id in depth && depth[id] == deepest && cycle == old(cycle)
      ensures state.Keys == old(state).Keys
    {
      if stack != [] {
        PathInit(books, stack, id);
      }
      if cycle == "" {
        assert books[id].includes[..|books[id].includes|] == books[id].includes;
        RankAdded(books, depth, id, deepest);
      }
      state := state[id := Done];
      depth := depth[id := deepest];
    }
  }

  lemma PathInit(books: Books, stack: seq<Id>, id: Id)
    requires IsPath(books, stack + [id]) && stack != []
    ensures IsPath(books, stack)
  {
    forall i | 0 <= i < |stack| - 1 ensures Edge(books, stack[i], stack[i + 1]) {
      assert Edge(books, (stack + [id])[i], (stack + [id])[i + 1]);
    }
  }

  // One more than the deepest of the includes, or nothing for none.
  ghost predicate DeepestOf(includes: seq<Id>, depth: map<Id, int>, deepest: int) {
    && deepest >= 0
    && (forall inc | inc in includes :: (inc == HOUSE || inc in depth) && deepest >= 1 + RankOf(depth, inc))
    && (deepest == 0 || exists inc :: inc in includes && deepest == 1 + RankOf(depth, inc))
  }

  lemma DeepestNext(includes: seq<Id>, i: nat, depth: map<Id, int>, more: map<Id, int>, before: int, deepest: int)
    requires i < |includes| && DeepestOf(includes[..i], depth, before)
    requires forall x | x in depth :: x in more && more[x] == depth[x]
    requires includes[i] == HOUSE || includes[i] in more
    requires deepest == Max(before, 1 + RankOf(more, includes[i]))
    ensures DeepestOf(includes[..i + 1], more, deepest)
  {
    assert includes[..i + 1] == includes[..i] + [includes[i]];
    assert includes[i] in includes[..i + 1];
    if before > 0 {
      var inc :| inc in includes[..i] && before == 1 + RankOf(depth, inc);
      assert inc in includes[..i + 1];
    }
  }

  lemma RankAdded(books: Books, depth: map<Id, int>, id: Id, d: int)
    requires AllRanked(books, depth) && id in books && id !in depth
    requires DeepestOf(books[id].includes, depth, d)
    ensures AllRanked(books, depth[id := d])
  {
    var more := depth[id := d];
    forall x | x in more ensures Ranked(books, more, x) {
      if x != id {
        assert Ranked(books, depth, x);
      }
      forall inc | inc in books[x].includes ensures RankOf(more, inc) == RankOf(depth, inc) {
        assert inc == HOUSE || inc in depth;
      }
    }
  }

  lemma CycleFound(books: Books, stack: seq<Id>, id: Id)
    requires stack != [] && IsPath(books, stack) && id in stack && Edge(books, stack[|stack| - 1], id)
    ensures OnCycle(books, id)
  {
    var k :| 0 <= k < |stack| && stack[k] == id;
    var p := stack[k..] + [id];
    forall i | 0 <= i < |p| - 1 ensures Edge(books, p[i], p[i + 1]) {
      if i + k < |stack| - 1 {
        assert Edge(books, stack[i + k], stack[i + k + 1]);
      }
    }
    assert CyclePath(books, id, p);
  }

  lemma PathSnoc(books: Books, stack: seq<Id>, id: Id)
    requires stack != [] ==> IsPath(books, stack) && Edge(books, stack[|stack| - 1], id)
    ensures IsPath(books, stack + [id])
  {
    var p := stack + [id];
    forall i | 0 <= i < |p| - 1 ensures Edge(books, p[i], p[i + 1]) {
      if i < |stack| - 1 {
        assert Edge(books, stack[i], stack[i + 1]);
      }
    }
  }

  // ---- Sorted ids ----

  predicate LexLeq(a: Id, b: Id) {
    a == [] || (b != [] && (a[0] < b[0] || (a[0] == b[0] && LexLeq(a[1..], b[1..]))))
  }

  lemma SameHead(a: Id, b: Id, k: nat)
    requires 0 < k <= |a| && k <= |b| && a[..k] == b[..k]
    ensures a[0] == b[0]
  {
    assert a[..k][0] == b[..k][0];
  }

  // The order of a dictionary: a prefix first, or else the smaller character where
  // they differ first.
  lemma {:induction false} LexLeqMeans(a: Id, b: Id)
    ensures LexLeq(a, b) <==> a <= b || exists k | 0 <= k < |a| && k < |b| :: a[..k] == b[..k] && a[k] < b[k]
  {
    if a != [] && b != [] && a[0] == b[0] {
      LexLeqMeans(a[1..], b[1..]);
      if k :| 0 <= k < |a[1..]| && k < |b[1..]| && a[1..][..k] == b[1..][..k] && a[1..][k] < b[1..][k] {
        assert a[..k + 1] == [a[0]] + a[1..][..k] && b[..k + 1] == [b[0]] + b[1..][..k];
        assert a[k + 1] < b[k + 1];
      }
      if k :| 0 <= k < |a| && k < |b| && a[..k] == b[..k] && a[k] < b[k] {
        assert a[1..][..k - 1] == a[..k][1..] && b[1..][..k - 1] == b[..k][1..];
        assert a[1..][k - 1] < b[1..][k - 1];
      }
      assert a <= b <==> a[1..] <= b[1..];
    } else if a != [] && b != [] {
      assert a[..0] == b[..0];
      if k :| 0 <= k < |a| && k < |b| && a[..k] == b[..k] && a[k] < b[k] {
        if k > 0 {
          SameHead(a, b, k);
        }
      }
    }
  }

  lemma LexTotal(a: Id, b: Id)
    ensures LexLeq(a, b) || LexLeq(b, a)
  {
  }

  ghost predicate Ascending(ids: seq<Id>) {
    forall i | 0 <= i < |ids| - 1 :: LexLeq(ids[i], ids[i + 1])
  }

  ghost predicate Lists(ids: seq<Id>, keys: set<Id>) {
    (forall x :: x in ids <==> x in keys) && (forall i, j | 0 <= i < j < |ids| :: ids[i] != ids[j])
  }

  function Insert(ids: seq<Id>, x: Id): (r: seq<Id>)
    ensures |r| == |ids| + 1
    ensures forall y :: y in r <==> y == x || y in ids
    ensures ids != [] ==> r[0] == ids[0] || r[0] == x
  {
    if ids == [] then [x]
    else if LexLeq(x, ids[0]) then [x] + ids
    else
      var r := [ids[0]] + Insert(ids[1..], x);
      assert forall y :: y in ids <==> y == ids[0] || y in ids[1..];
      r
  }

  lemma {:induction false} InsertAscends(ids: seq<Id>, x: Id)
    requires Ascending(ids)
    ensures Ascending(Insert(ids, x))
  {
    if ids != [] {
      LexTotal(x, ids[0]);
      if !LexLeq(x, ids[0]) {
        var tail := Insert(ids[1..], x);
        assert Ascending(ids[1..]) by {
          forall i | 0 <= i < |ids[1..]| - 1 ensures LexLeq(ids[1..][i], ids[1..][i + 1]) {
            assert LexLeq(ids[i + 1], ids[i + 2]);
          }
        }
        InsertAscends(ids[1..], x);
        var r := Insert(ids, x);
        assert r == [ids[0]] + tail;
        forall i | 0 <= i < |r| - 1 ensures LexLeq(r[i], r[i + 1]) {
          if i > 0 {
            assert LexLeq(tail[i - 1], tail[i]);
          } else if |ids| > 1 {
            assert LexLeq(ids[0], ids[1]);
          }
        }
      }
    }
  }

  lemma {:induction false} InsertDistinct(ids: seq<Id>, x: Id)
    requires x !in ids && forall i, j | 0 <= i < j < |ids| :: ids[i] != ids[j]
    ensures forall i, j | 0 <= i < j < |Insert(ids, x)| :: Insert(ids, x)[i] != Insert(ids, x)[j]
  {
    if ids != [] && !LexLeq(x, ids[0]) {
      InsertDistinct(ids[1..], x);
      var tail := Insert(ids[1..], x);
      assert ids[0] !in ids[1..];
      assert Insert(ids, x) == [ids[0]] + tail;
      forall i, j | 0 <= i < j < |tail| + 1 ensures ([ids[0]] + tail)[i] != ([ids[0]] + tail)[j] {
        if i == 0 { assert tail[j - 1] in tail; }
      }
    }
  }

  // sort.Strings over the keys, taken out of the map in any order.
  method SortedIds(books: Books) returns (ids: seq<Id>)
    ensures Lists(ids, books.Keys) && Ascending(ids)
  {
    ids := [];
    var left := books.Keys;
    while left != {}
      invariant left <= books.Keys && Lists(ids, books.Keys - left) && Ascending(ids)
      decreases left
    {
      var x :| x in left;
      InsertAscends(ids, x);
      InsertDistinct(ids, x);
      ids := Insert(ids, x);
      left := left - {x};
    }
  }

  // ---- The rules ----

  // Every pass book after the first, against the first.
  // The first pass book of a list.
  ghost predicate FirstPass(books: Books, ids: seq<Id>, f: nat)
    requires Lists(ids, books.Keys)
  {
    f < |ids| && books[ids[f]].lobbyPass && forall k | 0 <= k < f :: !books[ids[k]].lobbyPass
  }

  // Every other pass book is reported against the first one in order.
  method PassProblems(books: Books, ids: seq<Id>) returns (problems: seq<Problem>)
    requires Lists(ids, books.Keys)
    ensures forall q :: q in problems <==>
              exists f, j | 0 <= f < j < |ids| :: FirstPass(books, ids, f) && books[ids[j]].lobbyPass && q == TwoPassBooks(ids[f], ids[j])
    ensures problems == [] <==> OnePass(books)
  {
    problems := [];
    var pass: Option<Id> := None;
    ghost var f: nat := |ids|;
    for i := 0 to |ids|
      invariant pass.None? ==> forall k | 0 <= k < i :: !books[ids[k]].lobbyPass
      invariant pass.Some? ==> f < i && FirstPass(books, ids, f) && pass.value == ids[f]
      invariant forall q :: q in problems <==> pass.Some? && exists j | f < j < i :: books[ids[j]].lobbyPass && q == TwoPassBooks(ids[f], ids[j])
      invariant problems == [] ==> forall k | 0 <= k < i :: books[ids[k]].lobbyPass ==> pass == Some(ids[k])
    {
      var id := ids[i];
      if books[id].lobbyPass {
        if pass.Some? {
          problems := problems + [TwoPassBooks(pass.value, id)];
        } else {
          pass := Some(id);
          f := i;
        }
      }
    }
    forall g | 0 <= g < |ids| && FirstPass(books, ids, g) ensures pass.Some? && g == f {
    }
    if problems != [] {
      var q := problems[0];
      assert q in problems;
    }
  }

  predicate IncludeProblem(books: Books, q: Problem) {
    || (q.Unheld? && Includes(books, q.book, q.inc) && q.inc != HOUSE && q.inc !in books)
    || (q.IncludesPassBook? && Includes(books, q.book, q.inc) && q.inc in books && books[q.inc].lobbyPass)
  }

  function ProblemOf(books: Books, id: Id, inc: Id): seq<Problem> {
    if inc != HOUSE && inc !in books then [Unheld(id, inc)]
    else if inc in books && books[inc].lobbyPass then [IncludesPassBook(id, inc)]
    else []
  }

  method IncludeProblems(books: Books, ids: seq<Id>) returns (problems: seq<Problem>)
    requires Lists(ids, books.Keys)
    ensures forall q :: q in problems <==> IncludeProblem(books, q)
    ensures problems == [] <==> AllResolved(books)
  {
    problems := [];
    for i := 0 to |ids|
      invariant forall q :: q in problems <==> IncludeProblem(books, q) && q.book in ids[..i]
    {
      var id := ids[i];
      var includes := books[id].includes;
      ghost var before := problems;
      for j := 0 to |includes|
        invariant forall q :: q in problems <==>
                    q in before || (IncludeProblem(books, q) && q.book == id && q.inc in includes[..j])
      {
        problems := problems + ProblemOf(books, id, includes[j]);
      }
    }
    assert forall q :: IncludeProblem(books, q) ==> q.book in ids;
    if problems == [] {
      forall id, inc | id in books && inc in books[id].includes ensures Resolved(books, inc) {
        assert Includes(books, id, inc);
        assert !IncludeProblem(books, Unheld(id, inc)) && !IncludeProblem(books, IncludesPassBook(id, inc));
      }
    } else {
      assert problems[0] in problems;
      var q := problems[0];
      assert IncludeProblem(books, q) && !Resolved(books, q.inc);
    }
  }

  // The walk over every book: one cycle, or the longest chain of each.
  method WalkAll(books: Books, ids: seq<Id>) returns (cycle: Id, depth: map<Id, int>)
    requires Lists(ids, books.Keys) && AllResolved(books) && "" !in books
    ensures cycle != "" ==> OnCycle(books, cycle)
    ensures cycle == "" ==> AllRanked(books, depth) && depth.Keys == books.Keys
  {
    hide OnCycle, AllResolved, AllRanked, IsPath;
    var walk := new Walk(books);
    for i := 0 to |ids|
      invariant fresh(walk) && walk.books == books && walk.Valid([]) && walk.cycle == ""
      invariant forall k | 0 <= k < i :: ids[k] in walk.depth
    {
      var d := walk.Visit(ids[i], []);
      if walk.cycle != "" {
        return walk.cycle, map[];
      }
    }
    forall x | x in books.Keys ensures x in walk.depth {
      assert x in ids;
    }
    return "", walk.depth;
  }

  method DeepBooks(ids: seq<Id>, depth: map<Id, int>) returns (problems: seq<Problem>)
    requires Lists(ids, depth.Keys)
    ensures forall q :: q in problems <==> q.TooDeep? && q.book in depth && q.depth == depth[q.book] && q.depth > MAX_DEPTH
  {
    problems := [];
    for i := 0 to |ids|
      invariant forall q :: q in problems <==> q.TooDeep? && q.book in ids[..i] && q.depth == depth[q.book] && q.depth > MAX_DEPTH
    {
      if depth[ids[i]] > MAX_DEPTH {
        problems := problems + [TooDeep(ids[i], depth[ids[i]])];
      }
    }
  }

  method GraphProblems(books: Books, ids: seq<Id>) returns (problems: seq<Problem>)
    requires Lists(ids, books.Keys) && AllResolved(books) && "" !in books
    ensures problems == [] <==> Acyclic(books) && Shallow(books)
    ensures !Acyclic(books) ==> exists x :: problems == [CycleThrough(x)] && OnCycle(books, x)
    ensures Acyclic(books) ==> forall q :: q in problems <==> q.TooDeep? && q.depth > MAX_DEPTH && LongestChain(books, q.book, q.depth)
  {
    var cycle, depth := WalkAll(books, ids);
    if cycle != "" {
      return [CycleThrough(cycle)];
    }
    RankedIsAcyclic(books, depth);
    DepthDecidesShallow(books, depth);
    problems := DeepBooks(ids, depth);
    assert problems == [] <==> forall x | x in books :: depth[x] <= MAX_DEPTH by {
      if x :| x in books && depth[x] > MAX_DEPTH {
        assert TooDeep(x, depth[x]) in problems;
      }
      if problems != [] {
        assert problems[0] in problems;
      }
    }
    forall x, d ensures LongestChain(books, x, d) <==> x in depth && d == depth[x] {
      if x in depth {
        RankIsLongestChain(books, depth, x);
      }
    }
  }

  lemma DepthDecidesShallow(books: Books, depth: map<Id, int>)
    requires AllRanked(books, depth) && depth.Keys == books.Keys
    ensures Shallow(books) <==> forall x | x in books :: depth[x] <= MAX_DEPTH
  {
    if forall x | x in books :: depth[x] <= MAX_DEPTH {
      forall x, p | IsChain(books, x, p) ensures |p| - 1 <= MAX_DEPTH {
        ChainBounded(books, depth, x, p);
      }
    } else {
      var x :| x in books && depth[x] > MAX_DEPTH;
      var p := ChainAttained(books, depth, x);
    }
  }

  // The rules about books and includes, before any walk.
  method SetProblems(books: Books, ids: seq<Id>) returns (problems: seq<Problem>, resolved: bool)
    requires Lists(ids, books.Keys)
    ensures resolved <==> AllResolved(books)
    ensures problems == [] <==> |books| <= MAX_BOOKS && OnePass(books) && AllResolved(books)
    ensures forall q | q in problems :: q.TooManyBooks? || q.TwoPassBooks? || q.Unheld? || q.IncludesPassBook?
    ensures TooManyBooks in problems <==> |books| > MAX_BOOKS
    ensures (exists q :: q in problems && q.TwoPassBooks?) <==> !OnePass(books)
    ensures forall q: Problem | q.Unheld? || q.IncludesPassBook? :: q in problems <==> IncludeProblem(books, q)
  {
    var many := if |books| > MAX_BOOKS then [TooManyBooks] else [];
    var passes := PassProblems(books, ids);
    if passes != [] {
      assert passes[0] in passes;
    }
    var includes := IncludeProblems(books, ids);
    problems := many + passes + includes;
    resolved := includes == [];
  }

  method Check(books: Books) returns (problems: seq<Problem>)
    // Each book passed its own rules and is filed under its own id, never empty.
    requires "" !in books
    ensures problems == [] <==> Acceptable(books)
    ensures TooManyBooks in problems <==> |books| > MAX_BOOKS
    ensures (exists q :: q in problems && q.TwoPassBooks?) <==> !OnePass(books)
    ensures forall q: Problem | q.Unheld? || q.IncludesPassBook? :: q in problems <==> IncludeProblem(books, q)
    ensures forall q | q in problems && q.CycleThrough? :: OnCycle(books, q.book)
    ensures AllResolved(books) ==> ((exists q :: q in problems && q.CycleThrough?) <==> !Acyclic(books))
    ensures AllResolved(books) && Acyclic(books) ==>
              forall q: Problem | q.TooDeep? :: q in problems <==> q.depth > MAX_DEPTH && LongestChain(books, q.book, q.depth)
  {
    var ids := SortedIds(books);
    var resolved;
    problems, resolved := SetProblems(books, ids);
    if resolved {
      var graph := GraphProblems(books, ids);
      assert forall q | q in graph :: q.CycleThrough? || q.TooDeep?;
      if graph != [] {
        assert graph[0] in graph;
      }
      problems := problems + graph;
    }
  }

  // ---- Admission ----

  datatype Holder = Holder(id: string, name: string)

  function HolderOf(c: Contact): Holder { Holder(c.id, c.name) }

  predicate ListsNumber(c: Contact, n: string) {
    exists k | 0 <= k < |c.numbers| :: c.numbers[k].number == n
  }

  // The first contact listed with a number is the one its caller is welcomed as.
  ghost predicate WelcomedAs(contacts: seq<Contact>, n: string, i: int) {
    0 <= i < |contacts| && ListsNumber(contacts[i], n) && forall j | 0 <= j < i :: !ListsNumber(contacts[j], n)
  }

  ghost predicate Indexes(index: map<string, Holder>, contacts: seq<Contact>) {
    && (forall n :: n in index <==> exists c :: c in contacts && ListsNumber(c, n))
    && (forall n, i | WelcomedAs(contacts, n, i) :: n in index && index[n].id == contacts[i].id && index[n].name == contacts[i].name)
  }

  method Holders(b: Book) returns (index: map<string, Holder>)
    ensures Indexes(index, b.contacts)
  {
    index := map[];
    for i := 0 to |b.contacts|
      invariant Indexes(index, b.contacts[..i])
    {
      index := AddContact(index, b.contacts[..i], b.contacts[i]);
      assert b.contacts[..i + 1] == b.contacts[..i] + [b.contacts[i]];
    }
    assert b.contacts[..|b.contacts|] == b.contacts;
  }

  method AddContact(before: map<string, Holder>, ghost contacts: seq<Contact>, c: Contact) returns (index: map<string, Holder>)
    requires Indexes(before, contacts)
    ensures Indexes(index, contacts + [c])
  {
    index := before;
    for k := 0 to |c.numbers|
      invariant forall n :: n in index <==> n in before || exists j | 0 <= j < k :: c.numbers[j].number == n
      invariant forall n | n in before :: index[n] == before[n]
      invariant forall n | n in index && n !in before :: index[n] == HolderOf(c)
    {
      var n := c.numbers[k].number;
      if n !in index {
        index := index[n := HolderOf(c)];
      }
    }
    IndexExtended(before, index, contacts, c);
  }

  lemma IndexExtended(before: map<string, Holder>, index: map<string, Holder>, contacts: seq<Contact>, c: Contact)
    requires Indexes(before, contacts)
    requires forall n :: n in index <==> n in before || ListsNumber(c, n)
    requires forall n | n in before :: index[n] == before[n]
    requires forall n | n in index && n !in before :: index[n] == HolderOf(c)
    ensures Indexes(index, contacts + [c])
  {
    var all := contacts + [c];
    forall n, i | WelcomedAs(all, n, i) ensures n in index && index[n] == HolderOf(all[i]) {
      if i < |contacts| {
        assert WelcomedAs(contacts, n, i) by {
          forall j | 0 <= j < i ensures !ListsNumber(contacts[j], n) { assert !ListsNumber(all[j], n); }
        }
      } else {
        forall j | 0 <= j < |contacts| ensures !ListsNumber(contacts[j], n) { assert !ListsNumber(all[j], n); }
      }
    }
  }
}
