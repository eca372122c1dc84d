// The include graph of a box's account books, stated without any traversal:
// edges, cycles and chains.
module IncludeGraph {
  type Id = string

  const HOUSE := "house"
  const MAX_BOOKS := 200
  const MAX_DEPTH := 4

  datatype Number = Number(kind: string, number: string)

  datatype Contact = Contact(id: string, name: string, numbers: seq<Number>)

  datatype Book = Book(id: Id, revision: int, lobbyPass: bool, includes: seq<Id>, contacts: seq<Contact>)

  type Books = map<Id, Book>

  // `house` is resolved by each box itself: never a book to walk into.
  predicate Edge(books: Books, a: Id, b: Id) {
    a in books && b in books && b in books[a].includes && b != HOUSE
  }

  ghost predicate IsPath(books: Books, p: seq<Id>) {
    p != [] && forall i | 0 <= i < |p| - 1 :: Edge(books, p[i], p[i + 1])
  }

  ghost predicate CyclePath(books: Books, x: Id, p: seq<Id>) {
    IsPath(books, p) && |p| >= 2 && p[0] == x && p[|p| - 1] == x
  }

  ghost predicate OnCycle(books: Books, x: Id) {
    exists p :: CyclePath(books, x, p)
  }

  ghost predicate Acyclic(books: Books) {
    forall x :: !OnCycle(books, x)
  }

  predicate Includes(books: Books, a: Id, b: Id) {
    a in books && b in books[a].includes
  }

  // A chain of includes from a book, which may end in `house`.
  ghost predicate IsChain(books: Books, x: Id, p: seq<Id>) {
    && p != [] && p[0] == x && x in books
    && (forall i | 0 <= i < |p| - 1 :: Includes(books, p[i], p[i + 1]))
    && (forall i | 0 < i < |p| - 1 :: p[i] != HOUSE)
  }

  ghost predicate LongestChain(books: Books, x: Id, d: int) {
    && (forall p :: IsChain(books, x, p) ==> |p| - 1 <= d)
    && (exists p :: IsChain(books, x, p) && |p| - 1 == d)
  }

  predicate Resolved(books: Books, inc: Id) {
    (inc == HOUSE || inc in books) && (inc in books ==> !books[inc].lobbyPass)
  }

  ghost predicate AllResolved(books: Books) {
    forall id, inc | id in books && inc in books[id].includes :: Resolved(books, inc)
  }

  ghost predicate OnePass(books: Books) {
    forall a, b | a in books && b in books && books[a].lobbyPass && books[b].lobbyPass :: a == b
  }

  ghost predicate Shallow(books: Books) {
    forall x, p :: IsChain(books, x, p) ==> |p| - 1 <= MAX_DEPTH
  }

  // The rules a set of books must keep.
  ghost predicate Acceptable(books: Books) {
    |books| <= MAX_BOOKS && OnePass(books) && AllResolved(books) && Acyclic(books) && Shallow(books)
  }

  // ---- A ranking of the books proves both ----

  function RankOf(depth: map<Id, int>, inc: Id): int {
    if inc == HOUSE || inc !in depth then 0 else depth[inc]
  }

  // depth[x] is the longest way down from x, measured one include at a time.
  ghost predicate Ranked(books: Books, depth: map<Id, int>, x: Id)
    requires x in books
  {
    && x in depth && depth[x] >= 0
    && (forall inc | inc in books[x].includes :: (inc == HOUSE || inc in depth) && depth[x] >= 1 + RankOf(depth, inc))
    && (depth[x] == 0 || exists inc :: inc in books[x].includes && depth[x] == 1 + RankOf(depth, inc))
  }

  ghost predicate AllRanked(books: Books, depth: map<Id, int>) {
    depth.Keys <= books.Keys && forall x | x in depth :: Ranked(books, depth, x)
  }

  lemma {:induction false} RankFalls(books: Books, depth: map<Id, int>, p: seq<Id>)
    requires AllRanked(books, depth) && IsPath(books, p) && p[0] in depth
    ensures p[|p| - 1] in depth && depth[p[0]] >= depth[p[|p| - 1]] + |p| - 1
    decreases |p|
  {
    if |p| > 1 {
      assert Edge(books, p[0], p[1]);
      assert Ranked(books, depth, p[0]);
      assert IsPath(books, p[1..]) by {
        forall i | 0 <= i < |p[1..]| - 1 ensures Edge(books, p[1..][i], p[1..][i + 1]) {
          assert Edge(books, p[i + 1], p[i + 2]);
        }
      }
      RankFalls(books, depth, p[1..]);
    }
  }

  lemma RankedIsAcyclic(books: Books, depth: map<Id, int>)
    requires AllRanked(books, depth) && depth.Keys == books.Keys
    ensures Acyclic(books)
  {
    forall x, p | CyclePath(books, x, p) ensures false {
      assert Edge(books, p[0], p[1]);
      RankFalls(books, depth, p);
    }
  }

  lemma ChainTail(books: Books, x: Id, p: seq<Id>)
    requires IsChain(books, x, p) && |p| > 1 && p[1] != HOUSE && p[1] in books
    ensures Includes(books, x, p[1]) && IsChain(books, p[1], p[1..])
  {
    var q := p[1..];
    assert Includes(books, p[0], p[1]);
    forall i | 0 <= i < |q| - 1 ensures Includes(books, q[i], q[i + 1]) {
      assert Includes(books, p[i + 1], p[i + 1 + 1]);
    }
  }

  lemma ChainCons(books: Books, x: Id, inc: Id, q: seq<Id>)
    requires Includes(books, x, inc) && inc != HOUSE && IsChain(books, inc, q)
    ensures IsChain(books, x, [x] + q)
  {
    var p := [x] + q;
    forall i | 0 <= i < |p| - 1 ensures Includes(books, p[i], p[i + 1]) {
      if i > 0 {
        assert Includes(books, q[i - 1], q[i - 1 + 1]);
      }
    }
  }

  lemma {:induction false} ChainBounded(books: Books, depth: map<Id, int>, x: Id, p: seq<Id>)
    requires AllRanked(books, depth) && x in depth && IsChain(books, x, p)
    ensures |p| - 1 <= depth[x]
    decreases |p|
  {
    assert Ranked(books, depth, x);
    if |p| > 1 {
      assert Includes(books, p[0], p[1]);
      if p[1] != HOUSE {
        ChainTail(books, x, p);
        ChainBounded(books, depth, p[1], p[1..]);
      }
    }
  }

  lemma {:induction false} ChainAttained(books: Books, depth: map<Id, int>, x: Id) returns (p: seq<Id>)
    requires AllRanked(books, depth) && x in depth
    ensures IsChain(books, x, p) && |p| - 1 == depth[x]
    decreases if x in depth then depth[x] else 0
  {
    assert Ranked(books, depth, x);
    if depth[x] == 0 {
      p := [x];
    } else {
      var inc :| inc in books[x].includes && depth[x] == 1 + RankOf(depth, inc);
      if inc == HOUSE {
        p := [x, inc];
        assert Includes(books, p[0], p[1]);
      } else {
        assert Ranked(books, depth, inc);
        var q := ChainAttained(books, depth, inc);
        ChainCons(books, x, inc, q);
        p := [x] + q;
      }
    }
  }

  lemma RankIsLongestChain(books: Books, depth: map<Id, int>, x: Id)
    requires AllRanked(books, depth) && x in depth
    ensures LongestChain(books, x, depth[x])
    ensures forall d :: LongestChain(books, x, d) ==> d == depth[x]
  {
    forall p | IsChain(books, x, p) ensures |p| - 1 <= depth[x] {
      ChainBounded(books, depth, x, p);
    }
    var q := ChainAttained(books, depth, x);
  }
}
