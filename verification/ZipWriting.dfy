// An archive written as sections 4.3.12 and 4.3.16 of the PKWARE APPNOTE lay it
// out, field by field, and what the check of its directory makes of it.
module ZipWriting {
  import opened Basics
  import opened ZipDirectory

  function Low(n: nat): Byte { n % 256 }

  // Little-endian words.
  function Le16(n: nat): (s: seq<Byte>)
    ensures |s| == 2
  {
    [Low(n), Low(n / 256)]
  }

  function Le32(n: nat): (s: seq<Byte>)
    ensures |s| == 4
  {
    Le16(n % 0x1_0000) + Le16(n / 0x1_0000)
  }

  // What a central header holds besides the three lengths: the 24 bytes between
  // its signature and them, the 12 after them, and the fields they measure.
  datatype Member = Member(versions: seq<Byte>, attributes: seq<Byte>, name: seq<Byte>, extra: seq<Byte>, comment: seq<Byte>)
  {
    predicate Valid() {
      |versions| == 24 && |attributes| == 12 && |name| < 0x1_0000 && |extra| < 0x1_0000 && |comment| < 0x1_0000
    }

    function Fields(): seq<Byte> { name + extra + comment }

    function Header(): seq<Byte> {
      [0x50, 0x4b, 0x01, 0x02] + versions + Le16(|name|) + Le16(|extra|) + Le16(|comment|) + attributes + Fields()
    }
  }

  function Directory(ms: seq<Member>): seq<Byte> {
    if ms == [] then [] else Directory(ms[..|ms| - 1]) + ms[|ms| - 1].Header()
  }

  // What an end record claims: its disk, the disk the directory starts on, and
  // the members on this disk and in all.
  datatype Claim = Claim(disk: nat, first: nat, here: nat, count: nat)
  {
    predicate Fits() { disk < 0x1_0000 && first < 0x1_0000 && here < 0x1_0000 && count < 0x1_0000 }
  }

  function End(c: Claim, length: nat, offset: nat, comment: seq<Byte>): seq<Byte> {
    [0x50, 0x4b, 0x05, 0x06] + Le16(c.disk) + Le16(c.first) + Le16(c.here) + Le16(c.count) + Le32(length) + Le32(offset) + Le16(|comment|) + comment
  }

  // The members' own data, the directory, and the end record.
  function Archive(data: seq<Byte>, ms: seq<Member>, c: Claim, comment: seq<Byte>): seq<Byte> {
    data + Directory(ms) + End(c, |Directory(ms)|, |data|, comment)
  }

  // ---- Reading what was written ----

  lemma Word(d: seq<Byte>, i: nat, n: nat)
    requires n < 0x1_0000 && i + 2 <= |d| && d[i..i + 2] == Le16(n)
    ensures U16(d, i) == n
  {
    assert d[i] == d[i..i + 2][0] && d[i + 1] == d[i..i + 2][1];
  }

  lemma DoubleWord(d: seq<Byte>, i: nat, n: nat)
    requires n < 0x1_0000_0000 && i + 4 <= |d| && d[i..i + 4] == Le32(n)
    ensures U32(d, i) == n
  {
    assert d[i..i + 2] == d[i..i + 4][..2] && d[i + 2..i + 4] == d[i..i + 4][2..];
    Word(d, i, n % 0x1_0000);
    Word(d, i + 2, n / 0x1_0000);
  }

  lemma HeaderReads(m: Member)
    requires m.Valid()
    ensures var h := m.Header();
            && |h| == HEADER_SIZE + |m.name| + |m.extra| + |m.comment|
            && h[..4] == [0x50, 0x4b, 0x01, 0x02]
            && h[28..30] == Le16(|m.name|) && h[30..32] == Le16(|m.extra|) && h[32..34] == Le16(|m.comment|)
  {
    hide Le16;
  }

  lemma Inside<T>(d: seq<T>, h: seq<T>, at: nat, i: nat, j: nat)
    requires at + |h| <= |d| && d[at..at + |h|] == h && i <= j <= |h|
    ensures d[at + i..at + j] == h[i..j]
  {
    forall k | i <= k < j ensures d[at + k] == h[k] {
      assert d[at..at + |h|][k] == d[at + k];
    }
    assert d[at + i..at + j] == h[i..j];
  }

  // A written header spans exactly itself.
  lemma HeaderSpansItself(d: seq<Byte>, at: nat, to: nat, m: Member)
    requires m.Valid() && at + |m.Header()| <= to <= |d| && d[at..at + |m.Header()|] == m.Header()
    ensures HeaderSpans(d, at, at + |m.Header()|, to)
  {
    hide Le16, U16, U32;
    var h := m.Header();
    HeaderReads(m);
    Inside(d, h, at, 0, 4);
    Inside(d, h, at, 28, 30);
    Inside(d, h, at, 30, 32);
    Inside(d, h, at, 32, 34);
    Word(d, at + 28, |m.name|);
    Word(d, at + 30, |m.extra|);
    Word(d, at + 32, |m.comment|);
    SignatureReads(d, at);
  }

  lemma SignatureReads(d: seq<Byte>, at: nat)
    requires at + 4 <= |d| && d[at..at + 4] == [0x50, 0x4b, 0x01, 0x02]
    ensures HeaderSignature(d, at)
  {
    var w := d[at..at + 4];
    assert d[at] == w[0] && d[at + 1] == w[1] && d[at + 2] == w[2] && d[at + 3] == w[3];
  }

  ghost predicate AllValid(ms: seq<Member>) { forall k | 0 <= k < |ms| :: ms[k].Valid() }

  // Where each header of a directory starts, and where the last one ends.
  function Cuts(from: nat, ms: seq<Member>): (cuts: seq<nat>)
    ensures |cuts| == |ms| + 1
  {
    seq(|ms| + 1, k requires 0 <= k <= |ms| => from + |Directory(ms[..k])|)
  }

  lemma {:induction false} DirectoryPrefix(ms: seq<Member>, k: nat)
    requires k <= |ms|
    ensures Directory(ms[..k]) <= Directory(ms)
    decreases |ms| - k
  {
    hide Member.Header;
    if k == |ms| {
      assert ms[..k] == ms;
    } else {
      assert ms[..k + 1][..k] == ms[..k];
      DirectoryPrefix(ms, k + 1);
    }
  }

  lemma PartAt<T>(d: seq<T>, from: nat, all: seq<T>, before: seq<T>, h: seq<T>)
    requires from + |all| <= |d| && d[from..from + |all|] == all && before + h <= all
    ensures |before| + |h| <= |all| && d[from + |before|..from + |before| + |h|] == h
  {
    forall k | 0 <= k < |h| ensures d[from + |before| + k] == h[k] {
      assert all[|before| + k] == (before + h)[|before| + k];
      assert d[from..from + |all|][|before| + k] == d[from + |before| + k];
    }
  }

  lemma DirectorySnoc(ms: seq<Member>, k: nat)
    requires k < |ms|
    ensures Directory(ms[..k + 1]) == Directory(ms[..k]) + ms[k].Header()
  {
    hide Member.Header;
    assert ms[..k + 1][..k] == ms[..k];
  }

  lemma DirectoryTiles(d: seq<Byte>, from: nat, to: nat, ms: seq<Member>, k: nat)
    requires AllValid(ms) && from + |Directory(ms)| <= to <= |d| && d[from..from + |Directory(ms)|] == Directory(ms)
    requires k < |ms|
    ensures HeaderSpans(d, from + |Directory(ms[..k])|, from + |Directory(ms[..k + 1])|, to)
  {
    hide HeaderSpans, Member.Header, Member.Valid, Directory;
    DirectoryPrefix(ms, k + 1);
    DirectorySnoc(ms, k);
    PartAt(d, from, Directory(ms), Directory(ms[..k]), ms[k].Header());
    HeaderSpansItself(d, from + |Directory(ms[..k])|, to, ms[k]);
  }

  lemma EndReads(c: Claim, length: nat, offset: nat, comment: seq<Byte>)
    ensures var e := End(c, length, offset, comment);
            && |e| == END_SIZE + |comment| && e[..4] == [0x50, 0x4b, 0x05, 0x06]
            && e[4..6] == Le16(c.disk) && e[6..8] == Le16(c.first) && e[8..10] == Le16(c.here) && e[10..12] == Le16(c.count)
            && e[12..16] == Le32(length) && e[16..20] == Le32(offset) && e[20..22] == Le16(|comment|)
  {
    hide Le16, Le32;
  }

  lemma RecordReads(d: seq<Byte>, pos: nat, c: Claim, length: nat, offset: nat, comment: seq<Byte>)
    requires pos <= |d| && d[pos..] == End(c, length, offset, comment)
    requires c.Fits() && length < 0x1_0000_0000 && offset < 0x1_0000_0000 && |comment| < 0x1_0000
    ensures EndRecord(d, pos)
    ensures U16(d, pos + 4) == c.disk && U16(d, pos + 6) == c.first && U16(d, pos + 8) == c.here && U16(d, pos + 10) == c.count
    ensures U32(d, pos + 12) == length && U32(d, pos + 16) == offset
  {
    hide Le16, Le32, U16, U32;
    var e := End(c, length, offset, comment);
    EndReads(c, length, offset, comment);
    assert d[pos..pos + |e|] == e;
    Inside(d, e, pos, 0, 4);
    Inside(d, e, pos, 4, 6);
    Inside(d, e, pos, 6, 8);
    Inside(d, e, pos, 8, 10);
    Inside(d, e, pos, 10, 12);
    Inside(d, e, pos, 12, 16);
    Inside(d, e, pos, 16, 20);
    Inside(d, e, pos, 20, 22);
    Word(d, pos + 4, c.disk);
    Word(d, pos + 6, c.first);
    Word(d, pos + 8, c.here);
    Word(d, pos + 10, c.count);
    DoubleWord(d, pos + 12, length);
    DoubleWord(d, pos + 16, offset);
    Word(d, pos + 20, |comment|);
    EndSigned(d, pos);
  }

  lemma EndSigned(d: seq<Byte>, pos: nat)
    requires pos + 4 <= |d| && d[pos..pos + 4] == [0x50, 0x4b, 0x05, 0x06]
    ensures EndSignature(d, pos)
  {
    var w := d[pos..pos + 4];
    assert d[pos] == w[0] && d[pos + 1] == w[1] && d[pos + 2] == w[2] && d[pos + 3] == w[3];
  }

  lemma NoMembers()
    ensures Directory([]) == []
  {
  }

  // Whether four bytes that look like an end record start at a place.
  predicate LooksLikeEnd(d: seq<Byte>, i: nat) {
    i + 4 <= |d| && d[i..i + 4] == [0x50, 0x4b, 0x05, 0x06]
  }

  lemma LooksMeans(d: seq<Byte>, i: nat)
    ensures LooksLikeEnd(d, i) <==> EndSignature(d, i)
  {
  }

  // Nothing else in the last 65557 bytes looks like one.
  lemma OnlyOneMeans(d: seq<Byte>, pos: nat)
    requires EndRecord(d, pos)
    ensures OnlySignature(d, pos) <==> forall i: nat | i + 65557 >= |d| && LooksLikeEnd(d, i) :: i == pos
  {
    hide LooksLikeEnd, EndSignature;
    forall i: nat ensures LooksLikeEnd(d, i) <==> EndSignature(d, i) { LooksMeans(d, i); }
  }

  // Two tilings of one stretch are the same.
  lemma {:induction false} OneTiling(d: seq<Byte>, a: seq<nat>, b: seq<nat>, from: nat, to: nat, m: nat, n: nat, k: nat)
    requires TiledBy(d, a, from, to, m) && TiledBy(d, b, from, to, n) && k <= m && k <= n
    ensures a[k] == b[k]
  {
    if k > 0 {
      OneTiling(d, a, b, from, to, m, n, k - 1);
      assert HeaderSpans(d, a[k - 1], a[k], to) && HeaderSpans(d, b[k - 1], b[k], to);
    }
  }

  lemma InnerCut(d: seq<Byte>, cuts: seq<nat>, from: nat, to: nat, n: nat, k: nat)
    requires TiledBy(d, cuts, from, to, n) && k < n
    ensures cuts[k] < to
  {
    assert HeaderSpans(d, cuts[k], cuts[k + 1], to);
  }

  lemma OneCount(d: seq<Byte>, a: seq<nat>, b: seq<nat>, from: nat, to: nat, m: nat, n: nat)
    requires TiledBy(d, a, from, to, m) && TiledBy(d, b, from, to, n)
    ensures m == n
  {
    OneTiling(d, a, b, from, to, m, n, Min(m, n));
    if m < n {
      InnerCut(d, b, from, to, n, m);
    } else if n < m {
      InnerCut(d, a, from, to, m, n);
    }
  }

  // A written archive is accepted exactly when its record claims one disk and the
  // members there are, nothing else in its tail looks like an end record, and it
  // has three to 4096 members and at most eight mebibytes of directory.
  lemma WrittenIsAccepted(data: seq<Byte>, ms: seq<Member>, c: Claim, comment: seq<Byte>)
    requires AllValid(ms) && c.Fits() && |Directory(ms)| < 0x1_0000_0000 && |data| < 0x1_0000_0000 && |comment| < 0x1_0000
    ensures var d, end := Archive(data, ms, c, comment), |data| + |Directory(ms)|;
            (exists pos :: Accepted(d, pos)) <==>
              && c == Claim(0, 0, |ms|, |ms|)
              && (forall i: nat | i + 65557 >= |d| && LooksLikeEnd(d, i) :: i == end) && 3 <= |ms| <= 4096 && |Directory(ms)| <= 8388608
  {
    hide U16, U32, EndRecord, OnlySignature, Le16, Le32, End, HeaderSpans, Member.Header, Directory, EndSignature, LooksLikeEnd, Tiles, TiledBy;
    var d, dir := Archive(data, ms, c, comment), Directory(ms);
    var pos := |data| + |dir|;
    assert d[pos..] == End(c, |dir|, |data|, comment);
    assert d[|data|..|data| + |dir|] == dir;
    RecordReads(d, pos, c, |dir|, |data|, comment);
    TilesWhen(d, data, ms, c.count);
    RecordFits(d, pos);
    OnlyOneMeans(d, pos);
    assert Accepted(d, pos) <==> c == Claim(0, 0, |ms|, |ms|) && OnlySignature(d, pos) && 3 <= |ms| <= 4096 && |dir| <= 8388608;
    forall other | Accepted(d, other) ensures other == pos { SameRecord(d, pos, other); }
  }

  // The directory is tiled by as many headers as it has members, and no others.
  lemma TilesWhen(d: seq<Byte>, data: seq<Byte>, ms: seq<Member>, count: nat)
    requires AllValid(ms) && data + Directory(ms) <= d
    ensures Tiles(d, |data|, |data| + |Directory(ms)|, count) <==> count == |ms|
  {
    hide HeaderSpans, Member.Header, Directory;
    var pos, cuts := |data| + |Directory(ms)|, Cuts(|data|, ms);
    assert d[|data|..pos] == Directory(ms);
    forall k | 0 <= k < |ms| ensures HeaderSpans(d, cuts[k], cuts[k + 1], pos) { DirectoryTiles(d, |data|, pos, ms, k); }
    assert ms[..0] == [] && ms[..|ms|] == ms;
    NoMembers();
    assert TiledBy(d, cuts, |data|, pos, |ms|);
    if other :| TiledBy(d, other, |data|, pos, count) {
      OneCount(d, cuts, other, |data|, pos, |ms|, count);
    }
  }

  // A record in the tail is the one accepted.
  lemma SameRecord(d: seq<Byte>, pos: nat, other: nat)
    requires EndRecord(d, pos) && Accepted(d, other)
    ensures other == pos
  {
    assert EndSignature(d, pos) && TailStart(d) <= pos;
  }
}
