// boundedZipDirectory: the check of an archive's central directory before any
// of it is read (internal/books/audiobook.go; sections 4.3.12 and 4.3.16 of the
// PKWARE APPNOTE).
module ZipDirectory {
  import opened Basics

  const END_SIZE := 22
  const HEADER_SIZE := 46
  const MAX_TAIL := 65557
  const MIN_MEMBERS := 3
  const MAX_MEMBERS := 4096
  const MAX_LENGTH := 8 * 1024 * 1024

  function U16(d: seq<Byte>, i: nat): (r: nat)
    requires i + 2 <= |d|
    ensures r < 0x1_0000
  {
    var low: nat, high: nat := d[i], d[i + 1];
    low + 256 * high
  }

  function U32(d: seq<Byte>, i: nat): nat
    requires i + 4 <= |d|
  {
    U16(d, i) + 0x1_0000 * U16(d, i + 2)
  }

  // The signature of an end record, PK\5\6, and of a central header, PK\1\2.
  predicate EndSignature(d: seq<Byte>, i: nat) {
    i + 4 <= |d| && d[i] == 0x50 && d[i + 1] == 0x4b && d[i + 2] == 0x05 && d[i + 3] == 0x06
  }

  predicate HeaderSignature(d: seq<Byte>, i: nat) {
    i + 4 <= |d| && U32(d, i) == 0x02014b50
  }

  lemma SignatureIsWord(d: seq<Byte>, i: nat)
    requires i + 4 <= |d|
    ensures EndSignature(d, i) <==> U32(d, i) == 0x06054b50
  {
  }

  // A record whose comment runs to the end of the file.
  predicate EndRecord(d: seq<Byte>, i: nat) {
    i + END_SIZE <= |d| && EndSignature(d, i) && i + END_SIZE + U16(d, i + 20) == |d|
  }

  // A central header with its name, extra field and comment.
  function HeaderLength(d: seq<Byte>, i: nat): nat
    requires i + HEADER_SIZE <= |d|
  {
    HEADER_SIZE + U16(d, i + 28) + U16(d, i + 30) + U16(d, i + 32)
  }

  // ---- What is accepted ----

  // The bounds the end record itself must state.
  predicate Bounded(d: seq<Byte>, pos: nat)
    requires pos + END_SIZE <= |d|
  {
    && U16(d, pos + 4) == 0 && U16(d, pos + 6) == 0 && U16(d, pos + 8) == U16(d, pos + 10)
    && MIN_MEMBERS <= U16(d, pos + 10) <= MAX_MEMBERS
    && U32(d, pos + 12) <= MAX_LENGTH && U32(d, pos + 16) + U32(d, pos + 12) == pos
  }

  // Headers laid end to end: header k runs from cuts[k] to cuts[k + 1].
  ghost predicate TiledBy(d: seq<Byte>, cuts: seq<nat>, from: nat, to: nat, count: nat) {
    && to <= |d| && |cuts| == count + 1 && cuts[0] == from && cuts[count] == to
    && forall k | 0 <= k < count :: HeaderSpans(d, cuts[k], cuts[k + 1], to)
  }

  predicate HeaderSpans(d: seq<Byte>, at: nat, next: nat, to: nat) {
    at + HEADER_SIZE <= to <= |d| && HeaderSignature(d, at) && next == at + HeaderLength(d, at) && next <= to
  }

  ghost predicate Tiles(d: seq<Byte>, from: nat, to: nat, count: nat) {
    exists cuts :: TiledBy(d, cuts, from, to, count)
  }

  // The part of the file an end record can start in.
  function TailStart(d: seq<Byte>): nat { if |d| < MAX_TAIL then 0 else |d| - MAX_TAIL }

  ghost predicate OnlySignature(d: seq<Byte>, pos: nat) {
    forall i | TailStart(d) <= i :: EndSignature(d, i) <==> i == pos
  }

  ghost predicate Accepted(d: seq<Byte>, pos: nat) {
    && EndRecord(d, pos) && OnlySignature(d, pos) && Bounded(d, pos)
    && Tiles(d, U32(d, pos + 16), pos, U16(d, pos + 10))
  }

  // ---- bytes.Count ----

  function Occurrences(d: seq<Byte>, n: nat): nat {
    if n == 0 then 0 else Occurrences(d, n - 1) + if EndSignature(d, n - 1) then 1 else 0
  }

  lemma {:induction false} NoOccurrence(d: seq<Byte>, n: nat)
    ensures Occurrences(d, n) == 0 <==> forall i | 0 <= i < n :: !EndSignature(d, i)
  {
    if n > 0 { NoOccurrence(d, n - 1); }
  }

  ghost predicate OnlyAt(d: seq<Byte>, p: nat, n: nat) {
    p < n && EndSignature(d, p) && forall i | 0 <= i < n :: EndSignature(d, i) ==> i == p
  }

  lemma {:induction false} OneOccurrence(d: seq<Byte>, n: nat)
    ensures Occurrences(d, n) == 1 <==> exists p :: OnlyAt(d, p, n)
  {
    hide EndSignature;
    if n > 0 {
      OneOccurrence(d, n - 1);
      NoOccurrence(d, n - 1);
      if EndSignature(d, n - 1) {
        if Occurrences(d, n) == 1 {
          assert OnlyAt(d, n - 1, n);
        }
      } else if Occurrences(d, n) == 1 {
        var p :| OnlyAt(d, p, n - 1);
        assert OnlyAt(d, p, n);
      } else if p :| OnlyAt(d, p, n) {
        assert OnlyAt(d, p, n - 1);
      }
    }
  }

  // Counts without overlaps; no two of this signature can overlap.
  method CountSignatures(d: seq<Byte>) returns (n: nat)
    ensures n == Occurrences(d, |d|)
  {
    n := 0;
    var i := 0;
    while i < |d|
      invariant i <= |d| && n == Occurrences(d, i)
    {
      if EndSignature(d, i) {
        assert Occurrences(d, i + 2) == Occurrences(d, i + 1) == n + 1;
        assert Occurrences(d, i + 4) == Occurrences(d, i + 3) == n + 1;
        n := n + 1;
        i := i + 4;
      } else {
        i := i + 1;
      }
    }
  }

  // ---- The check ----

  // Backwards over the tail, for the signature of a record ending at its end.
  method FindEnd(tail: seq<Byte>) returns (pos: int)
    ensures pos == -1 ==> forall i | 0 <= i :: !EndRecord(tail, i)
    ensures pos != -1 ==> pos >= 0 && EndRecord(tail, pos)
  {
    pos := |tail| - END_SIZE;
    while pos >= 0
      invariant -1 <= pos || pos == |tail| - END_SIZE
      invariant forall i | 0 <= i && pos < i :: !EndRecord(tail, i)
    {
      SignatureIsWord(tail, pos);
      if U32(tail, pos) == 0x06054b50 && pos + END_SIZE + U16(tail, pos + 20) == |tail| {
        return;
      }
      pos := pos - 1;
    }
    pos := -1;
  }

  method BoundedZipDirectory(d: seq<Byte>) returns (ok: bool)
    ensures ok <==> exists pos :: Accepted(d, pos)
  {
    hide Bounded, OnlySignature, Tiles, EndRecord, EndSignature, Occurrences, U16, U32;
    if |d| < END_SIZE {
      forall pos ensures !Accepted(d, pos) { RecordFits(d, pos); }
      return false;
    }
    var start := TailStart(d);
    var tail := d[start..];
    var count := CountSignatures(tail);
    forall pos ensures EndRecord(d, pos) ==> (OnlySignature(d, pos) <==> count == 1) { OnlyOneCounts(d, start, tail, pos); }
    if count != 1 {
      return false;
    }
    var p := FindEnd(tail);
    if p < 0 {
      forall pos ensures !Accepted(d, pos) { RecordInTail(d, start, tail, pos); }
      return false;
    }
    var pos := start + p;
    RecordAt(d, start, tail, p);
    if !Bounded(d, pos) {
      forall other ensures !Accepted(d, other) { OneRecord(d, pos, other); }
      return false;
    }
    BoundedFits(d, pos);
    ok := WalkHeaders(d, U32(d, pos + 16), pos, U16(d, pos + 10));
    if ok {
      assert Accepted(d, pos);
    } else {
      forall other ensures !Accepted(d, other) { OneRecord(d, pos, other); }
    }
  }

  lemma RecordFits(d: seq<Byte>, pos: nat)
    ensures EndRecord(d, pos) ==> pos + END_SIZE <= |d|
  {
  }

  lemma BoundedFits(d: seq<Byte>, pos: nat)
    requires EndRecord(d, pos) && Bounded(d, pos)
    ensures U32(d, pos + 16) <= pos
  {
  }

  lemma OneRecord(d: seq<Byte>, pos: nat, other: nat)
    requires EndRecord(d, pos) && OnlySignature(d, pos)
    ensures EndRecord(d, other) ==> other == pos
  {
    RecordInTail(d, TailStart(d), d[TailStart(d)..], other);
  }

  lemma RecordAt(d: seq<Byte>, start: nat, tail: seq<Byte>, p: nat)
    requires start == TailStart(d) && tail == d[start..] && EndRecord(tail, p)
    ensures EndRecord(d, start + p) && start + p + END_SIZE <= |d|
  {
    InTail(d, start, tail);
  }

  // The headers, one after another, up to the end record.
  method WalkHeaders(d: seq<Byte>, from: nat, to: nat, count: nat) returns (ok: bool)
    requires from <= to <= |d|
    ensures ok <==> Tiles(d, from, to, count)
  {
    var cursor := from;
    ghost var cuts: seq<nat> := [from];
    for i := 0 to count
      invariant |cuts| == i + 1 && cuts[0] == from && cuts[i] == cursor && from <= cursor <= to
      invariant forall k | 0 <= k < i :: HeaderSpans(d, cuts[k], cuts[k + 1], to)
      // Any tiling starts with these headers.
      invariant forall other | TiledBy(d, other, from, to, count) :: other[i] == cursor
    {
      forall other | TiledBy(d, other, from, to, count) ensures HeaderSpans(d, cursor, other[i + 1], to) {}
      if cursor + HEADER_SIZE > to || !HeaderSignature(d, cursor) {
        return false;
      }
      var next := cursor + HeaderLength(d, cursor);
      if next > to {
        return false;
      }
      cuts := cuts + [next];
      cursor := next;
    }
    ok := cursor == to;
    if ok {
      assert TiledBy(d, cuts, from, to, count);
    }
  }

  lemma InTail(d: seq<Byte>, start: nat, tail: seq<Byte>)
    requires start <= |d| && tail == d[start..]
    ensures forall i: nat :: EndSignature(tail, i) <==> EndSignature(d, start + i)
    ensures forall i: nat :: EndRecord(tail, i) <==> EndRecord(d, start + i)
  {
    forall i: nat ensures EndRecord(tail, i) <==> EndRecord(d, start + i) {
      if i + END_SIZE <= |tail| {
        assert tail[i + 20] == d[start + i + 20] && tail[i + 21] == d[start + i + 21];
      }
    }
  }

  // A record never starts before the tail: its comment is too short.
  lemma RecordInTail(d: seq<Byte>, start: nat, tail: seq<Byte>, pos: nat)
    requires start == TailStart(d) && tail == d[start..]
    ensures EndRecord(d, pos) ==> pos >= start && EndRecord(tail, pos - start)
  {
    InTail(d, start, tail);
    if EndRecord(d, pos) {
      assert EndRecord(tail, pos - start) <==> EndRecord(d, start + (pos - start));
    }
  }

  // One signature counted in the tail, and a record there, are one and the same.
  lemma OnlyOneCounts(d: seq<Byte>, start: nat, tail: seq<Byte>, pos: nat)
    requires start == TailStart(d) && tail == d[start..]
    ensures EndRecord(d, pos) ==> (OnlySignature(d, pos) <==> Occurrences(tail, |tail|) == 1)
  {
    InTail(d, start, tail);
    RecordInTail(d, start, tail, pos);
    OneOccurrence(tail, |tail|);
    if EndRecord(d, pos) {
      OnlyInTail(d, start, tail, pos);
    }
  }

  lemma OnlyInTail(d: seq<Byte>, start: nat, tail: seq<Byte>, pos: nat)
    requires start == TailStart(d) && tail == d[start..] && start <= pos && EndSignature(d, pos)
    requires forall i: nat :: EndSignature(tail, i) <==> EndSignature(d, start + i)
    ensures OnlySignature(d, pos) <==> exists p :: OnlyAt(tail, p, |tail|)
  {
    assert EndSignature(tail, pos - start);
    if OnlySignature(d, pos) {
      forall i | 0 <= i < |tail| && EndSignature(tail, i) ensures i == pos - start {
        assert EndSignature(d, start + i);
      }
      assert OnlyAt(tail, pos - start, |tail|);
    }
    if p :| OnlyAt(tail, p, |tail|) {
      forall i | start <= i ensures EndSignature(d, i) <==> i == pos {
        assert EndSignature(tail, i - start) <==> EndSignature(d, start + (i - start));
        assert EndSignature(tail, i - start) ==> i - start < |tail|;
      }
    }
  }

  // ---- Why it bounds what is read later ----

  // The headers found by reading until one is missing, whatever count the end
  // record states.
  function HeadersFrom(d: seq<Byte>, at: nat): nat
    decreases |d| - at
  {
    if at + HEADER_SIZE <= |d| && HeaderSignature(d, at) && at + HeaderLength(d, at) <= |d|
    then 1 + HeadersFrom(d, at + HeaderLength(d, at))
    else 0
  }

  // In an accepted archive that walk finds exactly the stated number of
  // headers, at most 4096 in at most eight mebibytes, and stops at the record.
  lemma AcceptedIsBounded(d: seq<Byte>, pos: nat)
    requires Accepted(d, pos)
    ensures HeadersFrom(d, U32(d, pos + 16)) == U16(d, pos + 10) <= MAX_MEMBERS
    ensures pos - U32(d, pos + 16) <= MAX_LENGTH
    ensures forall other | Accepted(d, other) :: other == pos
  {
    var cuts :| TiledBy(d, cuts, U32(d, pos + 16), pos, U16(d, pos + 10));
    SignatureIsWord(d, pos);
    WalkFinds(d, cuts, U32(d, pos + 16), pos, U16(d, pos + 10), 0);
    forall other | Accepted(d, other) ensures other == pos {
      RecordInTail(d, TailStart(d), d[TailStart(d)..], other);
    }
  }

  lemma {:induction false} WalkFinds(d: seq<Byte>, cuts: seq<nat>, from: nat, to: nat, count: nat, k: nat)
    requires TiledBy(d, cuts, from, to, count) && k <= count && !HeaderSignature(d, to)
    ensures HeadersFrom(d, cuts[k]) == count - k
    decreases count - k
  {
    if k < count {
      assert HeaderSpans(d, cuts[k], cuts[k + 1], to);
      WalkFinds(d, cuts, from, to, count, k + 1);
    }
  }
}
