// The playlist text the importer writes for a chapter and the reader that
// decides whether that chapter can be played (internal/books/audiobook.go).
module PlaylistText {
  import opened TextLines

  const HEADER := "ffconcat version 1.0"
  const FILE := "file "
  const DURATION := "duration "

  function Digit(d: nat): char requires d < 10 { '0' + d as char }

  predicate AllDigits(s: string) { forall i | 0 <= i < |s| :: '0' <= s[i] <= '9' }

  // %0wd of a number with no more than w digits.
  function Fixed(n: nat, w: nat): (s: string)
    ensures |s| == w && AllDigits(s)
  {
    if w == 0 then "" else Fixed(n / 10, w - 1) + [Digit(n % 10)]
  }

  function Decimal(n: nat): (s: string)
    ensures s != "" && AllDigits(s)
  {
    if n < 10 then [Digit(n)] else Decimal(n / 10) + [Digit(n % 10)]
  }

  // %06d, which is longer than six digits from a million on.
  function SegmentName(k: nat): string {
    "segment-" + (if k < 1000000 then Fixed(k, 6) else Decimal(k)) + ".opus"
  }

  function ChapterName(i: nat): string { "chapter-" + Fixed(i + 1, 3) + ".ffconcat" }

  // %.6f of a number of microseconds.
  function Seconds6(v: nat): string { Decimal(v / 1000000) + "." + Fixed(v % 1000000, 6) }

  // compressedSegment.
  predicate IsSegmentName(s: string) {
    && |s| == 19 && s[..8] == "segment-" && s[14..] == ".opus"
    && AllDigits(s[8..14])
  }

  function Terminated(lines: seq<string>): string {
    if lines == [] then "" else Terminated(lines[..|lines| - 1]) + lines[|lines| - 1] + "\n"
  }

  function TrimSuffix(s: string, suffix: string): string {
    if |s| >= |suffix| && s[|s| - |suffix|..] == suffix then s[..|s| - |suffix|] else s
  }

  function Lines(s: string): seq<string> { Split(TrimSuffix(s, "\n")) }

  // Reading back the lines that were written.
  lemma {:induction false} LinesOfTerminated(lines: seq<string>)
    requires lines != [] && forall i | 0 <= i < |lines| :: OneLine(lines[i])
    ensures Lines(Terminated(lines)) == lines
  {
    var init, last := lines[..|lines| - 1], lines[|lines| - 1];
    var text := Terminated(lines);
    assert TrimSuffix(text, "\n") == Terminated(init) + last;
    SplitOneLine(last);
    if init == [] {
      assert Terminated(init) + last == last;
    } else {
      LinesOfTerminated(init);
      var before := TrimSuffix(Terminated(init), "\n");
      assert Terminated(init) + last == before + "\n" + last;
      SplitAt(before, last);
    }
  }

  // A decimal reader for what %.6f prints: the printed value comes back.
  function Value(s: string): nat
    requires AllDigits(s)
  {
    if s == "" then 0 else 10 * Value(s[..|s| - 1]) + (s[|s| - 1] - '0') as nat
  }

  lemma {:induction false} DecimalReads(n: nat)
    ensures Value(Decimal(n)) == n
  {
    if n >= 10 {
      DecimalReads(n / 10);
      assert Decimal(n)[..|Decimal(n)| - 1] == Decimal(n / 10);
    } else {
      assert Decimal(n)[..0] == "";
    }
  }

  function Pow10(w: nat): nat { if w == 0 then 1 else 10 * Pow10(w - 1) }

  lemma {:induction false} FixedReads(n: nat, w: nat)
    requires n < Pow10(w)
    ensures Value(Fixed(n, w)) == n
  {
    if w > 0 {
      FixedReads(n / 10, w - 1);
      assert Fixed(n, w)[..w - 1] == Fixed(n / 10, w - 1);
    }
  }

  lemma SixDigits()
    ensures Pow10(6) == 1000000 && Pow10(3) == 1000
  {
    assert Pow10(3) == 10 * Pow10(2) && Pow10(2) == 10 * Pow10(1) && Pow10(1) == 10;
    assert Pow10(6) == 10 * Pow10(5) && Pow10(5) == 10 * Pow10(4) && Pow10(4) == 10 * Pow10(3);
  }

  lemma Infix(before: string, s: string, after: string)
    ensures var all := before + s + after; all[..|before|] == before && all[|before|..|before| + |s|] == s && all[|before| + |s|..] == after
  {
  }

  lemma SegmentNamesDiffer(a: nat, b: nat)
    requires a < 1000000 && b < 1000000 && SegmentName(a) == SegmentName(b)
    ensures a == b
  {
    hide Fixed, Pow10, Value, Decimal;
    SixDigits();
    FixedReads(a, 6);
    FixedReads(b, 6);
    Infix("segment-", Fixed(a, 6), ".opus");
    Infix("segment-", Fixed(b, 6), ".opus");
  }

  lemma ChapterNamesDiffer(a: nat, b: nat)
    requires a < 999 && b < 999 && ChapterName(a) == ChapterName(b)
    ensures a == b
  {
    hide Fixed, Pow10, Value, Decimal;
    SixDigits();
    FixedReads(a + 1, 3);
    FixedReads(b + 1, 3);
    Infix("chapter-", Fixed(a + 1, 3), ".ffconcat");
    Infix("chapter-", Fixed(b + 1, 3), ".ffconcat");
  }

  lemma SegmentNamesMatch(k: nat)
    ensures IsSegmentName(SegmentName(k)) <==> k < 1000000
  {
    if k < 1000000 {
      Infix("segment-", Fixed(k, 6), ".opus");
    } else {
      SixDigits();
      LongDecimal(k, 6);
      Infix("segment-", Decimal(k), ".opus");
    }
  }

  // And nothing but a numbered name matches it.
  lemma NamesAreNumbered(s: string)
    ensures IsSegmentName(s) <==> exists k: nat :: k < 1000000 && s == SegmentName(k)
  {
    hide Fixed, Decimal, AllDigits;
    if IsSegmentName(s) {
      var k := NumberOf(s[8..14]);
      SixDigits();
      assert s == s[..8] + s[8..14] + s[14..];
      assert s == SegmentName(k);
    }
    if k: nat :| k < 1000000 && s == SegmentName(k) {
      SegmentNamesMatch(k);
    }
  }

  lemma {:induction false} NumberOf(digits: string) returns (n: nat)
    requires AllDigits(digits)
    ensures n < Pow10(|digits|) && Fixed(n, |digits|) == digits
  {
    if digits == "" {
      n := 0;
    } else {
      var w := |digits| - 1;
      var m := NumberOf(digits[..w]);
      var d := (digits[w] - '0') as nat;
      n := 10 * m + d;
      assert n / 10 == m && n % 10 == d;
      assert digits == digits[..w] + [digits[w]];
    }
  }

  lemma {:induction false} LongDecimal(n: nat, w: nat)
    requires n >= Pow10(w)
    ensures |Decimal(n)| > w
  {
    SixDigits();
    if w > 0 {
      TenTimes(n, w);
      LongDecimal(n / 10, w - 1);
    }
  }

  lemma TenTimes(n: nat, w: nat)
    requires w > 0 && n >= Pow10(w)
    ensures n >= 10 && n / 10 >= Pow10(w - 1)
  {
    PowPositive(w - 1);
  }

  lemma {:induction false} PowPositive(w: nat)
    ensures Pow10(w) >= 1
  {
    if w > 0 { PowPositive(w - 1); }
  }
}

module Playlist {
  import opened Basics
  import opened PlaylistText
  import opened Timeline

  const BYTES_PER_SECOND := 32000
  const MAX_DECODED := 46 * 32000
  const MAX_FILE := 0x10_0000

  datatype File = Audio(size: nat) | Text(text: string)

  type Directory = map<string, File>

  // strconv.ParseFloat, without NaN and the infinities; and %.6f of n/32000,
  // which is n * 31.25 to the nearest microsecond, a tie going either way.
  type Parse = string -> Option<real>
  type Round = nat -> nat

  function Micro(v: nat): real { v as real / 1000000.0 }

  ghost predicate Reads(parse: Parse) {
    forall v: nat :: parse(Seconds6(v)) == Some(Micro(v))
  }

  ghost predicate Nearest(round: Round) {
    forall n: nat :: Abs(4 * round(n) - 125 * n) <= 2
  }

  // ---- The reader ----

  predicate EntryReady(dir: Directory, file: string, duration: string, parse: Parse) {
    && FILE <= file && IsSegmentName(file[|FILE|..])
    && file[|FILE|..] in dir
    && (match dir[file[|FILE|..]]
        case Audio(size) => 0 < size <= MAX_FILE
        case Text(text) => 0 < |text| <= MAX_FILE)
    && DURATION <= duration && parse(duration[|DURATION|..]).Some?
    && 0.0 < parse(duration[|DURATION|..]).value <= 45.120
  }

  function SizeOf(f: File): nat {
    match f
    case Audio(size) => size
    case Text(text) => |text|
  }

  // An entry names a numbered file of at most a mebibyte that is there and not
  // empty, and a positive length of 45.120 seconds at most.
  lemma EntryMeans(dir: Directory, file: string, duration: string, parse: Parse)
    ensures EntryReady(dir, file, duration, parse) <==>
              && (exists k: nat :: k < 1000000 && file == "file " + SegmentName(k) &&
                                   SegmentName(k) in dir && 0 < SizeOf(dir[SegmentName(k)]) <= 1_048_576)
              && (exists text :: duration == "duration " + text && parse(text).Some? && 0.0 < parse(text).value <= 45.120)
  {
    hide SegmentName, IsSegmentName;
    if FILE <= file {
      assert file == "file " + file[|FILE|..];
      NamesAreNumbered(file[|FILE|..]);
    }
    if DURATION <= duration {
      assert duration == "duration " + duration[|DURATION|..];
    }
    if k: nat :| k < 1000000 && file == "file " + SegmentName(k) {
      assert file[|FILE|..] == SegmentName(k);
    }
    if text :| duration == "duration " + text && parse(text).Some? {
      assert duration[|DURATION|..] == text;
    }
  }

  function ValueOf(duration: string, parse: Parse): real {
    if DURATION <= duration && parse(duration[|DURATION|..]).Some? then parse(duration[|DURATION|..]).value else 0.0
  }

  function EntryIn(dir: Directory, parse: Parse): (string, string) -> bool { (f, d) => EntryReady(dir, f, d, parse) }

  function ValueIn(parse: Parse): string -> real { d => ValueOf(d, parse) }

  // The first k entries' seconds, each read from its second line.
  function SecondsOf(lines: seq<string>, k: nat, value: string -> real): real
    requires 2 * k < |lines|
  {
    if k == 0 then 0.0 else SecondsOf(lines, k - 1, value) + value(lines[2 * k])
  }

  // The two lines of entry k.
  predicate EntryAt(lines: seq<string>, entry: (string, string) -> bool, k: nat)
    requires 2 * k + 2 < |lines|
  {
    entry(lines[2 * k + 1], lines[2 * k + 2])
  }

  predicate Within(a: real, b: real, d: real) { a - b <= d && b - a <= d }

  ghost predicate LinesReady(lines: seq<string>, entry: (string, string) -> bool, value: string -> real, expected: real) {
    && |lines| >= 3 && |lines| % 2 == 1 && lines[0] == HEADER
    && (forall k | 0 <= k < |lines| / 2 :: EntryAt(lines, entry, k))
    && -0.150 <= SecondsOf(lines, |lines| / 2, value) - expected <= 0.150
  }

  ghost predicate Ready(dir: Directory, audio: string, expected: real, parse: Parse) {
    && audio in dir && dir[audio].Text? && |dir[audio].text| < MAX_FILE
    && LinesReady(Lines(dir[audio].text), EntryIn(dir, parse), ValueIn(parse), expected)
  }

  // compressedChapterReady.
  method ChapterReady(dir: Directory, audio: string, expected: real, parse: Parse) returns (ok: bool)
    requires audio in dir ==> dir[audio].Text?
    ensures ok <==> Ready(dir, audio, expected, parse)
  {
    if audio !in dir || |dir[audio].text| >= MAX_FILE {
      return false;
    }
    ok := ReadLines(Lines(dir[audio].text), EntryIn(dir, parse), ValueIn(parse), expected);
  }

  method ReadLines(lines: seq<string>, entry: (string, string) -> bool, value: string -> real, expected: real) returns (ok: bool)
    ensures ok <==> LinesReady(lines, entry, value, expected)
  {
    if |lines| < 3 || lines[0] != HEADER || |lines| % 2 != 1 {
      return false;
    }
    var seconds, i := 0.0, 1;
    ghost var k := 0;
    while i < |lines|
      invariant i == 2 * k + 1 && 2 * k < |lines|
      invariant forall j | 0 <= j < k :: EntryAt(lines, entry, j)
      invariant seconds == SecondsOf(lines, k, value)
    {
      if !entry(lines[i], lines[i + 1]) {
        assert !EntryAt(lines, entry, k);
        return false;
      }
      seconds := seconds + value(lines[i + 1]);
      k := k + 1;
      i := i + 2;
    }
    ok := Within(seconds, expected, 0.150);
  }

  // ---- The writer ----

  // A verified segment and the bytes of sound it decodes to, if it decodes.
  datatype Decoded = Decoded(size: nat, n: nat)

  // What the importer asks of a decoded segment.
  predicate Imports(seg: Segment, d: Decoded) {
    d.n <= MAX_DECODED && d.n % 2 == 0 && Abs(d.n * 1000 / BYTES_PER_SECOND - seg.durationMs) <= TOTAL_MS
  }

  function PlaylistLines(first: nat, ds: seq<Decoded>, round: Round): (r: seq<string>)
    ensures |r| == 1 + 2 * |ds|
  {
    if ds == [] then [HEADER]
    else
      var k := |ds| - 1;
      PlaylistLines(first, ds[..k], round) + [FileLine(first + k), DurationLine(round(ds[k].n))]
  }

  function FileLine(k: nat): string { FILE + SegmentName(k) }

  function DurationLine(v: nat): string { DURATION + Seconds6(v) }

  function BytesOf(ds: seq<Decoded>): nat {
    if ds == [] then 0 else BytesOf(ds[..|ds| - 1]) + ds[|ds| - 1].n
  }

  class Importer {
    // The private directory being filled, and the number of segments in it.
    var stage: Directory
    var segment: nat

    constructor ()
      ensures stage == map[] && segment == 0
    {
      stage, segment := map[], 0;
    }

    // One segment: copied under the next number, and its decoded length
    // compared with the manifest's.
    method TakeSegment(seg: Segment, decode: string -> Option<Decoded>) returns (d: Option<Decoded>)
      modifies this
      ensures d.Some? ==>
                && Takes(seg, decode, d.value)
                && stage == old(stage)[SegmentName(old(segment)) := Audio(d.value.size)] && segment == old(segment) + 1
      ensures d.None? ==> !Taken(seg, decode)
    {
      d := decode(seg.file);
      if d.None? {
        return;
      }
      stage := stage[SegmentName(segment) := Audio(d.value.size)];
      segment := segment + 1;
      var n := d.value.n;
      var ms := n * 1000 / BYTES_PER_SECOND;
      if n > MAX_DECODED || n % 2 != 0 || Abs(ms - seg.durationMs) > TOTAL_MS {
        d := None;
      }
    }

    // One chapter: its segments are copied and decoded, and its playlist
    // written. `decode` is the verified member's size and decoded length, none
    // when either fails.
    method WriteChapter(i: nat, segs: seq<Segment>, decode: string -> Option<Decoded>, round: Round)
      returns (samples: Option<nat>, ghost ds: seq<Decoded>)
      modifies this
      ensures samples.Some? ==>
                && segment == old(segment) + |segs| && |ds| == |segs| && AllDecoded(segs, decode, ds)
                && samples.value == BytesOf(ds)
                && stage == Written(old(stage), old(segment), i, ds, round)
      ensures samples.None? ==> exists s :: s in segs && !Taken(s, decode)
    {
      hide AllDecoded, PlaylistLines, Terminated, Copied, BytesOf, Taken, Takes, EntryText, SegmentName;
      samples, ds := None, [];
      var total, playlist := 0, Terminated([HEADER]);
      ghost var was, first := stage, segment;
      ChapterStarts(was, first, decode, round);
      assert segs[..0] == [];
      for k := 0 to |segs|
        invariant |ds| == k && AllDecoded(segs[..k], decode, ds) && segment == first + k
        invariant total == BytesOf(ds) && playlist == Terminated(PlaylistLines(first, ds, round))
        invariant stage == Copied(was, first, ds)
      {
        var d := TakeSegment(segs[k], decode);
        if d.None? {
          assert segs[k] in segs;
          return;
        }
        DecodedNext(segs, decode, ds, d.value);
        ChapterNext(was, first, ds, d.value, round);
        playlist := playlist + EntryText(segment - 1, round(d.value.n));
        total := total + d.value.n;
        ds := ds + [d.value];
      }
      assert segs[..|segs|] == segs;
      stage := stage[ChapterName(i) := Text(playlist)];
      samples := Some(total);
    }
  }

  ghost predicate AllDecoded(segs: seq<Segment>, decode: string -> Option<Decoded>, ds: seq<Decoded>) {
    |ds| == |segs| && forall k | 0 <= k < |segs| :: Takes(segs[k], decode, ds[k])
  }

  // The segment decodes, to about the length the manifest gives it.
  predicate Taken(seg: Segment, decode: string -> Option<Decoded>) {
    decode(seg.file).Some? && Imports(seg, decode(seg.file).value)
  }

  predicate Takes(seg: Segment, decode: string -> Option<Decoded>, d: Decoded) {
    decode(seg.file) == Some(d) && Imports(seg, d)
  }

  lemma ChapterStarts(was: Directory, first: nat, decode: string -> Option<Decoded>, round: Round)
    ensures AllDecoded([], decode, []) && BytesOf([]) == 0 && Copied(was, first, []) == was
    ensures PlaylistLines(first, [], round) == [HEADER]
  {
  }

  lemma DecodedNext(segs: seq<Segment>, decode: string -> Option<Decoded>, ds: seq<Decoded>, d: Decoded)
    requires |ds| < |segs| && AllDecoded(segs[..|ds|], decode, ds) && Takes(segs[|ds|], decode, d)
    ensures AllDecoded(segs[..|ds| + 1], decode, ds + [d])
  {
    var k := |ds|;
    assert segs[..k + 1] == segs[..k] + [segs[k]];
  }

  function Copied(was: Directory, first: nat, ds: seq<Decoded>): Directory {
    if ds == [] then was
    else Copied(was, first, ds[..|ds| - 1])[SegmentName(first + |ds| - 1) := Audio(ds[|ds| - 1].size)]
  }

  function Written(was: Directory, first: nat, i: nat, ds: seq<Decoded>, round: Round): Directory {
    Copied(was, first, ds)[ChapterName(i) := Text(Terminated(PlaylistLines(first, ds, round)))]
  }

  function EntryText(k: nat, v: nat): string { FileLine(k) + "\n" + DurationLine(v) + "\n" }

  lemma ChapterNext(was: Directory, first: nat, ds: seq<Decoded>, d: Decoded, round: Round)
    ensures BytesOf(ds + [d]) == BytesOf(ds) + d.n
    ensures Copied(was, first, ds + [d]) == Copied(was, first, ds)[SegmentName(first + |ds|) := Audio(d.size)]
    ensures Terminated(PlaylistLines(first, ds + [d], round)) == Terminated(PlaylistLines(first, ds, round)) + EntryText(first + |ds|, round(d.n))
  {
    hide Terminated, PlaylistLines, FileLine, DurationLine, SegmentName;
    assert (ds + [d])[..|ds|] == ds;
    LinesNext(first, ds, d, round);
    TwoLines(PlaylistLines(first, ds, round), FileLine(first + |ds|), DurationLine(round(d.n)));
  }

  lemma LinesNext(first: nat, ds: seq<Decoded>, d: Decoded, round: Round)
    ensures PlaylistLines(first, ds + [d], round) ==
              PlaylistLines(first, ds, round) + [FileLine(first + |ds|), DurationLine(round(d.n))]
  {
    hide FileLine, DurationLine;
    assert (ds + [d])[..|ds|] == ds;
  }

  lemma TwoLines(lines: seq<string>, a: string, b: string)
    ensures Terminated(lines + [a, b]) == Terminated(lines) + (a + "\n" + b + "\n")
  {
    var more := lines + [a, b];
    assert more[..|more| - 1] == lines + [a] && (lines + [a])[..|lines|] == lines;
  }
}
