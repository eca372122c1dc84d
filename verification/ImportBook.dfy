// A whole import: what the importer writes is what the reader accepts, exactly
// when every segment decodes to something no longer than the reader allows.
module ImportBook {
  import opened Basics
  import opened TextLines
  import opened PlaylistText
  import opened Timeline
  import opened Playlist

  // 45.120 seconds of 16-bit samples, the longest entry the reader takes.
  const MAX_READ := 1443840

  // The catalog's length, in seconds, of so many bytes of sound.
  function Length(bytes: nat): real { bytes as real / 32000.0 }

  // What reading a chapter back needs of the directory.
  ghost predicate Stored(dir: Directory, first: nat, i: nat, ds: seq<Decoded>, round: Round) {
    && ChapterName(i) in dir && dir[ChapterName(i)] == Text(Terminated(PlaylistLines(first, ds, round)))
    && forall k | 0 <= k < |ds| :: Holds(dir, SegmentName(first + k), ds[k].size)
  }

  predicate Holds(dir: Directory, name: string, size: nat) { name in dir && dir[name] == Audio(size) }

  predicate Playable(d: Decoded) { 0 < d.n <= MAX_READ && d.size > 0 }

  ghost predicate AllPlayable(ds: seq<Decoded>) { forall d | d in ds :: Playable(d) }

  // What the import checks already bound.
  predicate Bounded(d: Decoded) { d.n <= MAX_DECODED && d.n % 2 == 0 && d.size <= MAX_FILE }

  // ---- The text read back ----

  lemma {:induction false} LineAt(first: nat, ds: seq<Decoded>, round: Round, k: nat)
    requires k < |ds|
    ensures var lines := PlaylistLines(first, ds, round);
            lines[0] == HEADER && lines[2 * k + 1] == FileLine(first + k) && lines[2 * k + 2] == DurationLine(round(ds[k].n))
  {
    hide FileLine, DurationLine;
    var last := |ds| - 1;
    if k < last {
      LineAt(first, ds[..last], round, k);
    } else if last > 0 {
      LineAt(first, ds[..last], round, 0);
    }
  }

  lemma FileLineIsOne(k: nat)
    ensures OneLine(FileLine(k)) && (k < 1000000 ==> |FileLine(k)| == 24)
  {
  }

  lemma DurationLineIsOne(v: nat)
    ensures OneLine(DurationLine(v)) && (v < 100000000 ==> |DurationLine(v)| <= 18)
  {
    if v < 100000000 {
      assert |Decimal(v / 1000000)| <= 2;
    }
  }

  lemma LineIsOne(first: nat, ds: seq<Decoded>, round: Round, i: nat)
    requires i < 1 + 2 * |ds|
    ensures OneLine(PlaylistLines(first, ds, round)[i])
  {
    if i > 0 {
      var k := (i - 1) / 2;
      LineAt(first, ds, round, k);
      FileLineIsOne(first + k);
      DurationLineIsOne(round(ds[k].n));
    } else if ds != [] {
      LineAt(first, ds, round, 0);
    }
  }

  lemma LinesReadBack(lines: seq<string>, first: nat, ds: seq<Decoded>, round: Round)
    requires lines == PlaylistLines(first, ds, round)
    ensures Lines(Terminated(lines)) == lines
  {
    forall i | 0 <= i < |lines| ensures OneLine(lines[i]) {
      LineIsOne(first, ds, round, i);
    }
    LinesOfTerminated(lines);
  }

  lemma {:induction false} TextIsSmall(first: nat, ds: seq<Decoded>, round: Round)
    requires Nearest(round) && first + |ds| <= 1000000 && forall d | d in ds :: Bounded(d)
    ensures |Terminated(PlaylistLines(first, ds, round))| <= 21 + 44 * |ds|
  {
    hide FileLine, DurationLine, Split, Lines;
    if ds == [] {
      assert PlaylistLines(first, ds, round)[..0] == [];
    } else {
      var k := |ds| - 1;
      TextIsSmall(first, ds[..k], round);
      assert ds[..k] + [ds[k]] == ds;
      ChapterNext(map[], first, ds[..k], ds[k], round);
      assert Bounded(ds[k]) && Abs(4 * round(ds[k].n) - 125 * ds[k].n) <= 2;
      FileLineIsOne(first + k);
      DurationLineIsOne(round(ds[k].n));
    }
  }

  // A fixed-point reader gets every printed value back, so a parser as the
  // reader's exists.
  function ReadFixed(s: string): Option<real> {
    if |s| >= 7 && AllDigits(s[..|s| - 7]) && AllDigits(s[|s| - 6..]) && s[|s| - 7] == '.'
    then Some(Micro(Value(s[..|s| - 7]) * 1000000 + Value(s[|s| - 6..])))
    else None
  }

  lemma PrintedValuesReadBack()
    ensures Reads(ReadFixed)
  {
    forall v: nat ensures ReadFixed(Seconds6(v)) == Some(Micro(v)) {
      PrintedReadsBack(v);
    }
  }

  lemma PrintedReadsBack(v: nat)
    ensures ReadFixed(Seconds6(v)) == Some(Micro(v))
  {
    var whole, part := Decimal(v / 1000000), Fixed(v % 1000000, 6);
    DecimalReads(v / 1000000);
    SixDigits();
    FixedReads(v % 1000000, 6);
    ReadParts(whole, part);
  }

  lemma ReadParts(whole: string, part: string)
    requires AllDigits(whole) && AllDigits(part) && |part| == 6
    ensures ReadFixed(whole + "." + part) == Some(Micro(Value(whole) * 1000000 + Value(part)))
  {
    hide Micro, Value;
    Infix(whole, ".", part);
    var s := whole + "." + part;
    assert |s| == |whole| + 7 && s[..|s| - 7] == whole && s[|s| - 6..] == part;
  }

  // ---- The arithmetic ----

  // Rounding to a microsecond decides nothing at either end of the range.
  lemma RoundedInRange(d: Decoded, v: nat)
    requires Bounded(d) && Abs(4 * v - 125 * d.n) <= 2
    ensures 0 < v <= 45120000 <==> 0 < d.n <= MAX_READ
  {
  }

  function MicrosOf(ds: seq<Decoded>, round: Round): nat {
    if ds == [] then 0 else MicrosOf(ds[..|ds| - 1], round) + round(ds[|ds| - 1].n)
  }

  lemma {:induction false} RoundingAccumulates(ds: seq<Decoded>, round: Round)
    requires Nearest(round)
    ensures Abs(4 * MicrosOf(ds, round) - 125 * BytesOf(ds)) <= 2 * |ds|
  {
    if ds != [] {
      RoundingAccumulates(ds[..|ds| - 1], round);
      assert Abs(4 * round(ds[|ds| - 1].n) - 125 * ds[|ds| - 1].n) <= 2;
    }
  }

  lemma Tolerated(micros: nat, bytes: nat, k: nat)
    requires k <= MAX_CHAPTER_SEGMENTS && Abs(4 * micros - 125 * bytes) <= 2 * k
    ensures Within(Micro(micros), Length(bytes), 0.150)
  {
    assert 4.0 * micros as real - 125.0 * bytes as real == (4 * micros - 125 * bytes) as real;
  }

  lemma {:induction false} SecondsAreMicros(lines: seq<string>, value: string -> real, ds: seq<Decoded>, round: Round, k: nat)
    requires k <= |ds| && |lines| == 1 + 2 * |ds|
    requires forall j | 0 <= j < |ds| :: value(lines[2 * j + 2]) == Micro(round(ds[j].n))
    ensures SecondsOf(lines, k, value) == Micro(MicrosOf(ds[..k], round))
  {
    if k > 0 {
      SecondsAreMicros(lines, value, ds, round, k - 1);
      assert value(lines[2 * (k - 1) + 2]) == Micro(round(ds[k - 1].n));
      assert ds[..k][..k - 1] == ds[..k - 1];
    }
  }

  // ---- The result ----

  lemma ValueRead(parse: Parse, v: nat)
    requires Reads(parse)
    ensures ValueOf(DurationLine(v), parse) == Micro(v)
    ensures DURATION <= DurationLine(v) && parse(DurationLine(v)[|DURATION|..]) == Some(Micro(v))
  {
    assert DurationLine(v)[|DURATION|..] == Seconds6(v);
  }

  lemma EntryDecided(dir: Directory, k: nat, d: Decoded, v: nat, parse: Parse)
    requires Reads(parse) && k < 1000000 && Bounded(d) && Holds(dir, SegmentName(k), d.size) && Abs(4 * v - 125 * d.n) <= 2
    ensures EntryReady(dir, FileLine(k), DurationLine(v), parse) <==> Playable(d)
  {
    ValueRead(parse, v);
    SegmentNamesMatch(k);
    assert FileLine(k)[|FILE|..] == SegmentName(k) && FILE <= FileLine(k);
    RoundedInRange(d, v);
    MicrosInRange(v);
  }

  lemma MicrosInRange(v: nat)
    ensures 0.0 < Micro(v) <= 45.120 <==> 0 < v <= 45120000
  {
  }

  // The playlist of a stored chapter is accepted exactly when every segment is
  // playable: then rounding is within the reader's tolerance.
  lemma StoredIsReady(dir: Directory, first: nat, i: nat, ds: seq<Decoded>, round: Round, parse: Parse)
    requires Reads(parse) && Nearest(round) && Stored(dir, first, i, ds, round)
    requires 0 < |ds| <= MAX_CHAPTER_SEGMENTS && first + |ds| <= 1000000 && forall d | d in ds :: Bounded(d)
    ensures Ready(dir, ChapterName(i), Length(BytesOf(ds)), parse) <==> AllPlayable(ds)
  {
    hide Length, Micro, EntryIn, ValueIn, EntryAt, AllPlayable, Playable, Bounded, PlaylistLines, Terminated, Lines, Reads, Nearest, Ready, LinesReady, SecondsOf, BytesOf, Holds, ChapterName, SegmentName;
    var lines := PlaylistLines(first, ds, round);
    LinesReadBack(lines, first, ds, round);
    TextIsSmall(first, ds, round);
    EntriesDecided(dir, first, i, ds, round, parse, lines);
    LinesDecided(lines, EntryIn(dir, parse), ValueIn(parse), ds, round);
    ReadyByLines(dir, ChapterName(i), Terminated(lines), lines, Length(BytesOf(ds)), parse);
  }

  lemma ReadyByLines(dir: Directory, audio: string, text: string, lines: seq<string>, expected: real, parse: Parse)
    requires audio in dir && dir[audio] == Text(text) && |text| < MAX_FILE && Lines(text) == lines
    ensures Ready(dir, audio, expected, parse) <==> LinesReady(lines, EntryIn(dir, parse), ValueIn(parse), expected)
  {
  }

  lemma EntriesDecided(dir: Directory, first: nat, i: nat, ds: seq<Decoded>, round: Round, parse: Parse, lines: seq<string>)
    requires Reads(parse) && Nearest(round) && Stored(dir, first, i, ds, round) && lines == PlaylistLines(first, ds, round)
    requires 0 < |ds| && first + |ds| <= 1000000 && forall d | d in ds :: Bounded(d)
    ensures lines[0] == HEADER
    ensures forall k | 0 <= k < |ds| :: EntryAt(lines, EntryIn(dir, parse), k) <==> Playable(ds[k])
    ensures forall k | 0 <= k < |ds| :: ValueIn(parse)(lines[2 * k + 2]) == Micro(round(ds[k].n))
  {
    hide Length, Micro, EntryIn, ValueIn, EntryAt, Playable, PlaylistLines, Reads, Nearest, Holds;
    LineAt(first, ds, round, 0);
    forall k | 0 <= k < |ds|
      ensures EntryAt(lines, EntryIn(dir, parse), k) <==> Playable(ds[k])
      ensures ValueIn(parse)(lines[2 * k + 2]) == Micro(round(ds[k].n))
    {
      LineDecided(dir, first, i, ds, round, parse, k);
    }
  }

  lemma LineDecided(dir: Directory, first: nat, i: nat, ds: seq<Decoded>, round: Round, parse: Parse, k: nat)
    requires Reads(parse) && Nearest(round) && Stored(dir, first, i, ds, round)
    requires k < |ds| && first + |ds| <= 1000000 && Bounded(ds[k])
    ensures var lines := PlaylistLines(first, ds, round);
            && (EntryAt(lines, EntryIn(dir, parse), k) <==> Playable(ds[k]))
            && ValueIn(parse)(lines[2 * k + 2]) == Micro(round(ds[k].n))
  {
    LineAt(first, ds, round, k);
    assert Holds(dir, SegmentName(first + k), ds[k].size);
    EntryDecided(dir, first + k, ds[k], round(ds[k].n), parse);
    ValueRead(parse, round(ds[k].n));
  }

  lemma LinesDecided(lines: seq<string>, entry: (string, string) -> bool, value: string -> real, ds: seq<Decoded>, round: Round)
    requires Nearest(round) && 0 < |ds| <= MAX_CHAPTER_SEGMENTS && |lines| == 1 + 2 * |ds| && lines[0] == HEADER
    requires forall k | 0 <= k < |ds| :: EntryAt(lines, entry, k) <==> Playable(ds[k])
    requires forall k | 0 <= k < |ds| :: value(lines[2 * k + 2]) == Micro(round(ds[k].n))
    ensures LinesReady(lines, entry, value, Length(BytesOf(ds))) <==> AllPlayable(ds)
  {
    hide Length, Micro, Playable, Nearest, Within, SecondsOf, BytesOf, MicrosOf;
    SecondsAreMicros(lines, value, ds, round, |ds|);
    assert ds[..|ds|] == ds;
    RoundingAccumulates(ds, round);
    Tolerated(MicrosOf(ds, round), BytesOf(ds), |ds|);
    assert |lines| / 2 == |ds|;
    if LinesReady(lines, entry, value, Length(BytesOf(ds))) {
      forall d | d in ds ensures Playable(d) {
        var k :| 0 <= k < |ds| && ds[k] == d;
        assert EntryAt(lines, entry, k);
      }
    }
  }

  // The importer takes what the reader will not: a segment a fraction of a
  // millisecond too long, and one with no sound at all.
  lemma ImportedButRefused(file: string)
    ensures Imports(Segment(file, 0, 45000), Decoded(1, 1443842)) && !Playable(Decoded(1, 1443842))
    ensures Imports(Segment(file, 0, 120), Decoded(1, 0)) && !Playable(Decoded(1, 0))
  {
  }

  // ---- The whole book ----

  ghost predicate NotSegment(name: string, from: nat, to: nat) {
    forall k | from <= k < to :: SegmentName(k) != name
  }

  lemma {:induction false} CopiedKeeps(was: Directory, first: nat, ds: seq<Decoded>, name: string)
    requires name in was && NotSegment(name, first, first + |ds|)
    ensures name in Copied(was, first, ds) && Copied(was, first, ds)[name] == was[name]
  {
    if ds != [] {
      CopiedKeeps(was, first, ds[..|ds| - 1], name);
    }
  }

  lemma {:induction false} CopiedHolds(was: Directory, first: nat, ds: seq<Decoded>, k: nat)
    requires k < |ds| && first + |ds| <= 1000000
    ensures Holds(Copied(was, first, ds), SegmentName(first + k), ds[k].size)
  {
    hide SegmentName;
    var last := |ds| - 1;
    if k < last {
      CopiedHolds(was, first, ds[..last], k);
      if SegmentName(first + k) == SegmentName(first + last) {
        SegmentNamesDiffer(first + k, first + last);
      }
    }
  }

  lemma SegmentIsNoChapter(k: nat, i: nat)
    ensures SegmentName(k) != ChapterName(i)
  {
    assert SegmentName(k)[0] == 's' && ChapterName(i)[0] == 'c';
  }

  lemma WrittenIsStored(was: Directory, first: nat, i: nat, ds: seq<Decoded>, round: Round)
    requires first + |ds| <= 1000000
    ensures Stored(Written(was, first, i, ds, round), first, i, ds, round)
  {
    forall k | 0 <= k < |ds| ensures Holds(Written(was, first, i, ds, round), SegmentName(first + k), ds[k].size) {
      CopiedHolds(was, first, ds, k);
      SegmentIsNoChapter(first + k, i);
    }
  }

  // A later chapter overwrites nothing of an earlier one.
  lemma StoredIsKept(was: Directory, a: nat, i: nat, early: seq<Decoded>, b: nat, j: nat, late: seq<Decoded>, round: Round)
    requires Stored(was, a, i, early, round) && a + |early| <= b && b + |late| <= 1000000 && i < j < 999
    ensures Stored(Written(was, b, j, late, round), a, i, early, round)
  {
    var now := Written(was, b, j, late, round);
    if ChapterName(i) == ChapterName(j) {
      ChapterNamesDiffer(i, j);
    }
    forall k | b <= k < b + |late| ensures SegmentName(k) != ChapterName(i) { SegmentIsNoChapter(k, i); }
    CopiedKeeps(was, b, late, ChapterName(i));
    forall k | 0 <= k < |early| ensures Holds(now, SegmentName(a + k), early[k].size) {
      assert Holds(was, SegmentName(a + k), early[k].size);
      forall m | b <= m < b + |late| ensures SegmentName(m) != SegmentName(a + k) {
        if SegmentName(m) == SegmentName(a + k) {
          SegmentNamesDiffer(m, a + k);
        }
      }
      CopiedKeeps(was, b, late, SegmentName(a + k));
      SegmentIsNoChapter(a + k, j);
    }
  }

  // One written chapter: its first segment's number, what its segments decoded
  // to, and the bytes the catalog's length is computed from.
  datatype Chaptered = Chaptered(first: nat, ds: seq<Decoded>, samples: nat)

  ghost predicate Kept(dir: Directory, segment: nat, i: nat, c: Chaptered, ch: Chapter, decode: string -> Option<Decoded>, round: Round) {
    && Stored(dir, c.first, i, c.ds, round) && c.first + |c.ds| <= segment
    && AllDecoded(ch.segments, decode, c.ds) && c.samples == BytesOf(c.ds)
  }

  ghost predicate AllKept(dir: Directory, segment: nat, out: seq<Chaptered>, chapters: seq<Chapter>, decode: string -> Option<Decoded>, round: Round) {
    |out| == |chapters| && forall i | 0 <= i < |out| :: Kept(dir, segment, i, out[i], chapters[i], decode, round)
  }

  lemma KeptNext(was: Directory, first: nat, out: seq<Chaptered>, chapters: seq<Chapter>, decode: string -> Option<Decoded>, round: Round, ch: Chapter, ds: seq<Decoded>)
    requires AllKept(was, first, out, chapters, decode, round) && |out| < 999
    requires AllDecoded(ch.segments, decode, ds) && first + |ds| <= 1000000
    ensures AllKept(Written(was, first, |out|, ds, round), first + |ds|, out + [Chaptered(first, ds, BytesOf(ds))], chapters + [ch], decode, round)
  {
    hide Kept, Written, Stored, AllDecoded, BytesOf;
    var i, now := |out|, Written(was, first, |out|, ds, round);
    forall k | 0 <= k < i ensures Kept(now, first + |ds|, k, out[k], chapters[k], decode, round) {
      assert Kept(was, first, k, out[k], chapters[k], decode, round);
      KeptStays(was, first, k, out[k], chapters[k], decode, round, i, ds);
    }
    KeptNew(was, first, i, ch, decode, round, ds);
    AllKeptSnoc(now, first + |ds|, out, Chaptered(first, ds, BytesOf(ds)), chapters, ch, decode, round);
  }

  lemma AllKeptSnoc(dir: Directory, segment: nat, out: seq<Chaptered>, c: Chaptered, chapters: seq<Chapter>, ch: Chapter, decode: string -> Option<Decoded>, round: Round)
    requires AllKept(dir, segment, out, chapters, decode, round) && Kept(dir, segment, |out|, c, ch, decode, round)
    ensures AllKept(dir, segment, out + [c], chapters + [ch], decode, round)
  {
    hide Kept;
  }

  lemma KeptStays(was: Directory, first: nat, k: nat, c: Chaptered, ch: Chapter, decode: string -> Option<Decoded>, round: Round, i: nat, ds: seq<Decoded>)
    requires Kept(was, first, k, c, ch, decode, round) && k < i < 999 && first + |ds| <= 1000000
    ensures Kept(Written(was, first, i, ds, round), first + |ds|, k, c, ch, decode, round)
  {
    hide Written, Stored, AllDecoded, BytesOf;
    StoredIsKept(was, c.first, k, c.ds, first, i, ds, round);
  }

  lemma KeptNew(was: Directory, first: nat, i: nat, ch: Chapter, decode: string -> Option<Decoded>, round: Round, ds: seq<Decoded>)
    requires AllDecoded(ch.segments, decode, ds) && first + |ds| <= 1000000
    ensures Kept(Written(was, first, i, ds, round), first + |ds|, i, Chaptered(first, ds, BytesOf(ds)), ch, decode, round)
  {
    hide Written, Stored, AllDecoded, BytesOf;
    WrittenIsStored(was, first, i, ds, round);
  }

  method WriteBook(im: Importer, chapters: seq<Chapter>, decode: string -> Option<Decoded>, round: Round)
    returns (ok: bool, ghost out: seq<Chaptered>, samples: seq<nat>)
    requires im.stage == map[] && im.segment == 0
    requires |chapters| <= MAX_CHAPTERS && |AllSegments(chapters)| <= MAX_MEMBERS
    modifies im
    ensures ok ==> AllKept(im.stage, im.segment, out, chapters, decode, round) && im.segment == |AllSegments(chapters)|
    ensures ok ==> |samples| == |out| && forall i | 0 <= i < |out| :: samples[i] == out[i].samples
    ensures !ok ==> exists i, s | 0 <= i < |chapters| && s in chapters[i].segments :: !Taken(s, decode)
  {
    hide Kept, Taken, Written, AllDecoded, BytesOf, NoneRepeated, FilesOf, TotalMs;
    ok, out, samples := false, [], [];
    for i := 0 to |chapters|
      invariant im.segment == |AllSegments(chapters[..i])|
      invariant AllKept(im.stage, im.segment, out, chapters[..i], decode, round)
      invariant |samples| == |out| && forall k | 0 <= k < |out| :: samples[k] == out[k].samples
    {
      ghost var was, first := im.stage, im.segment;
      SegmentsSoFar(chapters, i);
      var n, ds := im.WriteChapter(i, chapters[i].segments, decode, round);
      if n.None? {
        var s :| s in chapters[i].segments && !Taken(s, decode);
        return;
      }
      KeptNext(was, first, out, chapters[..i], decode, round, chapters[i], ds);
      assert chapters[..i + 1] == chapters[..i] + [chapters[i]];
      out := out + [Chaptered(first, ds, n.value)];
      samples := samples + [n.value];
    }
    assert chapters[..|chapters|] == chapters;
    ok := true;
  }

  // What was imported plays exactly when every segment is playable: each
  // chapter's playlist is ready at the length its samples add up to.
  method Import(p: Pack, validText: string -> bool, decode: string -> Option<Decoded>, round: Round)
    returns (im: Importer, ok: bool, samples: seq<nat>)
    requires "pack.json" in p.files && "SHA256SUMS" in p.files && |p.files| <= MAX_MEMBERS
    // A member's size is bounded when the archive is listed.
    requires forall f | f in p.files && decode(f).Some? :: decode(f).value.size <= MAX_FILE
    ensures ok ==> TimelinesHold(p, validText) && |samples| == |p.chapters|
    ensures ok && Nearest(round) ==> PlaysAsDecoded(im.stage, p.chapters, decode, samples)
    // It fails only for a bad timeline or a segment that is not what it says.
    ensures !ok && TimelinesHold(p, validText) ==> exists i, s | 0 <= i < |p.chapters| && s in p.chapters[i].segments :: !Taken(s, decode)
  {
    hide TimelinesHold, Taken, AllSegments, AllKept, PlaysAsDecoded, Nearest, FilesOf;
    im := new Importer();
    samples := [];
    ok := CheckTimelines(p, validText);
    if !ok {
      return;
    }
    EveryMemberUsedOnce(p, validText);
    ChapterCount(p, validText);
    ghost var out;
    ok, out, samples := WriteBook(im, p.chapters, decode, round);
    if ok {
      if Nearest(round) {
        BookDecided(p, validText, im.stage, im.segment, out, samples, decode, round);
      }
      KeptCount(im.stage, im.segment, out, p.chapters, decode, round);
    }
  }

  lemma ChapterCount(p: Pack, validText: string -> bool)
    requires TimelinesHold(p, validText)
    ensures |p.chapters| <= MAX_CHAPTERS
  {
  }

  lemma KeptCount(dir: Directory, segment: nat, out: seq<Chaptered>, chapters: seq<Chapter>, decode: string -> Option<Decoded>, round: Round)
    requires AllKept(dir, segment, out, chapters, decode, round)
    ensures |out| == |chapters|
  {
  }

  // Each chapter's playlist is ready, at the length its samples add up to,
  // exactly when all of its segments are playable.
  ghost predicate PlaysAsDecoded(dir: Directory, chapters: seq<Chapter>, decode: string -> Option<Decoded>, samples: seq<nat>) {
    |samples| == |chapters| && forall i, parse: Parse | 0 <= i < |chapters| && Reads(parse) ::
      Ready(dir, ChapterName(i), Length(samples[i]), parse) <==> ChapterPlayable(chapters[i], decode)
  }

  lemma BookDecided(p: Pack, validText: string -> bool, dir: Directory, segment: nat, out: seq<Chaptered>, samples: seq<nat>, decode: string -> Option<Decoded>, round: Round)
    requires TimelinesHold(p, validText) && Nearest(round) && segment <= 1000000
    requires forall f | f in p.files && decode(f).Some? :: decode(f).value.size <= MAX_FILE
    requires AllKept(dir, segment, out, p.chapters, decode, round)
    requires |samples| == |out| && forall i | 0 <= i < |out| :: samples[i] == out[i].samples
    ensures PlaysAsDecoded(dir, p.chapters, decode, samples)
  {
    hide Kept, Ready, ChapterPlayable, Reads, Nearest, ChapterName, NoneRepeated, AllSegments, Joined, EndOf, SumOf, FilesOf, TotalMs;
    forall i, parse: Parse | 0 <= i < |p.chapters| && Reads(parse)
      ensures Ready(dir, ChapterName(i), Length(samples[i]), parse) <==> ChapterPlayable(p.chapters[i], decode)
    {
      assert ChapterHolds(p.chapters[i], i + 1, p.files, validText);
      assert Kept(dir, segment, i, out[i], p.chapters[i], decode, round);
      ChapterDecided(p, dir, segment, i, out[i], p.chapters[i], decode, round, parse);
    }
  }

  predicate ChapterPlayable(ch: Chapter, decode: string -> Option<Decoded>) {
    forall s | s in ch.segments :: decode(s.file).Some? && Playable(decode(s.file).value)
  }

  lemma ChapterDecided(p: Pack, dir: Directory, segment: nat, i: nat, c: Chaptered, ch: Chapter, decode: string -> Option<Decoded>, round: Round, parse: Parse)
    requires Reads(parse) && Nearest(round) && segment <= 1000000
    requires forall f | f in p.files && decode(f).Some? :: decode(f).value.size <= MAX_FILE
    requires forall k | 0 <= k < |ch.segments| :: SegmentFits(ch.segments[k], p.files)
    requires 0 < |ch.segments| <= MAX_CHAPTER_SEGMENTS && Kept(dir, segment, i, c, ch, decode, round)
    ensures Ready(dir, ChapterName(i), Length(c.samples), parse) <==> ChapterPlayable(ch, decode)
  {
    hide Stored, Reads, Nearest, Ready, ChapterPlayable, Playable, BytesOf, ChapterName;
    forall d | d in c.ds ensures Bounded(d) {
      var k :| 0 <= k < |c.ds| && c.ds[k] == d;
      assert Takes(ch.segments[k], decode, d) && SegmentFits(ch.segments[k], p.files);
    }
    StoredIsReady(dir, c.first, i, c.ds, round, parse);
    SamePlayable(ch, c.ds, decode);
  }

  lemma SamePlayable(ch: Chapter, ds: seq<Decoded>, decode: string -> Option<Decoded>)
    requires AllDecoded(ch.segments, decode, ds)
    ensures ChapterPlayable(ch, decode) <==> AllPlayable(ds)
  {
    if ChapterPlayable(ch, decode) {
      forall d | d in ds ensures Playable(d) {
        var k :| 0 <= k < |ds| && ds[k] == d;
        assert Takes(ch.segments[k], decode, d) && ch.segments[k] in ch.segments;
      }
    }
    if AllPlayable(ds) {
      forall s | s in ch.segments ensures decode(s.file).Some? && Playable(decode(s.file).value) {
        var k :| 0 <= k < |ch.segments| && ch.segments[k] == s;
        assert Takes(s, decode, ds[k]) && ds[k] in ds;
      }
    }
  }

  lemma SegmentsSoFar(chapters: seq<Chapter>, i: nat)
    requires i < |chapters|
    ensures |AllSegments(chapters[..i + 1])| == |AllSegments(chapters[..i])| + |chapters[i].segments| <= |AllSegments(chapters)|
  {
    NextChapter(chapters, i);
    PrefixShorter(chapters, i + 1);
  }

  lemma {:induction false} PrefixShorter(chapters: seq<Chapter>, i: nat)
    requires i <= |chapters|
    ensures |AllSegments(chapters[..i])| <= |AllSegments(chapters)|
  {
    if i == |chapters| {
      assert chapters[..i] == chapters;
    } else {
      var less := chapters[..|chapters| - 1];
      PrefixShorter(less, i);
      assert less[..i] == chapters[..i];
    }
  }
}
