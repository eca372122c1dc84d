// The importer's check of a recorded book's chapter timelines, before any
// segment is decoded (internal/books/audiobook.go).
module Timeline {
  import opened Basics

  const MAX_SEGMENT_MS := 45000
  const BOUNDARY_MS := 1
  const TOTAL_MS := 120
  const MAX_CHAPTERS := 999
  const MAX_CHAPTER_SEGMENTS := 4094
  const MAX_CHAPTER_MS := 86400000
  const MAX_RECORDING_MS := 48 * 3600000
  const MAX_MEMBERS := 4096

  datatype Segment = Segment(file: string, startMs: int, durationMs: int)
  datatype Chapter = Chapter(number: int, title: string, durationMs: int, segments: seq<Segment>)
  datatype Pack = Pack(files: set<string>, recordingMs: int, chapters: seq<Chapter>)

  predicate AudioName(file: string) {
    "audio/" <= file && |file| >= 5 && file[|file| - 5..] == ".opus"
  }

  predicate SegmentFits(s: Segment, files: set<string>) {
    s.file in files && AudioName(s.file) && 0 < s.durationMs <= MAX_SEGMENT_MS
  }

  // Where a timeline of segments ends, and how much audio it holds.
  function EndOf(segs: seq<Segment>): int {
    if segs == [] then 0 else segs[|segs| - 1].startMs + segs[|segs| - 1].durationMs
  }

  function SumOf(segs: seq<Segment>): int {
    if segs == [] then 0 else SumOf(segs[..|segs| - 1]) + segs[|segs| - 1].durationMs
  }

  // Each segment starts where those before it end.
  predicate Joined(segs: seq<Segment>) {
    segs == [] || (
      var init := segs[..|segs| - 1];
      Joined(init) && Abs(segs[|segs| - 1].startMs - EndOf(init)) <= BOUNDARY_MS)
  }

  function FilesOf(segs: seq<Segment>): set<string> {
    if segs == [] then {} else FilesOf(segs[..|segs| - 1]) + {segs[|segs| - 1].file}
  }

  predicate NoneRepeated(segs: seq<Segment>) {
    segs == [] || (
      var init := segs[..|segs| - 1];
      NoneRepeated(init) && segs[|segs| - 1].file !in FilesOf(init))
  }

  ghost predicate ChapterHolds(ch: Chapter, number: int, files: set<string>, validText: string -> bool) {
    && ch.number == number && validText(ch.title)
    && 0 < ch.durationMs <= MAX_CHAPTER_MS && 0 < |ch.segments| <= MAX_CHAPTER_SEGMENTS
    && (forall i | 0 <= i < |ch.segments| :: SegmentFits(ch.segments[i], files))
    && Joined(ch.segments)
    && Abs(EndOf(ch.segments) - ch.durationMs) <= BOUNDARY_MS
    && Abs(SumOf(ch.segments) - ch.durationMs) <= TOTAL_MS
  }

  lemma AudioNameMeans(file: string)
    ensures AudioName(file) <==> exists name :: file == "audio/" + name + ".opus"
  {
    if AudioName(file) {
      var n := |file|;
      assert file[..6] == "audio/" && file[5] == '/' && file[n - 5..] == ".opus";
      assert forall k | n - 5 <= k < n :: file[k] == file[n - 5..][k - (n - 5)] != '/';
      assert n >= 11;
      assert file == "audio/" + file[6..n - 5] + ".opus";
    }
  }

  // A segment begins within a millisecond of where the one before it ends.
  predicate BeginsAtEnd(segs: seq<Segment>, i: nat)
    requires i < |segs|
  {
    -1 <= segs[i].startMs - (if i == 0 then 0 else segs[i - 1].startMs + segs[i - 1].durationMs) <= 1
  }

  lemma {:induction false} JoinedMeans(segs: seq<Segment>)
    ensures Joined(segs) <==> forall i | 0 <= i < |segs| :: BeginsAtEnd(segs, i)
  {
    if segs != [] {
      var init := segs[..|segs| - 1];
      JoinedMeans(init);
      assert forall i | 0 <= i < |init| :: BeginsAtEnd(init, i) <==> BeginsAtEnd(segs, i);
      assert Joined(segs) <==> Joined(init) && BeginsAtEnd(segs, |init|);
    }
  }

  // A chapter holds exactly when its audio files are, in order, at most 45 seconds
  // each, begin within a millisecond of where the one before ended, and end within
  // one of its length, and together are within 120 of it.
  lemma ChapterMeans(ch: Chapter, number: int, files: set<string>, validText: string -> bool)
    ensures ChapterHolds(ch, number, files, validText) <==>
              && ch.number == number && validText(ch.title) && 1 <= ch.durationMs <= 86_400_000 && 1 <= |ch.segments| <= 4094
              && (forall s | s in ch.segments ::
                    s.file in files && (exists name :: s.file == "audio/" + name + ".opus") && 1 <= s.durationMs <= 45_000)
              && (forall i | 0 <= i < |ch.segments| :: BeginsAtEnd(ch.segments, i))
              && (var last := ch.segments[|ch.segments| - 1]; -1 <= last.startMs + last.durationMs - ch.durationMs <= 1)
              && -120 <= SumOf(ch.segments) - ch.durationMs <= 120
  {
    hide Joined, SumOf, AudioName, BeginsAtEnd;
    JoinedMeans(ch.segments);
    forall s | s in ch.segments ensures AudioName(s.file) <==> exists name :: s.file == "audio/" + name + ".opus" {
      AudioNameMeans(s.file);
    }
  }

  // Every segment of the book in order, and the chapters' total.
  function AllSegments(chapters: seq<Chapter>): seq<Segment> {
    if chapters == [] then [] else AllSegments(chapters[..|chapters| - 1]) + chapters[|chapters| - 1].segments
  }

  function TotalMs(chapters: seq<Chapter>): int {
    if chapters == [] then 0 else TotalMs(chapters[..|chapters| - 1]) + chapters[|chapters| - 1].durationMs
  }

  ghost predicate TimelinesHold(p: Pack, validText: string -> bool) {
    && 0 < |p.chapters| <= MAX_CHAPTERS && 0 < p.recordingMs <= MAX_RECORDING_MS
    && (forall i | 0 <= i < |p.chapters| :: ChapterHolds(p.chapters[i], i + 1, p.files, validText))
    && NoneRepeated(AllSegments(p.chapters))
    && TotalMs(p.chapters) == p.recordingMs
    && |FilesOf(AllSegments(p.chapters))| == |p.files| - 2
  }

  lemma {:induction false} Append(a: seq<Segment>, b: seq<Segment>)
    ensures FilesOf(a + b) == FilesOf(a) + FilesOf(b)
    ensures NoneRepeated(a + b) <==> NoneRepeated(a) && NoneRepeated(b) && FilesOf(a) !! FilesOf(b)
  {
    if b == [] {
      assert a + b == a;
    } else {
      var init := b[..|b| - 1];
      Append(a, init);
      assert (a + b)[..|a + b| - 1] == a + init;
    }
  }

  lemma {:induction false} PrefixHolds(segs: seq<Segment>, i: nat)
    requires i <= |segs|
    ensures FilesOf(segs[..i]) <= FilesOf(segs)
    ensures NoneRepeated(segs) ==> NoneRepeated(segs[..i])
    ensures Joined(segs) ==> Joined(segs[..i])
  {
    if i == |segs| {
      assert segs[..i] == segs;
    } else {
      var init := segs[..|segs| - 1];
      PrefixHolds(init, i);
      assert init[..i] == segs[..i];
    }
  }

  // One chapter's segments, added to the files already used.
  method CheckSegments(ch: Chapter, files: set<string>, seen: set<string>) returns (ok: bool, now: set<string>, end: int, sum: int)
    ensures ok <==> && (forall i | 0 <= i < |ch.segments| :: SegmentFits(ch.segments[i], files))
                    && Joined(ch.segments) && NoneRepeated(ch.segments) && FilesOf(ch.segments) !! seen
    ensures ok ==> now == seen + FilesOf(ch.segments) && end == EndOf(ch.segments) && sum == SumOf(ch.segments)
  {
    now, end, sum := seen, 0, 0;
    var segs := ch.segments;
    for i := 0 to |segs|
      invariant forall k | 0 <= k < i :: SegmentFits(segs[k], files)
      invariant Joined(segs[..i]) && NoneRepeated(segs[..i]) && FilesOf(segs[..i]) !! seen
      invariant now == seen + FilesOf(segs[..i]) && end == EndOf(segs[..i]) && sum == SumOf(segs[..i])
    {
      var s := segs[i];
      assert segs[..i + 1][..i] == segs[..i];
      if s.file in now || Abs(s.startMs - end) > BOUNDARY_MS || !SegmentFits(s, files) {
        PrefixHolds(segs, i + 1);
        return false, now, end, sum;
      }
      now := now + {s.file};
      sum := sum + s.durationMs;
      end := s.startMs + s.durationMs;
    }
    assert segs[..|segs|] == segs;
    ok := true;
  }

  method CheckChapter(ch: Chapter, number: int, files: set<string>, seen: set<string>, validText: string -> bool) returns (ok: bool, now: set<string>)
    ensures ok <==> ChapterHolds(ch, number, files, validText) && NoneRepeated(ch.segments) && FilesOf(ch.segments) !! seen
    ensures ok ==> now == seen + FilesOf(ch.segments)
  {
    hide Joined, EndOf, SumOf, NoneRepeated, FilesOf, SegmentFits;
    ok, now := false, seen;
    if ch.number != number || !validText(ch.title) || !(0 < ch.durationMs <= MAX_CHAPTER_MS) || !(0 < |ch.segments| <= MAX_CHAPTER_SEGMENTS) {
      return;
    }
    var fits, after, end, sum := CheckSegments(ch, files, seen);
    ok, now := fits && Abs(end - ch.durationMs) <= BOUNDARY_MS && Abs(sum - ch.durationMs) <= TOTAL_MS, after;
  }

  method CheckTimelines(p: Pack, validText: string -> bool) returns (ok: bool)
    ensures ok <==> TimelinesHold(p, validText)
  {
    hide ChapterHolds, NoneRepeated, AllSegments, FilesOf, TotalMs;
    if !(0 < |p.chapters| <= MAX_CHAPTERS && 0 < p.recordingMs <= MAX_RECORDING_MS) {
      return false;
    }
    assert p.chapters[..0] == [];
    NoChapters();
    var seen, duration := {}, 0;
    for i := 0 to |p.chapters|
      invariant forall k | 0 <= k < i :: ChapterHolds(p.chapters[k], k + 1, p.files, validText)
      invariant NoneRepeated(AllSegments(p.chapters[..i]))
      invariant seen == FilesOf(AllSegments(p.chapters[..i])) && duration == TotalMs(p.chapters[..i])
    {
      NextChapter(p.chapters, i);
      var fits, now := CheckChapter(p.chapters[i], i + 1, p.files, seen, validText);
      if !fits {
        return false;
      }
      seen := now;
      duration := duration + p.chapters[i].durationMs;
    }
    assert p.chapters[..|p.chapters|] == p.chapters;
    ok := duration == p.recordingMs && |seen| == |p.files| - 2;
  }

  lemma NoChapters()
    ensures AllSegments([]) == [] && TotalMs([]) == 0 && FilesOf([]) == {} && NoneRepeated([])
  {
  }

  // The book so far with one more chapter.
  lemma NextChapter(chapters: seq<Chapter>, i: nat)
    requires i < |chapters|
    ensures AllSegments(chapters[..i + 1]) == AllSegments(chapters[..i]) + chapters[i].segments
    ensures TotalMs(chapters[..i + 1]) == TotalMs(chapters[..i]) + chapters[i].durationMs
    ensures FilesOf(AllSegments(chapters[..i + 1])) == FilesOf(AllSegments(chapters[..i])) + FilesOf(chapters[i].segments)
    ensures NoneRepeated(AllSegments(chapters[..i + 1])) <==>
              && NoneRepeated(AllSegments(chapters[..i])) && NoneRepeated(chapters[i].segments)
              && FilesOf(AllSegments(chapters[..i])) !! FilesOf(chapters[i].segments)
    ensures NoneRepeated(AllSegments(chapters)) ==> NoneRepeated(AllSegments(chapters[..i + 1]))
  {
    assert chapters[..i + 1][..i] == chapters[..i];
    Append(AllSegments(chapters[..i]), chapters[i].segments);
    PrefixUnrepeated(chapters, i + 1);
  }

  lemma {:induction false} PrefixUnrepeated(chapters: seq<Chapter>, i: nat)
    requires i <= |chapters|
    ensures NoneRepeated(AllSegments(chapters)) ==> NoneRepeated(AllSegments(chapters[..i]))
  {
    if i == |chapters| {
      assert chapters[..i] == chapters;
    } else {
      var less := chapters[..|chapters| - 1];
      Append(AllSegments(less), chapters[|chapters| - 1].segments);
      PrefixUnrepeated(less, i);
      assert less[..i] == chapters[..i];
    }
  }

  // ---- What an accepted timeline is worth ----

  // The drift at each boundary is at most one millisecond for every segment so
  // far: independent rounding never accumulates further.
  lemma {:induction false} Telescopes(segs: seq<Segment>)
    requires Joined(segs)
    ensures Abs(EndOf(segs) - SumOf(segs)) <= |segs|
  {
    if segs != [] {
      Telescopes(segs[..|segs| - 1]);
    }
  }

  lemma BoundaryDrift(ch: Chapter, number: int, files: set<string>, validText: string -> bool, i: nat)
    requires ChapterHolds(ch, number, files, validText) && i < |ch.segments|
    ensures Abs(ch.segments[i].startMs - SumOf(ch.segments[..i])) <= i + 1
    ensures Abs(ch.durationMs - SumOf(ch.segments)) <= Min(TOTAL_MS, |ch.segments| + 1)
  {
    PrefixHolds(ch.segments, i);
    PrefixHolds(ch.segments, i + 1);
    assert ch.segments[..i + 1][..i] == ch.segments[..i];
    Telescopes(ch.segments[..i]);
    Telescopes(ch.segments);
  }

  // No instant of the chapter is further than a millisecond from some segment,
  // and neighbours overlap by no more than that.
  lemma NoGap(ch: Chapter, number: int, files: set<string>, validText: string -> bool, t: int) returns (i: nat)
    requires ChapterHolds(ch, number, files, validText) && 0 <= t < ch.durationMs
    ensures i < |ch.segments|
    ensures ch.segments[i].startMs - 1 <= t < ch.segments[i].startMs + ch.segments[i].durationMs + 1
    ensures i > 0 ==> t >= ch.segments[i - 1].startMs + ch.segments[i - 1].durationMs + 1
  {
    var segs := ch.segments;
    i := 0;
    while i < |segs| - 1 && t >= EndOf(segs[..i + 1]) + 1
      invariant i < |segs|
      invariant i > 0 ==> t >= EndOf(segs[..i]) + 1
    {
      i := i + 1;
    }
    PrefixHolds(segs, i + 1);
    assert segs[..i + 1][..i] == segs[..i] && segs[..|segs|] == segs;
  }

  // An accepted pack has no spare member: the segments are exactly its files
  // besides the manifest and the checksums, each used once.
  lemma EveryMemberUsedOnce(p: Pack, validText: string -> bool)
    requires TimelinesHold(p, validText) && "pack.json" in p.files && "SHA256SUMS" in p.files
    ensures FilesOf(AllSegments(p.chapters)) == p.files - {"pack.json", "SHA256SUMS"}
    ensures |AllSegments(p.chapters)| == |p.files| - 2
  {
    var used, spare := FilesOf(AllSegments(p.chapters)), {"pack.json", "SHA256SUMS"};
    ChaptersUseAudio(p, validText, |p.chapters|);
    assert p.chapters[..|p.chapters|] == p.chapters;
    forall f | f in used ensures f in p.files - spare {
      assert "pack.json"[0] == 'p' && "SHA256SUMS"[0] == 'S';
    }
    assert p.files == (p.files - spare) + spare;
    SameSize(used, p.files - spare);
    CountFiles(AllSegments(p.chapters));
  }

  ghost predicate UseAudio(segs: seq<Segment>, files: set<string>) {
    forall f | f in FilesOf(segs) :: f in files && f != "" && f[0] == 'a'
  }

  lemma {:induction false} SegmentsUseAudio(segs: seq<Segment>, files: set<string>)
    requires forall i | 0 <= i < |segs| :: SegmentFits(segs[i], files)
    ensures UseAudio(segs, files)
  {
    if segs != [] {
      var s := segs[|segs| - 1];
      assert SegmentFits(s, files) && s.file[0] == "audio/"[0];
      SegmentsUseAudio(segs[..|segs| - 1], files);
    }
  }

  lemma {:induction false} ChaptersUseAudio(p: Pack, validText: string -> bool, i: nat)
    requires TimelinesHold(p, validText) && i <= |p.chapters|
    ensures UseAudio(AllSegments(p.chapters[..i]), p.files)
  {
    if i > 0 {
      ChaptersUseAudio(p, validText, i - 1);
      NextChapter(p.chapters, i - 1);
      assert ChapterHolds(p.chapters[i - 1], i, p.files, validText);
      SegmentsUseAudio(p.chapters[i - 1].segments, p.files);
    }
  }

  lemma SameSize<T>(a: set<T>, b: set<T>)
    requires a <= b && |a| == |b|
    ensures a == b
  {
    assert b == a + (b - a);
  }

  lemma {:induction false} CountFiles(segs: seq<Segment>)
    ensures |FilesOf(segs)| <= |segs|
    ensures NoneRepeated(segs) <==> |FilesOf(segs)| == |segs|
  {
    if segs != [] {
      CountFiles(segs[..|segs| - 1]);
    }
  }
}
