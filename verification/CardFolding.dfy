// Unfolding undoes every way of writing a card's logical lines as physical ones.
module CardFolding {
  import opened TextLines
  import opened CardText

  // How a piece follows the one before it: after a soft break, or folded behind
  // one white space character.
  datatype Join = Soft | Fold(blank: char)

  datatype Piece = Piece(join: Join, text: string)

  // A logical line as written: its first piece and the rest.
  datatype Written = Written(first: string, rest: seq<Piece>)

  function Logical(lead: string, rest: seq<Piece>): string
    decreases |rest|
  {
    if rest == [] then lead else Logical(lead + rest[0].text, rest[1..])
  }

  // The physical lines. `lead` is what the current one holds so far.
  function Raws(lead: string, rest: seq<Piece>): (r: seq<string>)
    ensures |r| == |rest| + 1
    decreases |rest|
  {
    if rest == [] then [lead]
    else if rest[0].join.Soft? then [lead + "="] + Raws(rest[0].text, rest[1..])
    else [lead] + Raws([rest[0].join.blank] + rest[0].text, rest[1..])
  }

  // A soft break belongs to a quoted-printable line; there a piece that is not
  // softly broken does not end in "=". No physical line is blank.
  predicate Proper(lead: string, rest: seq<Piece>, qp: bool)
    decreases |rest|
  {
    if rest == [] then lead != "" && !(qp && EndsEq(lead))
    else if rest[0].join.Soft? then qp && Proper(rest[0].text, rest[1..], qp)
    else
      && lead != "" && !(qp && EndsEq(lead)) && Blank(rest[0].join.blank)
      && Proper([rest[0].join.blank] + rest[0].text, rest[1..], qp)
  }

  // The same, whatever the last piece ends in.
  predicate Joins(lead: string, rest: seq<Piece>, qp: bool)
    decreases |rest|
  {
    if rest == [] then lead != ""
    else if rest[0].join.Soft? then qp && Joins(rest[0].text, rest[1..], qp)
    else
      && lead != "" && !(qp && EndsEq(lead)) && Blank(rest[0].join.blank)
      && Joins([rest[0].join.blank] + rest[0].text, rest[1..], qp)
  }

  lemma {:induction false} ProperJoins(lead: string, rest: seq<Piece>, qp: bool)
    requires Proper(lead, rest, qp)
    ensures Joins(lead, rest, qp)
    decreases |rest|
  {
    if rest != [] {
      ProperJoins(LeadOf(rest[0]), rest[1..], qp);
    }
  }

  predicate ProperLine(w: Written) {
    w.first != "" && !Blank(w.first[0]) && Proper(w.first, w.rest, IsQP(Raws(w.first, w.rest)[0]))
  }

  function RawsOf(doc: seq<Written>): seq<string> {
    if doc == [] then [] else Raws(doc[0].first, doc[0].rest) + RawsOf(doc[1..])
  }

  function LogicalOf(doc: seq<Written>): seq<string> {
    if doc == [] then [] else [Logical(doc[0].first, doc[0].rest)] + LogicalOf(doc[1..])
  }

  lemma {:induction false} RawsAreNotBlank(lead: string, rest: seq<Piece>, qp: bool)
    requires Proper(lead, rest, qp)
    ensures NonEmpty(Raws(lead, rest)) == Raws(lead, rest)
    decreases |rest|
  {
    var r := Raws(lead, rest);
    if rest == [] {
      assert r[1..] == [];
    } else if rest[0].join.Soft? {
      RawsAreNotBlank(rest[0].text, rest[1..], qp);
      assert r[1..] == Raws(rest[0].text, rest[1..]);
    } else {
      RawsAreNotBlank([rest[0].join.blank] + rest[0].text, rest[1..], qp);
      assert r[1..] == Raws([rest[0].join.blank] + rest[0].text, rest[1..]);
    }
  }

  lemma {:induction false} NonEmptyAppend(a: seq<string>, b: seq<string>)
    ensures NonEmpty(a + b) == NonEmpty(a) + NonEmpty(b)
  {
    if a == [] {
      assert a + b == b;
    } else {
      hide IfNonEmpty;
      NonEmptyAppend(a[1..], b);
      assert (a + b)[1..] == a[1..] + b;
      assert IfNonEmpty(a[0]) + NonEmpty(a[1..]) + NonEmpty(b) == IfNonEmpty(a[0]) + (NonEmpty(a[1..]) + NonEmpty(b));
    }
  }

  // What the physical line of a piece holds before a soft break's "=".
  function LeadOf(piece: Piece): string {
    if piece.join.Soft? then piece.text else [piece.join.blank] + piece.text
  }

  function Tail(rest: seq<Piece>): string { if rest != [] && rest[0].join.Soft? then "=" else "" }

  lemma RawsUnroll(lead: string, rest: seq<Piece>)
    ensures Raws(lead, rest)[0] == lead + Tail(rest)
    ensures rest != [] ==> Raws(lead, rest) == [lead + Tail(rest)] + Raws(LeadOf(rest[0]), rest[1..])
    ensures rest == [] ==> Raws(lead, rest) == [lead]
  {
  }

  // The rest of a line: `current` has taken in the present physical line, and
  // ends as it does, unless that line is nothing but a soft break.
  lemma {:induction false} RestOfLine(st: State, lead: string, rest: seq<Piece>, raws: seq<Raw>, after: seq<Raw>)
    requires Joins(lead, rest, st.qp) && st.current != "" && (st.qp && lead != "" ==> EndsEq(st.current) == EndsEq(lead))
    requires Raws(lead, rest) == raws
    ensures Run(st.(current := st.current + Tail(rest)), raws[1..] + after) == Run(st.(current := Logical(st.current, rest)), after)
    decreases |rest|
  {
    hide IsQP, Next, Run, Raws;
    RawsUnroll(lead, rest);
    if rest == [] {
      assert st.current + "" == st.current;
      assert raws[1..] + after == after;
    } else {
      var piece, next := rest[0], raws[1..];
      var more := st.(current := st.current + piece.text);
      JoinsNext(st, lead, rest);
      RestOfLine(more, LeadOf(piece), rest[1..], next, after);
      RawsUnroll(LeadOf(piece), rest[1..]);
      var raw: Raw := next[0];
      assert next + after == [raw] + (next[1..] + after);
      RunCons(st.(current := st.current + Tail(rest)), raw, next[1..] + after);
      OneJoin(st, piece, Tail(rest[1..]), raw);
      assert Logical(st.current, rest) == Logical(more.current, rest[1..]);
    }
  }

  lemma JoinsNext(st: State, lead: string, rest: seq<Piece>)
    requires rest != [] && Joins(lead, rest, st.qp) && st.current != "" && (st.qp && lead != "" ==> EndsEq(st.current) == EndsEq(lead))
    ensures Joins(LeadOf(rest[0]), rest[1..], st.qp)
    ensures if rest[0].join.Soft? then st.qp else !(st.qp && EndsEq(st.current)) && Blank(rest[0].join.blank)
    ensures st.qp && rest[0].text != "" ==> EndsEq(st.current + rest[0].text) == EndsEq(LeadOf(rest[0]))
    ensures st.qp && rest[0].text == "" && rest[0].join.Fold? ==> !EndsEq(st.current + rest[0].text) && !EndsEq(LeadOf(rest[0]))
  {
  }

  // Taking in the next physical line.
  lemma OneJoin(st: State, piece: Piece, tail: string, raw: Raw)
    requires st.current != "" && raw == LeadOf(piece) + tail
    requires if piece.join.Soft? then st.qp else !(st.qp && EndsEq(st.current)) && Blank(piece.join.blank)
    ensures Next(st.(current := st.current + Tail([piece])), raw) == st.(current := st.current + piece.text + tail)
  {
    hide IsQP;
    if piece.join.Soft? {
      assert (st.current + "=")[..|st.current + "="| - 1] == st.current;
      assert st.current + (piece.text + tail) == st.current + piece.text + tail;
    } else {
      assert raw[1..] == piece.text + tail;
      assert st.current + "" == st.current;
      assert st.current + (piece.text + tail) == st.current + piece.text + tail;
    }
  }

  // A finished line is not open to a soft break.
  lemma {:induction false} LineIsClosed(current: string, lead: string, rest: seq<Piece>, qp: bool)
    requires Proper(lead, rest, qp) && current != "" && (qp && lead != "" ==> EndsEq(current) == EndsEq(lead))
    ensures Logical(current, rest) != "" && !(qp && EndsEq(Logical(current, rest)))
    decreases |rest|
  {
    if rest != [] {
      ProperJoins(lead, rest, qp);
      JoinsNext(State([], current, qp), lead, rest);
      LineIsClosed(current + rest[0].text, LeadOf(rest[0]), rest[1..], qp);
    }
  }

  lemma OneLineRead(st: State, w: Written, raws: seq<Raw>, after: seq<Raw>)
    requires ProperLine(w) && !(st.qp && EndsEq(st.current)) && raws == Raws(w.first, w.rest)
    ensures var qp := IsQP(raws[0]);
            && Run(st, raws + after) == Run(State(Flushed(st), Logical(w.first, w.rest), qp), after)
            && Logical(w.first, w.rest) != "" && !(qp && EndsEq(Logical(w.first, w.rest)))
  {
    hide IsQP, Run, Raws, Logical;
    RawsUnroll(w.first, w.rest);
    var raw: Raw := raws[0];
    var read := State(Flushed(st), w.first, IsQP(raw));
    assert raws + after == [raw] + (raws[1..] + after);
    RunCons(st, raw, raws[1..] + after);
    assert Next(st, raw) == read.(current := read.current + Tail(w.rest));
    ProperJoins(w.first, w.rest, IsQP(raw));
    RestOfLine(read, w.first, w.rest, raws, after);
    LineIsClosed(w.first, w.first, w.rest, IsQP(raw));
  }

  ghost predicate ProperDoc(doc: seq<Written>) { forall i | 0 <= i < |doc| :: ProperLine(doc[i]) }

  lemma {:induction false} DocRead(st: State, doc: seq<Written>)
    requires ProperDoc(doc) && !(st.qp && EndsEq(st.current))
    ensures NonEmpty(RawsOf(doc)) == RawsOf(doc)
    ensures Flushed(Run(st, NonEmpty(RawsOf(doc)))) == Flushed(st) + LogicalOf(doc)
    decreases |doc|
  {
    hide IsQP, ProperLine, Raws, Logical, Next;
    if doc != [] {
      var w := doc[0];
      assert ProperLine(w);
      LineRawsAreNotBlank(w);
      var raws := NonEmpty(Raws(w.first, w.rest));
      assert ProperDoc(doc[1..]);
      var after := NonEmpty(RawsOf(doc[1..]));
      NonEmptyAppend(Raws(w.first, w.rest), RawsOf(doc[1..]));
      OneLineRead(st, w, raws, after);
      DocRead(State(Flushed(st), Logical(w.first, w.rest), IsQP(raws[0])), doc[1..]);
      assert Flushed(st) + [Logical(w.first, w.rest)] + LogicalOf(doc[1..]) == Flushed(st) + LogicalOf(doc);
    } else {
      assert RawsOf(doc) == [] && LogicalOf(doc) == [];
    }
  }

  lemma LineRawsAreNotBlank(w: Written)
    requires ProperLine(w)
    ensures NonEmpty(Raws(w.first, w.rest)) == Raws(w.first, w.rest)
  {
    RawsAreNotBlank(w.first, w.rest, IsQP(Raws(w.first, w.rest)[0]));
  }

  // ---- The text ----

  predicate Unbroken(s: string) { forall i | 0 <= i < |s| :: s[i] != '\n' && s[i] != '\r' }

  datatype Ending = LF | CRLF | CR

  function EndText(e: Ending): string {
    match e case LF => "\n" case CRLF => "\r\n" case CR => "\r"
  }

  // Lines, each with an ending of its own.
  function TextOf(raws: seq<string>, ends: seq<Ending>): string
    requires |raws| == |ends|
    decreases |raws|
  {
    if raws == [] then "" else raws[0] + EndText(ends[0]) + TextOf(raws[1..], ends[1..])
  }

  lemma {:induction false} NormaliseLine(line: string, e: Ending, more: string)
    requires Unbroken(line) && (more != "" ==> more[0] != '\n')
    ensures Normalise(line + EndText(e) + more) == line + "\n" + Normalise(more)
  {
    hide Normalise, EndText;
    if line == "" {
      NormaliseEnd(e, more);
      assert line + EndText(e) + more == EndText(e) + more;
      assert line + "\n" + Normalise(more) == "\n" + Normalise(more);
    } else {
      NormaliseLine(line[1..], e, more);
      NormaliseChar(line[0], line[1..] + EndText(e) + more);
      assert line + EndText(e) + more == [line[0]] + (line[1..] + EndText(e) + more);
      assert [line[0]] + (line[1..] + "\n" + Normalise(more)) == line + "\n" + Normalise(more);
    }
  }

  lemma NormaliseChar(c: char, s: string)
    requires c != '\r'
    ensures Normalise([c] + s) == [c] + Normalise(s)
  {
    assert ([c] + s)[1..] == s;
  }

  lemma NormaliseEnd(e: Ending, more: string)
    requires more != "" ==> more[0] != '\n'
    ensures Normalise(EndText(e) + more) == "\n" + Normalise(more)
  {
    var s := EndText(e) + more;
    match e {
      case LF => NormaliseChar('\n', more);
      case CRLF => assert s[2..] == more;
      case CR => assert s[1..] == more;
    }
  }

  lemma {:induction false} PhysicalOfText(raws: seq<Raw>, ends: seq<Ending>)
    requires |raws| == |ends| && forall i | 0 <= i < |raws| :: Unbroken(raws[i])
    ensures Physical(TextOf(raws, ends)) == raws
    decreases |raws|
  {
    hide Normalise, EndText, Unbroken, NonEmpty;
    if raws == [] {
      EmptyText();
    } else {
      var more := TextOf(raws[1..], ends[1..]);
      PhysicalOfText(raws[1..], ends[1..]);
      assert Unbroken(raws[0]) && (raws[1..] != [] ==> Unbroken(raws[1]));
      StartsUnbroken(raws[1..], ends[1..]);
      NormaliseLine(raws[0], ends[0], more);
      SplitAt(raws[0], Normalise(more));
      UnbrokenIsOne(raws[0]);
      SplitOneLine(raws[0]);
      FirstNonEmpty(raws[0], Split(Normalise(more)));
    }
  }

  lemma EmptyText()
    ensures Physical("") == []
  {
    assert Split(Normalise("")) == [""] && [""][1..] == [];
  }

  lemma UnbrokenIsOne(s: string)
    requires Unbroken(s)
    ensures OneLine(s)
  {
  }

  lemma FirstNonEmpty(raw: Raw, lines: seq<string>)
    ensures NonEmpty([raw] + lines) == [raw] + NonEmpty(lines)
  {
    assert ([raw] + lines)[1..] == lines;
  }

  lemma StartsUnbroken(raws: seq<Raw>, ends: seq<Ending>)
    requires |raws| == |ends| && (raws != [] ==> Unbroken(raws[0]))
    ensures var t := TextOf(raws, ends); t != "" ==> t[0] != '\n'
  {
  }

  // ---- The result ----

  // However a document is folded and softly broken, and however its lines end,
  // unfolding gives back its logical lines.
  lemma UnfoldsToLogical(doc: seq<Written>, ends: seq<Ending>)
    requires ProperDoc(doc) && |ends| == |RawsOf(doc)| && forall r | r in RawsOf(doc) :: Unbroken(r)
    ensures Unfolded(Physical(TextOf(RawsOf(doc), ends))) == LogicalOf(doc)
    ensures |Physical(TextOf(RawsOf(doc), ends))| == |RawsOf(doc)|
  {
    DocRead(START, doc);
    PhysicalOfText(NonEmpty(RawsOf(doc)), ends);
    assert [] + LogicalOf(doc) == LogicalOf(doc);
  }

  // Any folding at all will do for a line that is not quoted-printable.
  lemma PlainFoldIsProper(w: Written)
    requires w.first != "" && w.first[0] != ' ' && w.first[0] != '\t'
    requires forall p | p in w.rest :: p.join.Fold? && (p.join.blank == ' ' || p.join.blank == '\t')
    requires !IsQP(Logical(w.first, w.rest))
    ensures ProperLine(w)
  {
    if IsQP(w.first) {
      LongerIsQP(w.first, w.rest);
    }
    assert Raws(w.first, w.rest)[0] == w.first by {
      RawsUnroll(w.first, w.rest);
      if w.rest != [] { assert w.rest[0] in w.rest; }
    }
    FoldIsProper(w.first, w.rest);
  }

  lemma {:induction false} FoldIsProper(lead: string, rest: seq<Piece>)
    requires lead != "" && forall p | p in rest :: p.join.Fold? && Blank(p.join.blank)
    ensures Proper(lead, rest, false)
    decreases |rest|
  {
    if rest != [] {
      assert rest[0] in rest;
      FoldIsProper([rest[0].join.blank] + rest[0].text, rest[1..]);
    }
  }

  lemma {:induction false} LongerIsQP(lead: string, rest: seq<Piece>)
    requires IsQP(lead)
    ensures IsQP(Logical(lead, rest))
    decreases |rest|
  {
    if rest != [] {
      HeadGrows(lead, rest[0].text);
      var i :| 0 <= i <= |Head(lead)| && QPAt(Head(lead), i);
      assert QPAt(Head(lead + rest[0].text), i);
      LongerIsQP(lead + rest[0].text, rest[1..]);
    }
  }

  lemma {:induction false} HeadGrows(s: string, more: string)
    ensures |Head(s)| <= |Head(s + more)| && Head(s + more)[..|Head(s)|] == Head(s)
  {
    if s != "" && s[0] != ':' {
      HeadGrows(s[1..], more);
      assert (s + more)[1..] == s[1..] + more;
    }
  }

  // A quoted-printable line may be softly broken anywhere once its first
  // physical line says so, if the last piece is not empty or an "=".
  lemma SoftBreaksAreProper(w: Written)
    requires w.first != "" && w.first[0] != ' ' && w.first[0] != '\t' && IsQP(w.first)
    requires forall p | p in w.rest :: p.join.Soft?
    requires var last := if w.rest == [] then w.first else w.rest[|w.rest| - 1].text; last != "" && !EndsEq(last)
    ensures ProperLine(w)
  {
    RawsUnroll(w.first, w.rest);
    if w.rest != [] {
      LongerIsQP(w.first, [Piece(Soft, "=")]);
      assert Logical(w.first, [Piece(Soft, "=")]) == Logical(w.first + "=", []);
    }
    assert w.first + "" == w.first;
    SoftIsProper(w.first, w.rest);
  }

  lemma {:induction false} SoftIsProper(lead: string, rest: seq<Piece>)
    requires forall p | p in rest :: p.join.Soft?
    requires var last := if rest == [] then lead else rest[|rest| - 1].text; last != "" && !EndsEq(last)
    ensures Proper(lead, rest, true)
    decreases |rest|
  {
    if rest != [] {
      assert rest[0] in rest;
      SoftIsProper(rest[0].text, rest[1..]);
    }
  }

  // And only then: the flag is read from the first physical line alone. However
  // many lines it takes, a logical line comes back exactly when that line names
  // the encoding or none of its breaks is soft.
  lemma SoftBreakNeedsTheHead(w: Written, raws: seq<Raw>)
    requires w.first != "" && !Blank(w.first[0]) && Joins(w.first, w.rest, true) && raws == Raws(w.first, w.rest)
    ensures Unfolded(raws) == [Logical(w.first, w.rest)] <==> IsQP(raws[0]) || forall p | p in w.rest :: p.join.Fold?
  {
    hide IsQP, Run, Raws, Next;
    RawsUnroll(w.first, w.rest);
    var raw: Raw, qp := raws[0], IsQP(raws[0]);
    var read := State([], w.first, qp);
    assert raws == [raw] + raws[1..] && raws[1..] + [] == raws[1..];
    RunCons(START, raw, raws[1..]);
    FirstLine(raw);
    assert read.(current := read.current + Tail(w.rest)) == State([], raw, qp);
    if qp || forall p | p in w.rest :: p.join.Fold? {
      if !qp {
        FoldsJoin(w.first, w.rest);
      }
      RestOfLine(read, w.first, w.rest, raws, []);
      LogicalStarts(w.first, w.rest);
      RunNothing(read.(current := Logical(w.first, w.rest)));
    } else {
      SoftIsKept(w.first, w.first, w.rest, raws);
    }
  }

  lemma FirstLine(raw: Raw)
    requires !Blank(raw[0])
    ensures Next(START, raw) == State([], raw, IsQP(raw))
  {
  }

  lemma RunNothing(st: State)
    ensures Run(st, []) == st
  {
  }

  lemma {:induction false} FoldsJoin(lead: string, rest: seq<Piece>)
    requires Joins(lead, rest, true) && forall p | p in rest :: p.join.Fold?
    ensures Joins(lead, rest, false)
    decreases |rest|
  {
    if rest != [] {
      assert rest[0] in rest;
      FoldsJoin(LeadOf(rest[0]), rest[1..]);
    }
  }

  lemma {:induction false} LogicalStarts(lead: string, rest: seq<Piece>)
    ensures lead <= Logical(lead, rest)
    decreases |rest|
  {
    if rest != [] {
      LogicalStarts(lead + rest[0].text, rest[1..]);
    }
  }

  // Once a line is under way and its flag is off, what it holds only grows, or
  // another line begins.
  lemma {:induction false} OnlyGrows(st: State, raws: seq<Raw>)
    requires st.current != "" && (st.lines != [] || !st.qp)
    ensures var f := Flushed(Run(st, raws)); |f| >= 2 || (st.lines == [] && |f| == 1 && st.current <= f[0])
    decreases |raws|
  {
    hide IsQP;
    if raws != [] {
      OnlyGrows(Next(st, raws[0]), raws[1..]);
    }
  }

  // A soft break behind a line whose flag is off is not undone: its "=" stays,
  // or a line of its own begins there.
  lemma {:induction false} SoftIsKept(current: string, lead: string, rest: seq<Piece>, raws: seq<Raw>)
    requires current != "" && Joins(lead, rest, true) && raws == Raws(lead, rest) && exists p :: p in rest && p.join.Soft?
    ensures Flushed(Run(State([], current + Tail(rest), false), raws[1..])) != [Logical(current, rest)]
    decreases |rest|
  {
    hide IsQP, Run, Raws;
    var piece, next := rest[0], raws[1..];
    RawsUnroll(lead, rest);
    RawsUnroll(LeadOf(piece), rest[1..]);
    var raw: Raw, st := next[0], State([], current + Tail(rest), false);
    assert next == [raw] + next[1..];
    RunCons(st, raw, next[1..]);
    if piece.join.Fold? {
      assert raw[1..] == piece.text + Tail(rest[1..]);
      assert current + "" + (piece.text + Tail(rest[1..])) == current + piece.text + Tail(rest[1..]);
      assert exists p :: p in rest[1..] && p.join.Soft?;
      SoftIsKept(current + piece.text, LeadOf(piece), rest[1..], next);
    } else {
      OnlyGrows(Next(st, raw), next[1..]);
      if Blank(raw[0]) {
        assert piece.text != "" && piece.text[0] == raw[0];
        LogicalStarts(current + piece.text, rest[1..]);
        assert Logical(current, rest)[|current|] == (current + piece.text)[|current|] == raw[0];
        assert (current + "=" + raw[1..])[|current|] == '=';
      }
    }
  }
}
