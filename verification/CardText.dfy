// unfold: the physical lines of a contact card joined into logical ones
// (edge/src/contacts.ts; section 3.2 of RFC 6350 and section 6.7 of RFC 2045).
module CardText {
  import opened Basics
  import opened TextLines

  const MAX_LINES := 100000
  const QP := "QUOTED-PRINTABLE"

  predicate Blank(c: char) { c == ' ' || c == '\t' }

  predicate EndsEq(s: string) { s != "" && s[|s| - 1] == '=' }

  function Upper(c: char): char { if 'a' <= c <= 'z' then 'A' + (c - 'a') else c }

  // /QUOTED-PRINTABLE/i at i.
  predicate QPAt(s: string, i: nat) {
    i + |QP| <= |s| && forall k | 0 <= k < |QP| :: Upper(s[i + k]) == QP[k]
  }

  // What stands before the first colon.
  function Head(s: string): string {
    if s == "" || s[0] == ':' then "" else [s[0]] + Head(s[1..])
  }

  predicate IsQP(raw: string) { exists i | 0 <= i <= |Head(raw)| :: QPAt(Head(raw), i) }

  lemma {:induction false} HeadEnds(s: string)
    ensures Head(s) <= s && ':' !in Head(s) && (Head(s) == s || s[|Head(s)|] == ':')
  {
    if s != "" && s[0] != ':' {
      HeadEnds(s[1..]);
    }
  }

  // The name of the encoding, each letter in either case.
  predicate Spelled(name: string) {
    |name| == 16 && forall k | 0 <= k < 16 :: name[k] == "QUOTED-PRINTABLE"[k] || name[k] == "quoted-printable"[k]
  }

  lemma SpelledIsQP(raw: string, i: nat)
    requires i <= |raw| - 16
    ensures Spelled(raw[i..i + 16]) <==> QPAt(raw, i)
  {
    var name := raw[i..i + 16];
    assert forall c, k | 0 <= k < 16 :: Upper(c) == QP[k] <==> c == "QUOTED-PRINTABLE"[k] || c == "quoted-printable"[k];
    assert forall k | 0 <= k < 16 :: name[k] == raw[i + k];
  }

  // A physical line names the encoding when it does so before any colon.
  lemma IsQPMeans(raw: string)
    ensures IsQP(raw) <==> exists i | 0 <= i <= |raw| - 16 :: ':' !in raw[..i] && Spelled(raw[i..i + 16])
  {
    hide Spelled, QPAt;
    HeadEnds(raw);
    var head := Head(raw);
    if i :| 0 <= i <= |head| && QPAt(head, i) {
      QPFits(head, i);
      SpelledIsQP(head, i);
      assert raw[..i] == head[..i] && raw[i..i + 16] == head[i..i + 16];
    }
    if i :| 0 <= i <= |raw| - 16 && ':' !in raw[..i] && Spelled(raw[i..i + 16]) {
      NoColon(raw[i..i + 16]);
      assert raw[..i + 16] == raw[..i] + raw[i..i + 16];
      assert |head| >= i + 16;
      assert raw[i..i + 16] == head[i..i + 16];
      SpelledIsQP(head, i);
    }
  }

  lemma QPFits(s: string, i: nat)
    requires QPAt(s, i)
    ensures i + 16 <= |s|
  {
  }

  lemma NoColon(name: string)
    requires Spelled(name)
    ensures ':' !in name
  {
  }

  // Carriage returns, alone or before a newline, become newlines.
  function Normalise(s: string): string {
    if s == "" then ""
    else if s[0] == '\r' then "\n" + Normalise(if |s| > 1 && s[1] == '\n' then s[2..] else s[1..])
    else [s[0]] + Normalise(s[1..])
  }

  // A physical line that is not blank.
  type Raw = s: string | s != "" witness "x"

  function IfNonEmpty(line: string): seq<Raw> { if line == "" then [] else [line] }

  function NonEmpty(lines: seq<string>): seq<Raw> {
    if lines == [] then [] else IfNonEmpty(lines[0]) + NonEmpty(lines[1..])
  }

  function Physical(text: string): seq<Raw> { NonEmpty(Split(Normalise(text))) }

  // ---- The simple form: one accumulated string, tested at its own end ----

  datatype State = State(lines: seq<string>, current: string, qp: bool)

  function Flushed(st: State): seq<string> { if st.current == "" then st.lines else st.lines + [st.current] }

  function Next(st: State, raw: Raw): State {
    if st.qp && EndsEq(st.current) then st.(current := st.current[..|st.current| - 1] + raw)
    else if Blank(raw[0]) && st.current != "" then st.(current := st.current + raw[1..])
    else State(Flushed(st), raw, IsQP(raw))
  }

  function Run(st: State, raws: seq<Raw>): State
    decreases |raws|
  {
    if raws == [] then st else Run(Next(st, raws[0]), raws[1..])
  }

  const START := State([], "", false)

  function Unfolded(raws: seq<Raw>): seq<string> { Flushed(Run(START, raws)) }

  lemma {:induction false} RunSnoc(st: State, raws: seq<Raw>, raw: Raw)
    ensures Run(st, raws + [raw]) == Next(Run(st, raws), raw)
    decreases |raws|
  {
    hide Next;
    if raws == [] {
      assert ([] + [raw])[1..] == [];
    } else {
      RunSnoc(Next(st, raws[0]), raws[1..], raw);
      assert (raws + [raw])[1..] == raws[1..] + [raw];
    }
  }

  lemma RunCons(st: State, raw: Raw, raws: seq<Raw>)
    ensures Run(st, [raw] + raws) == Run(Next(st, raw), raws)
  {
    assert ([raw] + raws)[1..] == raws;
  }

  lemma {:induction false} NonEmptySnoc(lines: seq<string>, line: string)
    ensures NonEmpty(lines + [line]) == if line == "" then NonEmpty(lines) else NonEmpty(lines) + [line]
  {
    if lines == [] {
      assert [line][1..] == [];
    } else {
      NonEmptySnoc(lines[1..], line);
      assert (lines + [line])[1..] == lines[1..] + [line];
    }
  }

  // ---- The fast form: pieces joined once, and a flag for the last of them ----

  function Join(parts: seq<string>): string {
    if parts == [] then "" else Join(parts[..|parts| - 1]) + parts[|parts| - 1]
  }

  lemma JoinSnoc(parts: seq<string>, part: string)
    ensures Join(parts + [part]) == Join(parts) + part
  {
    assert (parts + [part])[..|parts|] == parts;
  }

  lemma JoinOne(part: string)
    ensures Join([part]) == part && Join([]) == ""
  {
    assert [part][..0] == [];
  }

  // The pieces and flags stand for a state. The flag is of the last raw piece:
  // for a quoted-printable line that is the end of the accumulated string too.
  ghost predicate Stands(st: State, lines: seq<string>, parts: seq<string>, qp: bool, soft: bool) {
    && st.lines == lines && st.current == Join(parts) && st.qp == qp
    && (parts == [] <==> st.current == "")
    && (qp && parts != [] ==> soft == EndsEq(st.current))
    && (qp && parts != [] && soft ==> EndsEq(parts[|parts| - 1]))
  }

  method Unfold(text: string) returns (r: Option<seq<string>>)
    ensures r.None? <==> |Physical(text)| > MAX_LINES
    ensures r.Some? ==> r.value == Unfolded(Physical(text))
  {
    hide IsQP, Next;
    var all := Split(Normalise(text));
    var lines: seq<string>, parts: seq<string> := [], [];
    var qp, soft, count := false, false, 0;
    for i := 0 to |all|
      invariant count == |NonEmpty(all[..i])| <= MAX_LINES
      invariant Stands(Run(START, NonEmpty(all[..i])), lines, parts, qp, soft)
    {
      var raw := all[i];
      assert all[..i + 1] == all[..i] + [raw];
      NonEmptySnoc(all[..i], raw);
      if raw == "" {
        continue;
      }
      count := count + 1;
      if count > MAX_LINES {
        MoreLines(all, i + 1);
        return None;
      }
      RunSnoc(START, NonEmpty(all[..i]), raw);
      lines, parts, qp, soft := Take(lines, parts, qp, soft, raw, Run(START, NonEmpty(all[..i])));
    }
    assert all[..|all|] == all;
    r := Some(if parts != [] then lines + [Join(parts)] else lines);
  }

  lemma {:induction false} MoreLines(all: seq<string>, i: nat)
    requires i <= |all|
    ensures |NonEmpty(all[..i])| <= |NonEmpty(all)|
    decreases |all| - i
  {
    if i == |all| {
      assert all[..i] == all;
    } else {
      assert all[..i + 1] == all[..i] + [all[i]];
      NonEmptySnoc(all[..i], all[i]);
      MoreLines(all, i + 1);
    }
  }

  // One physical line.
  method Take(lines: seq<string>, parts: seq<string>, qp: bool, soft: bool, raw: Raw, ghost st: State)
    returns (lines': seq<string>, parts': seq<string>, qp': bool, soft': bool)
    requires Stands(st, lines, parts, qp, soft)
    ensures Stands(Next(st, raw), lines', parts', qp', soft')
  {
    hide IsQP, Join;
    lines', parts', qp' := lines, parts, qp;
    if soft && qp && parts != [] {
      // The break's own "=" goes; what follows is data as written.
      var last := parts[|parts| - 1];
      var cut := parts[..|parts| - 1] + [last[..|last| - 1]];
      CutLast(parts);
      JoinSnoc(cut, raw);
      parts' := cut + [raw];
    } else if Blank(raw[0]) && parts != [] {
      JoinSnoc(parts, raw[1..]);
      parts' := parts + [raw[1..]];
    } else {
      if parts != [] {
        lines' := lines + [Join(parts)];
      }
      JoinOne(raw);
      parts' := [raw];
      qp' := IsQP(raw);
    }
    soft' := EndsEq(raw);
  }

  lemma CutLast(parts: seq<string>)
    requires parts != [] && EndsEq(parts[|parts| - 1])
    ensures var last := parts[|parts| - 1];
            Join(parts[..|parts| - 1] + [last[..|last| - 1]]) == Join(parts)[..|Join(parts)| - 1]
  {
    var last := parts[|parts| - 1];
    JoinSnoc(parts[..|parts| - 1], last[..|last| - 1]);
  }
}
