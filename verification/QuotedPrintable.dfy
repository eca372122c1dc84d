// decodeQP and the split of a card's line into its head and value
// (edge/src/contacts.ts; section 6.7 of RFC 2045).
module QuotedPrintable {
  import opened Basics
  import opened CardText
  import opened CardFolding

  function HexValue(c: char): Option<nat> {
    if '0' <= c <= '9' then Some((c - '0') as nat)
    else if 'a' <= c <= 'f' then Some((c - 'a') as nat + 10)
    else if 'A' <= c <= 'F' then Some((c - 'A') as nat + 10)
    else None
  }

  // The sixteen digits, in either case.
  lemma HexValueIs(c: char, n: nat)
    ensures HexValue(c) == Some(n) <==> n < 16 && (c == "0123456789abcdef"[n] || c == "0123456789ABCDEF"[n])
  {
  }

  predicate IsHex(c: char) { HexValue(c).Some? }

  function HexByte(high: char, low: char): Byte
    requires IsHex(high) && IsHex(low)
  {
    16 * HexValue(high).value + HexValue(low).value
  }

  // A character standing for itself, or a byte in hexadecimal.
  datatype Token = Literal(c: char) | Hex(high: char, low: char)
  {
    predicate Valid() {
      match this
      case Literal(c) => c != '='
      case Hex(high, low) => IsHex(high) && IsHex(low)
    }

    function Text(): (s: string)
      ensures s != ""
    {
      match this
      case Literal(c) => [c]
      case Hex(high, low) => ['=', high, low]
    }

    function Bytes(utf8: char -> seq<Byte>): seq<Byte>
      requires Valid()
    {
      match this
      case Literal(c) => utf8(c)
      case Hex(high, low) => [HexByte(high, low)]
    }
  }

  ghost predicate AllValid(ts: seq<Token>) { forall i | 0 <= i < |ts| :: ts[i].Valid() }

  function TextOf(ts: seq<Token>): string {
    if ts == [] then "" else ts[0].Text() + TextOf(ts[1..])
  }

  function BytesOf(ts: seq<Token>, utf8: char -> seq<Byte>): seq<Byte>
    requires AllValid(ts)
  {
    if ts == [] then [] else BytesOf(ts[..|ts| - 1], utf8) + ts[|ts| - 1].Bytes(utf8)
  }

  lemma BytesSnoc(ts: seq<Token>, t: Token, utf8: char -> seq<Byte>)
    requires AllValid(ts) && t.Valid()
    ensures AllValid(ts + [t]) && BytesOf(ts + [t], utf8) == BytesOf(ts, utf8) + t.Bytes(utf8)
  {
    assert (ts + [t])[..|ts|] == ts;
  }

  // ---- One way to read a value ----

  // The token a value starts with, if it is well formed.
  function First(value: string): Option<Token>
    requires value != ""
  {
    if value[0] != '=' then Some(Literal(value[0]))
    else if |value| > 2 && IsHex(value[1]) && IsHex(value[2]) then Some(Hex(value[1], value[2]))
    else None
  }

  lemma FirstIs(value: string)
    requires value != "" && First(value).Some?
    ensures var t := First(value).value;
            t.Valid() && |t.Text()| <= |value| && value == t.Text() + value[|t.Text()|..]
  {
  }

  lemma FirstOf(t: Token, more: string)
    requires t.Valid()
    ensures First(t.Text() + more) == Some(t) && (t.Text() + more)[|t.Text()|..] == more
  {
  }

  function Reading(value: string): Option<seq<Token>>
    decreases |value|
  {
    if value == "" then Some([])
    else
      var t := First(value);
      if t.None? then None
      else
        FirstIs(value);
        var more := Reading(value[|t.value.Text()|..]);
        if more.None? then None else Some([t.value] + more.value)
  }

  // Reading and writing are inverse: a value has one reading, or none.
  lemma {:induction false} ReadsBack(ts: seq<Token>)
    requires AllValid(ts)
    ensures Reading(TextOf(ts)) == Some(ts)
  {
    if ts != [] {
      assert ts[0].Valid();
      FirstOf(ts[0], TextOf(ts[1..]));
      ReadsBack(ts[1..]);
      assert [ts[0]] + ts[1..] == ts;
    }
  }

  lemma {:induction false} WritesBack(value: string)
    requires Reading(value).Some?
    ensures AllValid(Reading(value).value) && TextOf(Reading(value).value) == value
    decreases |value|
  {
    if value != "" {
      FirstIs(value);
      var t := First(value).value;
      var more := value[|t.Text()|..];
      WritesBack(more);
      assert Reading(value).value[1..] == Reading(more).value;
    }
  }

  // ---- decodeQP ----

  // `utf8` encodes one character and `decode` is the final decoder, none for
  // bytes that are not UTF-8. A malformed escape makes the card invalid.
  method DecodeQP(value: string, utf8: char -> seq<Byte>, decode: seq<Byte> -> Option<string>) returns (r: Option<string>)
    ensures forall ts | AllValid(ts) && TextOf(ts) == value :: r == decode(BytesOf(ts, utf8))
    ensures (forall ts | AllValid(ts) :: TextOf(ts) != value) ==> r == None
  {
    hide Reading, BytesOf, IsHex, HexValue;
    var bytes: seq<Byte>, i := [], 0;
    ghost var read: seq<Token> := [];
    ReadingEmpty(utf8);
    ContinuesNone(value);
    while i < |value|
      invariant i <= |value| && AllValid(read) && bytes == BytesOf(read, utf8)
      invariant Continues(value, read, value[i..])
    {
      var left := value[i..];
      var t := First(left);
      if t.None? {
        ReadingStops(left);
        forall ts | AllValid(ts) ensures TextOf(ts) != value { ReadsBack(ts); }
        return None;
      }
      FirstIs(left);
      BytesSnoc(read, t.value, utf8);
      assert value[i + |t.value.Text()|..] == left[|t.value.Text()|..];
      ContinuesOne(value, read, left);
      bytes := bytes + t.value.Bytes(utf8);
      i := i + |t.value.Text()|;
      read := read + [t.value];
    }
    assert value[i..] == "" && read + [] == read;
    forall ts | AllValid(ts) && TextOf(ts) == value ensures ts == read { ReadsBack(ts); }
    WritesBack(value);
    r := decode(bytes);
  }

  lemma ReadingEmpty(utf8: char -> seq<Byte>)
    ensures Reading("") == Some([]) && BytesOf([], utf8) == []
  {
  }

  lemma ReadingStops(value: string)
    requires value != "" && First(value).None?
    ensures Reading(value).None?
  {
  }

  // The value reads as what was read of it and then the rest.
  ghost predicate Continues(value: string, read: seq<Token>, left: string) {
    Reading(value) == if Reading(left).None? then None else Some(read + Reading(left).value)
  }

  lemma ContinuesNone(value: string)
    ensures Continues(value, [], value[0..])
  {
    assert value[0..] == value;
    if Reading(value).Some? {
      assert [] + Reading(value).value == Reading(value).value;
    }
  }

  lemma ContinuesOne(value: string, read: seq<Token>, left: string)
    requires Continues(value, read, left) && left != "" && First(left).Some?
    ensures Continues(value, read + [First(left).value], left[|First(left).value.Text()|..])
  {
    var t := First(left).value;
    FirstIs(left);
    var more := Reading(left[|t.Text()|..]);
    if more.Some? {
      assert read + ([t] + more.value) == read + [t] + more.value;
    }
  }

  // ---- Round trip ----

  function Encode(s: string, utf8: char -> seq<Byte>): seq<Byte> {
    if s == "" then [] else utf8(s[0]) + Encode(s[1..], utf8)
  }

  lemma {:induction false} EncodesEach(a: string, c: char, b: string, utf8: char -> seq<Byte>)
    ensures Encode(a + [c] + b, utf8) == Encode(a, utf8) + utf8(c) + Encode(b, utf8)
  {
    var s := a + [c] + b;
    if a == "" {
      assert s[1..] == b;
    } else {
      assert s[1..] == a[1..] + [c] + b;
      EncodesEach(a[1..], c, b, utf8);
    }
  }

  const BOM := '\U{FEFF}'

  // The decoder drops one leading byte order mark.
  function WithoutBom(s: string): string { if s != "" && s[0] == BOM then s[1..] else s }

  ghost predicate DecodesUtf8(utf8: char -> seq<Byte>, decode: seq<Byte> -> Option<string>) {
    forall s: string :: decode(Encode(s, utf8)) == Some(WithoutBom(s))
  }

  function HexDigit(n: nat): char
    requires n < 16
  {
    if n < 10 then '0' + n as char else 'A' + (n - 10) as char
  }

  // Every byte in hexadecimal: an encoding that serves for any text.
  function HexTokens(bytes: seq<Byte>): (ts: seq<Token>)
    ensures |ts| == |bytes|
  {
    if bytes == [] then []
    else
      var b := bytes[|bytes| - 1];
      HexTokens(bytes[..|bytes| - 1]) + [Hex(HexDigit(b / 16), HexDigit(b % 16))]
  }

  lemma {:induction false} HexTokensHold(bytes: seq<Byte>, utf8: char -> seq<Byte>)
    ensures AllValid(HexTokens(bytes)) && BytesOf(HexTokens(bytes), utf8) == bytes
  {
    if bytes != [] {
      var b, init := bytes[|bytes| - 1], bytes[..|bytes| - 1];
      var t := Hex(HexDigit(b / 16), HexDigit(b % 16));
      HexTokensHold(init, utf8);
      HexReads(b);
      BytesSnoc(HexTokens(init), t, utf8);
      assert init + [b] == bytes;
    }
  }

  lemma HexReads(b: Byte)
    ensures var h, l := HexDigit(b / 16), HexDigit(b % 16); IsHex(h) && IsHex(l) && HexByte(h, l) == b
  {
    DigitReads(b / 16);
    DigitReads(b % 16);
  }

  lemma DigitReads(n: nat)
    requires n < 16
    ensures HexValue(HexDigit(n)) == Some(n)
  {
  }

  function DecodedQP(value: string, utf8: char -> seq<Byte>, decode: seq<Byte> -> Option<string>): Option<string> {
    if Reading(value).None? then None else (WritesBack(value); decode(BytesOf(Reading(value).value, utf8)))
  }

  // Any writing of a text's bytes, literal or escaped as it pleases, decodes to
  // the text, less a leading byte order mark: so to the text itself exactly
  // when it has none.
  lemma DecodesWhatWasEncoded(ts: seq<Token>, s: string, utf8: char -> seq<Byte>, decode: seq<Byte> -> Option<string>)
    requires DecodesUtf8(utf8, decode) && AllValid(ts) && BytesOf(ts, utf8) == Encode(s, utf8)
    ensures DecodedQP(TextOf(ts), utf8, decode) == Some(WithoutBom(s))
    ensures DecodedQP(TextOf(ts), utf8, decode) == Some(s) <==> (s == "" || s[0] != BOM)
  {
    ReadsBack(ts);
    if s != "" && s[0] == BOM {
      assert |WithoutBom(s)| != |s|;
    }
  }

  // ---- Head and value ----

  // Quotation marks in s; a separator is bare where they are even.
  function Quotes(s: string): nat {
    if s == "" then 0 else Quotes(s[..|s| - 1]) + if s[|s| - 1] == '"' then 1 else 0
  }

  predicate Balanced(s: string) { Quotes(s) % 2 == 0 }

  ghost predicate NoBare(s: string, separator: char) {
    forall i | 0 <= i < |s| && s[i] == separator :: !Balanced(s[..i])
  }

  function Rejoined(parts: seq<string>, separator: char): string
    requires parts != []
  {
    if |parts| == 1 then parts[0] else Rejoined(parts[..|parts| - 1], separator) + [separator] + parts[|parts| - 1]
  }

  lemma {:induction false} QuotesAppend(a: string, b: string)
    ensures Quotes(a + b) == Quotes(a) + Quotes(b)
  {
    if b == "" {
      assert a + b == a;
    } else {
      QuotesAppend(a, b[..|b| - 1]);
      assert (a + b)[..|a + b| - 1] == a + b[..|b| - 1];
    }
  }

  // A part between separators: nothing in it is cut, and no quote is open.
  ghost predicate Part(s: string, separator: char) { Balanced(s) && NoBare(s, separator) }

  ghost predicate Parts(r: seq<string>, value: string, separator: char, first: bool) {
    && r != [] && Rejoined(r, separator) == value
    && (forall k | 0 <= k < |r| - 1 :: Part(r[k], separator))
    && if first && |r| > 1 then |r| == 2 else Part(r[|r| - 1], separator)
  }

  // splitQuoted: at every bare separator, or only the first; none when a quote
  // is left open.
  method SplitQuoted(value: string, separator: char, first: bool) returns (r: Option<seq<string>>)
    requires separator != '"'
    ensures r.Some? ==> Parts(r.value, value, separator, first)
    ensures r.None? ==> !Balanced(value) && (first ==> NoBare(value, separator))
  {
    hide Parts, Part, Balanced, NoBare, Rejoined, Quotes;
    var quoted, start, i := false, 0, 0;
    var parts: seq<string> := [];
    NothingCut(value, separator);
    while i < |value|
      invariant start <= i <= |value| && Scanned(value[start..i], quoted, separator)
      invariant CutSoFar(value, parts, start, separator) && (first ==> parts == [])
    {
      var c := value[i];
      assert value[start..i + 1] == value[start..i] + [c];
      ScanNext(value[start..i], c, quoted, separator);
      if c == '"' {
        quoted := !quoted;
      }
      if c == separator && !quoted {
        CutNext(value, parts, start, i, separator);
        parts := parts + [value[start..i]];
        start := i + 1;
        i := i + 1;
        if first {
          FirstCut(value, parts, start, separator);
          return Some(parts + [value[start..]]);
        }
        assert value[start..i] == "";
        NothingScanned(separator);
      } else {
        i := i + 1;
      }
    }
    assert value[start..i] == value[start..];
    if quoted {
      LeftOpen(value, parts, start, separator);
      return None;
    }
    LastCut(value, parts, start, separator, first);
    r := Some(parts + [value[start..]]);
  }

  ghost predicate Scanned(part: string, quoted: bool, separator: char) {
    quoted == !Balanced(part) && NoBare(part, separator)
  }

  ghost predicate CutSoFar(value: string, parts: seq<string>, start: nat, separator: char) {
    && start <= |value| && Balanced(value[..start])
    && (if parts == [] then start == 0 else start > 0 && Rejoined(parts, separator) + [separator] == value[..start])
    && forall k | 0 <= k < |parts| :: Part(parts[k], separator)
  }

  lemma NothingCut(value: string, separator: char)
    ensures CutSoFar(value, [], 0, separator) && Scanned(value[0..0], false, separator)
  {
  }

  lemma NothingScanned(separator: char)
    ensures Scanned("", false, separator)
  {
  }

  lemma ScanNext(part: string, c: char, quoted: bool, separator: char)
    requires Scanned(part, quoted, separator) && separator != '"'
    ensures var now := if c == '"' then !quoted else quoted;
            if c == separator && !now then Part(part, separator) else Scanned(part + [c], now, separator)
  {
    var more := part + [c];
    assert more[..|more| - 1] == part;
    if c != separator || quoted {
      forall k | 0 <= k < |more| && more[k] == separator ensures !Balanced(more[..k]) {
        if k < |part| {
          assert more[..k] == part[..k] && part[k] == separator;
        } else {
          assert more[..k] == part;
        }
      }
    }
  }

  lemma CutNext(value: string, parts: seq<string>, start: nat, i: nat, separator: char)
    requires CutSoFar(value, parts, start, separator) && start <= i < |value| && separator != '"'
    requires value[i] == separator && Part(value[start..i], separator)
    ensures CutSoFar(value, parts + [value[start..i]], i + 1, separator)
  {
    hide NoBare;
    var part := value[start..i];
    assert value[..i] == value[..start] + part && value[..i + 1] == value[..i] + [separator];
    QuotesAppend(value[..start], part);
    assert value[..i + 1][..i] == value[..i];
    var all := parts + [part];
    assert all[..|parts|] == parts;
  }

  lemma FirstCut(value: string, parts: seq<string>, start: nat, separator: char)
    requires CutSoFar(value, parts, start, separator) && |parts| == 1
    ensures Parts(parts + [value[start..]], value, separator, true)
  {
    hide Part, Balanced;
    Rest(value, parts, start, separator);
  }

  lemma LastCut(value: string, parts: seq<string>, start: nat, separator: char, first: bool)
    requires CutSoFar(value, parts, start, separator) && Scanned(value[start..], false, separator) && (first ==> parts == [])
    ensures Parts(parts + [value[start..]], value, separator, first)
  {
    hide Balanced, NoBare, Rejoined;
    Rest(value, parts, start, separator);
  }

  lemma LeftOpen(value: string, parts: seq<string>, start: nat, separator: char)
    requires CutSoFar(value, parts, start, separator) && Scanned(value[start..], true, separator)
    ensures !Balanced(value) && (parts == [] ==> NoBare(value, separator))
  {
    assert value == value[..start] + value[start..];
    QuotesAppend(value[..start], value[start..]);
    if parts == [] {
      assert value[start..] == value;
    }
  }

  lemma Rest(value: string, parts: seq<string>, start: nat, separator: char)
    requires CutSoFar(value, parts, start, separator)
    ensures Rejoined(parts + [value[start..]], separator) == value
  {
    var all := parts + [value[start..]];
    assert all[..|all| - 1] == parts;
    assert value == value[..start] + value[start..];
  }

  lemma Longer(a: string, b: string, head: string, value: string, separator: char)
    requires a + [separator] + b == head + [separator] + value && |a| > |head| && Balanced(head)
    ensures !NoBare(a, separator)
  {
    var line := a + [separator] + b;
    assert line[|head|] == a[|head|] == separator;
    assert line[..|head|] == a[..|head|] == head;
  }

  // A head in which nothing is cut, its separator, and any value.
  lemma HeadAndValue(r: seq<string>, head: string, value: string, separator: char)
    requires separator != '"' && Part(head, separator)
    requires Parts(r, head + [separator] + value, separator, true)
    ensures r == [head, value]
  {
    hide Balanced;
    var line := head + [separator] + value;
    assert line[..|head|] == head && line[|head|] == separator && line[|head| + 1..] == value;
    assert !NoBare(line, separator);
    assert |r| == 2;
    assert r[..1][0] == r[0] && Rejoined(r[..1], separator) == r[0];
    assert line == r[0] + [separator] + r[1];
    if |r[0]| < |head| {
      Longer(head, value, r[0], r[1], separator);
    } else if |r[0]| > |head| {
      Longer(r[0], r[1], head, value, separator);
    }
    assert r[0] == line[..|r[0]|] && r[1] == line[|r[0]| + 1..];
  }

  // ---- The whole path of a quoted-printable property ----

  // A property whose head names the encoding, written over as many softly
  // broken lines as one likes, is read back as its text.
  lemma WrittenPropertyIsRead(w: Written, head: string, ts: seq<Token>, s: string, utf8: char -> seq<Byte>, decode: seq<Byte> -> Option<string>)
    requires DecodesUtf8(utf8, decode) && AllValid(ts) && BytesOf(ts, utf8) == Encode(s, utf8)
    requires head != "" && !Blank(head[0]) && Part(head, ':') && Logical(w.first, w.rest) == head + ":" + TextOf(ts)
    requires IsQP(w.first) && forall p | p in w.rest :: p.join.Soft?
    requires w.rest != [] ==> w.rest[|w.rest| - 1].text != ""
    ensures ProperLine(w)
    ensures Unfolded(NonEmpty(Raws(w.first, w.rest))) == [head + ":" + TextOf(ts)]
    ensures forall r | Parts(r, head + [':'] + TextOf(ts), ':', true) :: r == [head, TextOf(ts)]
    ensures DecodedQP(TextOf(ts), utf8, decode) == Some(WithoutBom(s))
  {
    hide Part, Parts, DecodedQP, DecodesUtf8, BytesOf, Encode, TextOf, IsQP, AllValid;
    var line := head + ":" + TextOf(ts);
    SplitsAtHead(head, TextOf(ts));
    DecodesWhatWasEncoded(ts, s, utf8, decode);
    TextDoesNotEndInEq(ts);
    PropertyIsProper(w, head, TextOf(ts));
    OneLineUnfolds(w, line);
  }

  lemma SplitsAtHead(head: string, value: string)
    requires Part(head, ':')
    ensures forall r | Parts(r, head + [':'] + value, ':', true) :: r == [head, value]
  {
    hide Part, Parts;
    forall r | Parts(r, head + [':'] + value, ':', true) ensures r == [head, value] {
      HeadAndValue(r, head, value, ':');
    }
  }

  lemma PropertyIsProper(w: Written, head: string, value: string)
    requires head != "" && !Blank(head[0]) && Logical(w.first, w.rest) == head + ":" + value && !EndsEq(value)
    requires IsQP(w.first) && forall p | p in w.rest :: p.join.Soft?
    requires w.rest != [] ==> w.rest[|w.rest| - 1].text != ""
    ensures ProperLine(w)
  {
    hide IsQP, ProperLine;
    var line := head + ":" + value;
    assert line[0] == head[0];
    assert !EndsEq(line) by {
      if value != "" { assert line[|line| - 1] == value[|value| - 1]; } else { assert line[|line| - 1] == ':'; }
    }
    LogicalStarts(w.first, w.rest);
    LogicalEnds(w.first, w.rest);
    IsQPIsNotEmpty(w.first);
    SoftBreaksAreProper(w);
  }

  lemma OneLineUnfolds(w: Written, line: string)
    requires ProperLine(w) && Logical(w.first, w.rest) == line
    ensures Unfolded(NonEmpty(Raws(w.first, w.rest))) == [line]
  {
    hide ProperLine, Raws, Run;
    var doc := [w];
    assert doc[1..] == [] && RawsOf(doc) == Raws(w.first, w.rest) + RawsOf([]) && LogicalOf(doc) == [line] + LogicalOf([]);
    assert Raws(w.first, w.rest) + [] == Raws(w.first, w.rest) && [line] + [] == [line] && [] + [line] == [line];
    DocRead(START, doc);
  }

  lemma IsQPIsNotEmpty(s: string)
    requires IsQP(s)
    ensures s != ""
  {
  }

  lemma {:induction false} TextDoesNotEndInEq(ts: seq<Token>)
    requires AllValid(ts)
    ensures !EndsEq(TextOf(ts))
  {
    if ts != [] {
      assert ts[0].Valid();
      TextDoesNotEndInEq(ts[1..]);
      if ts[1..] == [] {
        assert TextOf(ts) == ts[0].Text();
      } else {
        assert ts[1].Text() != "" && TextOf(ts[1..]) != "";
      }
    }
  }

  // A joined line ends with its last piece.
  lemma {:induction false} LogicalEnds(lead: string, rest: seq<Piece>)
    ensures var last := if rest == [] then lead else rest[|rest| - 1].text; last != "" ==> EndsEq(Logical(lead, rest)) == EndsEq(last)
    decreases |rest|
  {
    if rest != [] {
      LogicalEnds(lead + rest[0].text, rest[1..]);
    }
  }
}
