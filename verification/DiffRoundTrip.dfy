/** Rendering a zero-context diff as Git does, and reading it back. */
module DiffRoundTrip {
  import opened UnifiedDiff
  import opened Wrappers

  // ---------- splitting undoes joining ----------

  ghost predicate Free(s: string, c: char) {
    forall i :: 0 <= i < |s| ==> s[i] != c
  }

  function JoinWith(parts: seq<string>, c: char): string
    requires parts != []
  {
    if |parts| == 1 then parts[0] else parts[0] + [c] + JoinWith(parts[1..], c)
  }

  lemma {:induction false} IndexAfterFree(a: string, c: char, b: string)
    requires Free(a, c)
    ensures IndexOf(a + [c] + b, c) == |a|
  {
    var s := a + [c] + b;
    if a != "" {
      IndexAfterFree(a[1..], c, b);
      assert s[1..] == a[1..] + [c] + b;
      assert a[0] != c;
    }
  }

  lemma {:induction false} IndexInFree(a: string, c: char)
    requires Free(a, c)
    ensures IndexOf(a, c) == |a|
  {
  }

  lemma {:induction false} SplitUndoesJoin(parts: seq<string>, c: char)
    requires parts != [] && forall i :: 0 <= i < |parts| ==> Free(parts[i], c)
    ensures SplitOn(JoinWith(parts, c), c) == parts
  {
    assert Free(parts[0], c);
    if |parts| == 1 {
      IndexInFree(parts[0], c);
    } else {
      var rest := JoinWith(parts[1..], c);
      SplitUndoesJoin(parts[1..], c);
      IndexAfterFree(parts[0], c, rest);
      var s := parts[0] + [c] + rest;
      assert s[..|parts[0]|] == parts[0] && s[|parts[0]| + 1..] == rest;
    }
  }

  // ---------- paths ----------

  ghost predicate Component(s: string) {
    s != "" && s != "." && s != ".." && Free(s, '/')
  }

  ghost predicate Relative(path: Path) {
    path != [] && forall i :: 0 <= i < |path| ==> Component(path[i])
  }

  function Raw(path: Path): string
    requires path != []
  {
    JoinWith(path, '/')
  }

  lemma {:induction false} ComponentsOfNormal(path: Path)
    requires forall i :: 0 <= i < |path| ==> Component(path[i])
    ensures Components(path) == Ok(path)
  {
    if path != [] {
      ComponentsOfNormal(path[1..]);
      assert Component(path[0]);
      assert [path[0]] + path[1..] == path;
    }
  }

  /** Normalising undoes joining for relative paths in normal form. */
  lemma NormalizeUndoesRaw(path: Path)
    requires Relative(path)
    ensures NormalizePath(Raw(path)) == Ok(path)
  {
    assert Component(path[0]);
    SplitUndoesJoin(path, '/');
    ComponentsOfNormal(path);
    assert Raw(path)[0] == path[0][0];
  }

  // ---------- quoted paths ----------

  function OctalDigit(n: nat): char
    requires n < 8
  {
    (('0' as int) + n) as char
  }

  /** Git's C-style quoting of one byte; bytes above 127 are escaped unless `keepHigh` is set. */
  function EncodeByte(b: char, keepHigh: bool): string
    requires b < 256 as char
  {
    if b == '"' then "\\\""
    else if b == '\\' then "\\\\"
    else if b == 7 as char then "\\a"
    else if b == 8 as char then "\\b"
    else if b == 9 as char then "\\t"
    else if b == 10 as char then "\\n"
    else if b == 11 as char then "\\v"
    else if b == 12 as char then "\\f"
    else if b == 13 as char then "\\r"
    else if b < ' ' || b == 127 as char || (b > 127 as char && !keepHigh) then
      ['\\', OctalDigit((b as int) / 64), OctalDigit((b as int) / 8 % 8), OctalDigit((b as int) % 8)]
    else [b]
  }

  predicate Bytes(s: string) {
    forall i :: 0 <= i < |s| ==> s[i] < 256 as char
  }

  function Encode(s: string, keepHigh: bool): string
    requires Bytes(s)
  {
    if s == "" then "" else EncodeByte(s[0], keepHigh) + Encode(s[1..], keepHigh)
  }

  lemma DecodeOctalDigits(bytes: string, at: nat, b: nat)
    requires b < 256 && at + 3 <= |bytes|
    requires bytes[at] == OctalDigit(b / 64) && bytes[at + 1] == OctalDigit(b / 8 % 8) &&
             bytes[at + 2] == OctalDigit(b % 8)
    ensures DecodeOctal(bytes, at, 3, 0) == Ok((b as char, at + 3))
  {
  }

  /** At `at` the decoder reads the byte `b` and goes on at `next`. */
  predicate Reads(bytes: string, at: nat, b: char, next: nat) {
    && at < next <= |bytes| && bytes[at] != '"'
    && (if bytes[at] == '\\' then DecodeEscape(bytes, at) else Ok((bytes[at], at + 1))) == Ok((b, next))
  }

  /** The decoder reads one encoded byte as that byte. */
  lemma DecodeOneByte(bytes: string, at: nat, b: char, keepHigh: bool)
    requires b < 256 as char && at <= |bytes| && EncodeByte(b, keepHigh) <= bytes[at..]
    ensures Reads(bytes, at, b, at + |EncodeByte(b, keepHigh)|)
  {
    var e := EncodeByte(b, keepHigh);
    assert forall i :: 0 <= i < |e| ==> bytes[at..][i] == e[i];
    assert bytes[at] == e[0];
    if |e| > 1 {
      assert bytes[at + 1] == e[1];
    }
    if |e| == 4 {
      assert bytes[at + 2] == e[2] && bytes[at + 3] == e[3];
      DecodeOctalDigits(bytes, at + 1, b as int);
    }
  }

  lemma PrefixSplits(a: string, b: string, s: string)
    requires a + b <= s
    ensures a <= s && b <= s[|a|..]
  {
  }

  /** The code of a string stands at `at`, and its closing quote ends at `end`. */
  ghost predicate EncodedAt(bytes: string, at: nat, s: string, keepHigh: bool, end: nat) {
    && Bytes(s) && at <= |bytes| && Encode(s, keepHigh) + "\"" <= bytes[at..]
    && end == at + |Encode(s, keepHigh)| + 1
  }

  ghost predicate DecodesTo(bytes: string, at: nat, s: string, end: nat) {
    at <= |bytes| && DecodeFrom(bytes, at) == Ok((s, end))
  }

  lemma DecodeStep(bytes: string, at: nat, s: string, next: nat, end: nat)
    requires s != "" && Reads(bytes, at, s[0], next) && DecodesTo(bytes, next, s[1..], end)
    ensures DecodesTo(bytes, at, s, end)
  {
    assert [s[0]] + s[1..] == s;
  }

  lemma ReadEncoded(bytes: string, at: nat, s: string, keepHigh: bool, end: nat) returns (next: nat)
    requires s != "" && EncodedAt(bytes, at, s, keepHigh, end)
    ensures Reads(bytes, at, s[0], next) && EncodedAt(bytes, next, s[1..], keepHigh, end)
  {
    hide EncodeByte, DecodeEscape, OctalDigit, Reads;
    var first, others := EncodeByte(s[0], keepHigh), Encode(s[1..], keepHigh);
    assert Encode(s, keepHigh) + "\"" == first + (others + "\"");
    PrefixSplits(first, others + "\"", bytes[at..]);
    next := at + |first|;
    assert bytes[at..][|first|..] == bytes[next..];
    DecodeOneByte(bytes, at, s[0], keepHigh);
  }

  lemma DecodeNothing(bytes: string, at: nat, keepHigh: bool, end: nat)
    requires EncodedAt(bytes, at, "", keepHigh, end)
    ensures DecodesTo(bytes, at, "", end)
  {
    assert Encode("", keepHigh) + "\"" == "\"";
    assert bytes[at..][0] == '"' && bytes[at] == '"';
  }

  /** Decoding inverts encoding byte for byte and stops right after the closing quote. */
  lemma {:induction false} DecodeInvertsEncode(bytes: string, at: nat, s: string, keepHigh: bool, end: nat)
    requires EncodedAt(bytes, at, s, keepHigh, end)
    ensures DecodesTo(bytes, at, s, end)
    decreases |s|
  {
    hide EncodedAt, DecodesTo, Reads;
    if s == "" {
      DecodeNothing(bytes, at, keepHigh, end);
    } else {
      var next := ReadEncoded(bytes, at, s, keepHigh, end);
      DecodeInvertsEncode(bytes, next, s[1..], keepHigh, end);
      DecodeStep(bytes, at, s, next, end);
    }
  }

  // ---------- path lines ----------

  /** One side of a file in a diff: absent, plain, or quoted; Git may end the line with a tab. */
  datatype Side =
    | Absent
    | Plain(path: Path, tab: bool)
    | Quoted(path: Path, keepHigh: bool, tab: bool)

  /** A side that Git can render: a plain path holds no line feed and does not end in a lone tab;
      a quoted path is UTF-8, as the parser demands. */
  ghost predicate Renderable(side: Side, prefix: string) {
    match side
    case Absent => true
    case Plain(path, tab) => Relative(path) && Free(Raw(path), '\n') && (tab || Raw(path)[|Raw(path)| - 1] != '\t')
    case Quoted(path, _, _) => Relative(path) && Bytes(Raw(path)) && WellFormedUtf8(prefix + Raw(path))
  }

  function RenderSide(side: Side, prefix: string): string
    requires side.Absent? || side.path != []
    requires side.Quoted? ==> Bytes(prefix + Raw(side.path))
  {
    match side
    case Absent => "/dev/null"
    case Plain(path, tab) => prefix + Raw(path) + if tab then "\t" else ""
    case Quoted(path, keepHigh, tab) => "\"" + Encode(prefix + Raw(path), keepHigh) + "\"" + if tab then "\t" else ""
  }

  function PathOf(side: Side): Option<Path> {
    if side.Absent? then None else Some(side.path)
  }

  lemma RawIsNotEmpty(path: Path)
    requires Relative(path)
    ensures Raw(path) != ""
  {
  }

  lemma ParsePlainSide(path: Path, tab: bool, prefix: string)
    requires Renderable(Plain(path, tab), prefix) && (prefix == "a/" || prefix == "b/")
    ensures ParseDiffPath(RenderSide(Plain(path, tab), prefix), prefix) == Ok(Some(path))
  {
    RawIsNotEmpty(path);
    PrefixedToken(path, prefix);
    var token := prefix + Raw(path);
    var rest := RenderSide(Plain(path, tab), prefix);
    assert rest[0] == prefix[0];
    if tab {
      assert rest[..|rest| - 1] == token && rest[|rest| - 1] == '\t';
    } else {
      assert rest == token && token[|token| - 1] == Raw(path)[|Raw(path)| - 1];
    }
  }

  lemma DecodeQuotedToken(token: string, keepHigh: bool, tail: string)
    requires Bytes(token) && WellFormedUtf8(token)
    ensures var code := "\"" + Encode(token, keepHigh) + "\"";
            DecodedPath(code + tail) == Ok((token, |code|)) && (code + tail)[|code|..] == tail
  {
    var inner := Encode(token, keepHigh) + "\"";
    var code := "\"" + Encode(token, keepHigh) + "\"";
    assert code + tail == "\"" + (inner + tail);
    assert (code + tail)[1..] == inner + tail;
    assert inner <= (code + tail)[1..];
    DecodeInvertsEncode(code + tail, 1, token, keepHigh, |code|);
  }

  lemma PrefixedToken(path: Path, prefix: string)
    requires Relative(path) && (prefix == "a/" || prefix == "b/")
    ensures var token := prefix + Raw(path);
            token != "/dev/null" && prefix <= token && NormalizePath(token[|prefix|..]) == Ok(path)
  {
    var token := prefix + Raw(path);
    NormalizeUndoesRaw(path);
    assert token[|prefix|..] == Raw(path);
    assert token[0] == prefix[0] && "/dev/null"[0] == '/';
  }

  lemma ParseQuotedSide(path: Path, keepHigh: bool, tab: bool, prefix: string)
    requires Renderable(Quoted(path, keepHigh, tab), prefix) && (prefix == "a/" || prefix == "b/")
    ensures Bytes(prefix + Raw(path))
    ensures ParseDiffPath(RenderSide(Quoted(path, keepHigh, tab), prefix), prefix) == Ok(Some(path))
  {
    var token, tail := prefix + Raw(path), if tab then "\t" else "";
    var code := "\"" + Encode(token, keepHigh) + "\"";
    DecodeQuotedToken(token, keepHigh, tail);
    PrefixedToken(path, prefix);
    assert RenderSide(Quoted(path, keepHigh, tab), prefix) == code + tail;
    assert (code + tail)[0] == '"';
  }

  lemma SideBytes(side: Side, prefix: string)
    requires Renderable(side, prefix)
    ensures side.Absent? || side.path != []
    ensures side.Quoted? ==> Bytes(prefix + Raw(side.path))
  {
  }

  /** A rendered side is read back as its path. */
  lemma ParseSide(side: Side, prefix: string)
    requires Renderable(side, prefix) && (prefix == "a/" || prefix == "b/")
    ensures (side.Absent? || side.path != []) && (side.Quoted? ==> Bytes(prefix + Raw(side.path)))
    ensures ParseDiffPath(RenderSide(side, prefix), prefix) == Ok(PathOf(side))
  {
    match side
    case Absent =>
      var rest := "/dev/null";
      assert rest[0] == '/' && rest[|rest| - 1] == 'l';
    case Plain(path, tab) =>
      RawIsNotEmpty(path);
      ParsePlainSide(path, tab, prefix);
    case Quoted(path, keepHigh, tab) =>
      ParseQuotedSide(path, keepHigh, tab, prefix);
  }

  // ---------- hunk headers ----------

  /** A hunk: its ranges, whatever follows the header's ranges, and its body lines. */
  datatype Hunk = Hunk(oldStart: nat, oldCount: nat, newStart: nat, newCount: nat, heading: string, body: seq<Line>)

  function RenderRange(start: nat, count: nat): string {
    if count == 1 then Decimal(start) else Decimal(start) + "," + Decimal(count)
  }

  function RenderHeader(h: Hunk): Line {
    "@@ -" + RenderRange(h.oldStart, h.oldCount) + " +" + RenderRange(h.newStart, h.newCount) + " @@" + h.heading
  }

  ghost predicate Numbers(h: Hunk) {
    && h.oldStart <= USIZE_MAX && h.oldCount <= USIZE_MAX && h.newStart <= USIZE_MAX && h.newCount <= USIZE_MAX
    && (h.newCount > 0 ==> h.newStart > 0 && h.newStart + (h.newCount - 1) <= USIZE_MAX)
  }

  lemma ParseUsizeOfDecimal(n: nat)
    requires n <= USIZE_MAX
    ensures ParseUsize(Decimal(n)) == Some(n)
  {
    ParseDecimal(n);
    assert Digit(Decimal(n)[0]);
  }

  lemma DecimalIsFree(n: nat, c: char)
    requires !Digit(c)
    ensures Free(Decimal(n), c)
  {
  }

  lemma ParseRenderedRange(start: nat, count: nat)
    requires start <= USIZE_MAX && count <= USIZE_MAX
    ensures ParseRange(RenderRange(start, count)) == Some((start, count))
  {
    var value := RenderRange(start, count);
    ParseUsizeOfDecimal(start);
    ParseUsizeOfDecimal(count);
    DecimalIsFree(start, ',');
    if count == 1 {
      IndexInFree(value, ',');
      assert value[..|value|] == value;
    } else {
      IndexAfterFree(Decimal(start), ',', Decimal(count));
      var comma := |Decimal(start)|;
      assert value == Decimal(start) + [','] + Decimal(count);
      assert value[..comma] == Decimal(start) && value[comma + 1..] == Decimal(count);
    }
  }

  predicate RangeChar(c: char) { Digit(c) || c == ',' || c == '-' || c == '+' }

  lemma RangeChars(start: nat, count: nat)
    ensures forall i :: 0 <= i < |RenderRange(start, count)| ==> RangeChar(RenderRange(start, count)[i])
    ensures RenderRange(start, count) != ""
  {
  }

  lemma {:induction false} WordEndAt(a: string, b: string)
    requires forall i :: 0 <= i < |a| ==> RangeChar(a[i])
    requires b != "" ==> SpaceLength(b) > 0
    ensures WordEnd(a + b) == |a|
  {
    if a != "" {
      assert (a + b)[1..] == a[1..] + b;
      assert RangeChar(a[0]) && (a + b)[0] == a[0];
      WordEndAt(a[1..], b);
    } else {
      assert a + b == b;
    }
  }

  lemma SplitOneWord(a: string, b: string)
    requires a != "" && forall i :: 0 <= i < |a| ==> RangeChar(a[i])
    requires b != "" ==> SpaceLength(b) > 0
    ensures SplitWhitespace(a + b) == [a] + SplitWhitespace(b)
  {
    var s := a + b;
    WordEndAt(a, b);
    assert RangeChar(a[0]) && s[0] == a[0];
    assert s[..|a|] == a && s[|a|..] == b;
  }

  lemma SplitTwoWords(a: string, b: string)
    requires a != "" && b != ""
    requires forall i :: 0 <= i < |a| ==> RangeChar(a[i])
    requires forall i :: 0 <= i < |b| ==> RangeChar(b[i])
    ensures SplitWhitespace(a + " " + b) == [a, b]
  {
    var rest := " " + b;
    assert a + " " + b == a + rest && rest[0] == ' ' && rest[1..] == b;
    SplitOneWord(a, rest);
    SplitOneWord(b, "");
    assert b + "" == b && SplitWhitespace("") == [];
  }

  lemma {:induction false} FindHeaderEnd(a: string, heading: string)
    requires Free(a, '@')
    ensures Find(a + " @@" + heading, " @@") == |a|
    decreases |a|
  {
    var s := a + " @@" + heading;
    if a == "" {
      assert " @@" <= s;
    } else {
      assert s[1..] == a[1..] + " @@" + heading;
      FindHeaderEnd(a[1..], heading);
      assert s[1] == if |a| > 1 then a[1] else ' ';
    }
  }

  lemma ParseHeaderOf(oldRange: string, newRange: string, heading: string)
    requires ParseRange(oldRange).Some? && ParseRange(newRange).Some?
    requires forall i :: 0 <= i < |oldRange| ==> RangeChar(oldRange[i])
    requires forall i :: 0 <= i < |newRange| ==> RangeChar(newRange[i])
    ensures ParseHunkHeader("@@ -" + oldRange + " +" + newRange + " @@" + heading) == Ok(ParseRange(newRange).value)
  {
    var oldWord, newWord := "-" + oldRange, "+" + newRange;
    var ranges := oldWord + " " + newWord;
    var line := "@@ -" + oldRange + " +" + newRange + " @@" + heading;
    var body := ranges + " @@" + heading;
    assert line == "@@ " + body && line[3..] == body;
    HeaderBody(oldWord, newWord, heading);
    assert oldWord[1..] == oldRange && newWord[1..] == newRange;
    assert "-" <= oldWord && "+" <= newWord;
  }

  lemma HeaderBody(oldWord: string, newWord: string, heading: string)
    requires oldWord != "" && newWord != ""
    requires forall i :: 0 <= i < |oldWord| ==> RangeChar(oldWord[i])
    requires forall i :: 0 <= i < |newWord| ==> RangeChar(newWord[i])
    ensures var ranges := oldWord + " " + newWord;
            var body := ranges + " @@" + heading;
            && Find(body, " @@") == |ranges| < |body|
            && SplitWhitespace(body[..|ranges|]) == [oldWord, newWord]
  {
    var ranges := oldWord + " " + newWord;
    var body := ranges + " @@" + heading;
    assert Free(ranges, '@');
    FindHeaderEnd(ranges, heading);
    assert body[..|ranges|] == ranges;
    SplitTwoWords(oldWord, newWord);
  }

  /** A rendered hunk header is read back as its new-side range. */
  lemma ParseRenderedHeader(h: Hunk)
    requires Numbers(h)
    ensures ParseHunkHeader(RenderHeader(h)) == Ok((h.newStart, h.newCount))
  {
    RangeChars(h.oldStart, h.oldCount);
    RangeChars(h.newStart, h.newCount);
    ParseRenderedRange(h.oldStart, h.oldCount);
    ParseRenderedRange(h.newStart, h.newCount);
    ParseHeaderOf(RenderRange(h.oldStart, h.oldCount), RenderRange(h.newStart, h.newCount), h.heading);
  }
}
