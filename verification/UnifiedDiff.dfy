/** Reading Git's zero-context diff.  Lines are byte strings: every char stands for one byte.
    The parser is proved against a renderer of diffs: what is rendered is read back as exactly
    the new-side lines of each inventory path. */
module UnifiedDiff {
  import Utf8
  import opened Wrappers

  type Line = string
  /** A normalised relative path, as its components. */
  type Path = seq<string>
  type ChangedLines = map<Path, set<nat>>

  const USIZE_MAX: nat := 0xFFFF_FFFF_FFFF_FFFF

  predicate WellFormedUtf8(s: string) {
    (forall i :: 0 <= i < |s| ==> s[i] < 256 as char) &&
    Utf8.Utf8From(seq(|s|, i requires 0 <= i < |s| && s[i] < 256 as char => s[i] as int), 0)
  }

  // ---------- numbers ----------

  predicate Digit(c: char) { '0' <= c <= '9' }

  function DigitValue(c: char): nat requires Digit(c) { (c as int) - ('0' as int) }

  /** A decimal number of digits only, most significant first. */
  function ParseDigits(s: string): Option<nat> {
    if s == "" then Some(0)
    else
      var high := ParseDigits(s[..|s| - 1]);
      if high.Some? && Digit(s[|s| - 1]) then Some(10 * high.value + DigitValue(s[|s| - 1])) else None
  }

  /** `usize::from_str`: an optional plus sign, at least one digit, no overflow. */
  function ParseUsize(s: string): Option<nat> {
    var digits := if s != "" && s[0] == '+' then s[1..] else s;
    var n := ParseDigits(digits);
    if digits != "" && n.Some? && n.value <= USIZE_MAX then n else None
  }

  function Decimal(n: nat): (s: string)
    ensures s != "" && forall i :: 0 <= i < |s| ==> Digit(s[i])
  {
    if n < 10 then [(('0' as int) + n) as char] else Decimal(n / 10) + [(('0' as int) + n % 10) as char]
  }

  lemma {:induction false} ParseDecimal(n: nat)
    ensures ParseDigits(Decimal(n)) == Some(n)
  {
    var s := Decimal(n);
    if n < 10 {
      assert ParseDigits(s[..0]) == Some(0);
    } else {
      ParseDecimal(n / 10);
      assert s[..|s| - 1] == Decimal(n / 10);
    }
  }

  // ---------- splitting ----------

  function IndexOf(s: string, c: char): (i: nat)
    ensures i <= |s|
    ensures forall k :: 0 <= k < i ==> s[k] != c
    ensures i < |s| ==> s[i] == c
  {
    if s == "" || s[0] == c then 0 else 1 + IndexOf(s[1..], c)
  }

  /** Where the pattern first occurs, or the length. */
  function Find(s: string, pattern: string): (i: nat)
    ensures i <= |s|
    decreases |s|
  {
    if s == "" || pattern <= s then 0 else 1 + Find(s[1..], pattern)
  }

  predicate Space(c: char) {
    c == ' ' || (9 as char <= c <= 13 as char)
  }

  /** The bytes of the white space character at the start, Unicode's wider ones included, or 0. */
  function SpaceLength(s: string): (n: nat)
    ensures n <= |s|
  {
    if s == "" then 0
    else if Space(s[0]) then 1
    else if |s| >= 2 && s[0] == 0xC2 as char && (s[1] == 0x85 as char || s[1] == 0xA0 as char) then 2
    else if |s| >= 3 && WideSpace(s[0], s[1], s[2]) then 3
    else 0
  }

  /** U+1680, U+2000 to U+200A, U+2028, U+2029, U+202F, U+205F and U+3000 in UTF-8. */
  predicate WideSpace(a: char, b: char, c: char) {
    || (a == 0xE1 as char && b == 0x9A as char && c == 0x80 as char)
    || (a == 0xE2 as char && b == 0x80 as char &&
        (0x80 as char <= c <= 0x8A as char || c == 0xA8 as char || c == 0xA9 as char || c == 0xAF as char))
    || (a == 0xE2 as char && b == 0x81 as char && c == 0x9F as char)
    || (a == 0xE3 as char && b == 0x80 as char && c == 0x80 as char)
  }

  function WordEnd(s: string): (i: nat)
    ensures i <= |s|
    ensures s != "" && SpaceLength(s) == 0 ==> i > 0
  {
    if s == "" || SpaceLength(s) > 0 then 0 else 1 + WordEnd(s[1..])
  }

  function SplitWhitespace(s: string): seq<string>
    decreases |s|
  {
    if s == "" then []
    else if SpaceLength(s) > 0 then SplitWhitespace(s[SpaceLength(s)..])
    else [s[..WordEnd(s)]] + SplitWhitespace(s[WordEnd(s)..])
  }

  function SplitOn(s: string, c: char): (parts: seq<string>)
    ensures parts != []
    decreases |s|
  {
    var i := IndexOf(s, c);
    if i == |s| then [s] else [s[..i]] + SplitOn(s[i + 1..], c)
  }

  // ---------- paths ----------

  /** Components without the ones that name the directory they are in. */
  function Components(parts: seq<string>): Result<Path> {
    if parts == [] then Ok([])
    else if parts[0] == ".." then Err
    else
      var rest :- Components(parts[1..]);
      Ok(if parts[0] == "" || parts[0] == "." then rest else [parts[0]] + rest)
  }

  function NormalizePath(raw: string): Result<Path> {
    if raw == "" || raw[0] == '/' then Err
    else
      var path :- Components(SplitOn(raw, '/'));
      if path == [] then Err else Ok(path)
  }

  // ---------- quoted paths ----------

  function SimpleEscape(c: char): Option<char> {
    match c
    case '"' => Some('"')
    case '\\' => Some('\\')
    case 'a' => Some(7 as char)
    case 'b' => Some(8 as char)
    case 't' => Some(9 as char)
    case 'n' => Some(10 as char)
    case 'v' => Some(11 as char)
    case 'f' => Some(12 as char)
    case 'r' => Some(13 as char)
    case _ => None
  }

  predicate Octal(c: char) { '0' <= c <= '7' }

  /** Up to `left` octal digits from `index` on; more than a byte is an error. */
  function DecodeOctal(bytes: string, index: nat, left: nat, value: nat): (r: Result<(char, nat)>)
    requires index <= |bytes| && value < 256
    ensures r.Ok? ==> index <= r.value.1 <= |bytes|
    ensures r.Ok? && left > 0 && index < |bytes| && Octal(bytes[index]) ==> r.value.1 > index
    decreases left
  {
    if left == 0 || index == |bytes| || !Octal(bytes[index]) then Ok((value as char, index))
    else
      var next := value * 8 + (bytes[index] as int) - ('0' as int);
      if next >= 256 then Err else DecodeOctal(bytes, index + 1, left - 1, next)
  }

  /** The byte that an escape stands for and where the escape ends. */
  function DecodeEscape(bytes: string, slash: nat): (r: Result<(char, nat)>)
    requires slash < |bytes|
    ensures r.Ok? ==> slash < r.value.1 <= |bytes|
  {
    if slash + 1 == |bytes| then Err
    else if SimpleEscape(bytes[slash + 1]).Some? then Ok((SimpleEscape(bytes[slash + 1]).value, slash + 2))
    else if !Octal(bytes[slash + 1]) then Err
    else DecodeOctal(bytes, slash + 1, 3, 0)
  }

  /** The content up to the closing quote and where it ends. */
  function DecodeFrom(bytes: string, index: nat): Result<(string, nat)>
    requires index <= |bytes|
    decreases |bytes| - index
  {
    if index == |bytes| then Err
    else if bytes[index] == '"' then Ok(("", index + 1))
    else
      var (c, next) :- if bytes[index] == '\\' then DecodeEscape(bytes, index) else Ok((bytes[index], index + 1));
      var (rest, end) :- DecodeFrom(bytes, next);
      Ok(([c] + rest, end))
  }

  /** The loop of the decoder, over an index and an output buffer. */
  method DecodeQuotedPath(input: string) returns (r: Result<(string, nat)>)
    requires input != "" && input[0] == '"'
    ensures r == match DecodeFrom(input, 1)
                 case Ok((text, end)) => if WellFormedUtf8(text) then Ok((text, end)) else Err
                 case Err => Err
  {
    var output, index := "", 1;
    assert DecodeFrom(input, 1).Ok? ==> "" + DecodeFrom(input, 1).value.0 == DecodeFrom(input, 1).value.0;
    while index < |input|
      invariant 1 <= index <= |input|
      invariant DecodeFrom(input, 1) == match DecodeFrom(input, index)
                                        case Ok((text, end)) => Ok((output + text, end))
                                        case Err => Err
    {
      if input[index] == '"' {
        assert output + "" == output;
        return if WellFormedUtf8(output) then Ok((output, index + 1)) else Err;
      }
      var byte, next := input[index], index + 1;
      if input[index] == '\\' {
        var escape := DecodeEscape(input, index);
        if escape.Err? {
          return Err;
        }
        byte, next := escape.value.0, escape.value.1;
      }
      ghost var rest := DecodeFrom(input, next);
      assert rest.Ok? ==> output + ([byte] + rest.value.0) == output + [byte] + rest.value.0;
      output, index := output + [byte], next;
    }
    return Err;
  }

  function DecodedPath(input: string): Result<(string, nat)>
    requires input != "" && input[0] == '"'
  {
    var (text, end) :- DecodeFrom(input, 1);
    if WellFormedUtf8(text) then Ok((text, end)) else Err
  }

  /** The path after `--- ` or `+++ `; nothing for `/dev/null`. */
  function ParseDiffPath(rest: string, prefix: string): Result<Option<Path>> {
    var token :-
      if rest != "" && rest[0] == '"' then
        var (text, end) :- DecodedPath(rest);
        if end <= |rest| && (rest[end..] == "" || rest[end..] == "\t") then Ok(text) else Err
      else Ok(if rest != "" && rest[|rest| - 1] == '\t' then rest[..|rest| - 1] else rest);
    if token == "/dev/null" then Ok(None)
    else if !(prefix <= token) then Err
    else
      var path :- NormalizePath(token[|prefix|..]);
      Ok(Some(path))
  }

  // ---------- hunk headers ----------

  function ParseRange(value: string): Option<(nat, nat)> {
    var comma := IndexOf(value, ',');
    var start := ParseUsize(value[..comma]);
    var count := if comma == |value| then Some(1) else ParseUsize(value[comma + 1..]);
    if start.Some? && count.Some? then Some((start.value, count.value)) else None
  }

  function ParseHunkHeader(line: Line): Result<(nat, nat)> {
    if !("@@ " <= line) then Err
    else
      var body := line[3..];
      var end := Find(body, " @@");
      if end == |body| then Err
      else
        var ranges := SplitWhitespace(body[..end]);
        if |ranges| != 2 || !("-" <= ranges[0]) || !("+" <= ranges[1]) || ParseRange(ranges[0][1..]).None? then Err
        else
          var new_ := ParseRange(ranges[1][1..]);
          if new_.Some? then Ok(new_.value) else Err
  }

  function AddHunkLines(lines: ChangedLines, path: Path, start: nat, count: nat): Result<ChangedLines> {
    if count == 0 then Ok(lines)
    else if start == 0 || start + (count - 1) > USIZE_MAX then Err
    else
      var before := if path in lines then lines[path] else {};
      Ok(lines[path := before + NumberRange(start, count)])
  }

  function NumberRange(start: nat, count: nat): (r: set<nat>)
    ensures forall n: nat :: n in r <==> start <= n < start + count
  {
    if count == 0 then {} else NumberRange(start, count - 1) + {start + count - 1}
  }

  // ---------- the parser ----------

  datatype Parser = Parser(oldPath: Option<Path>, newPath: Option<Path>, inHunk: bool, lines: ChangedLines)

  const EMPTY := Parser(None, None, false, map[])

  const DIFF := "diff --git "
  const OLD := "--- "
  const NEW := "+++ "

  /** What one line does to the parser. */
  function Consumed(p: Parser, line: Line, inventory: Path -> bool): Result<Parser> {
    if DIFF <= line then Ok(Parser(None, None, false, p.lines))
    else if !p.inHunk && OLD <= line then
      var path :- ParseDiffPath(line[4..], "a/");
      Ok(p.(oldPath := path))
    else if !p.inHunk && NEW <= line then
      var path :- ParseDiffPath(line[4..], "b/");
      Ok(p.(newPath := path))
    else if "@@" <= line then
      var (start, count) :- ParseHunkHeader(line);
      var path := if p.newPath.Some? then p.newPath else p.oldPath;
      if path.None? then Err
      else if !inventory(path.value) then Ok(p.(inHunk := true))
      else
        var lines :- AddHunkLines(p.lines, path.value, start, count);
        Ok(p.(inHunk := true, lines := lines))
    else Ok(p)
  }

  function ConsumedAll(p: Parser, lines: seq<Line>, inventory: Path -> bool): Result<Parser>
    decreases |lines|
  {
    if lines == [] then Ok(p)
    else
      var next :- Consumed(p, lines[0], inventory);
      ConsumedAll(next, lines[1..], inventory)
  }

  class DiffParser {
    var oldPath: Option<Path>
    var newPath: Option<Path>
    var inHunk: bool
    var lines: ChangedLines

    ghost function Value(): Parser
      reads this
    {
      Parser(oldPath, newPath, inHunk, lines)
    }

    constructor ()
      ensures Value() == EMPTY
    {
      oldPath, newPath, inHunk, lines := None, None, false, map[];
    }

    method Consume(line: Line, inventory: Path -> bool) returns (ok: bool)
      modifies this
      ensures ok <==> Consumed(old(Value()), line, inventory).Ok?
      ensures ok ==> Value() == Consumed(old(Value()), line, inventory).value
    {
      if DIFF <= line {
        oldPath, newPath, inHunk := None, None, false;
        return true;
      }
      if !inHunk {
        if OLD <= line {
          var path := ParseDiffPath(line[4..], "a/");
          if path.Err? { return false; }
          oldPath := path.value;
          return true;
        }
        if NEW <= line {
          var path := ParseDiffPath(line[4..], "b/");
          if path.Err? { return false; }
          newPath := path.value;
          return true;
        }
      }
      if "@@" <= line {
        var header := ParseHunkHeader(line);
        if header.Err? { return false; }
        var path := if newPath.Some? then newPath else oldPath;
        if path.None? { return false; }
        inHunk := true;
        if inventory(path.value) {
          var added := AddHunkLines(lines, path.value, header.value.0, header.value.1);
          if added.Err? { return false; }
          lines := added.value;
        }
      }
      return true;
    }
  }

  method ParseDiff(output: string, inventory: Path -> bool) returns (r: Result<ChangedLines>)
    ensures r == Parsed(output, inventory)
  {
    if !WellFormedUtf8(output) {
      return Err;
    }
    var parser := new DiffParser();
    var lines := SplitOn(output, '\n');
    for i := 0 to |lines|
      invariant fresh(parser)
      invariant ConsumedAll(parser.Value(), lines[i..], inventory) == ConsumedAll(EMPTY, lines, inventory)
    {
      assert lines[i..][1..] == lines[i + 1..];
      var ok := parser.Consume(lines[i], inventory);
      if !ok {
        return Err;
      }
    }
    return Ok(parser.lines);
  }

  function Parsed(output: string, inventory: Path -> bool): Result<ChangedLines> {
    if !WellFormedUtf8(output) then Err
    else
      var parser :- ConsumedAll(EMPTY, SplitOn(output, '\n'), inventory);
      Ok(parser.lines)
  }
}
