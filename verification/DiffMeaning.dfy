/** What the diff parser accepts, said of the bytes themselves. */
module DiffMeaning {
  import opened UnifiedDiff
  import opened DiffRoundTrip
  import opened Utf8
  import opened Wrappers

  // ---------- escapes ----------

  /** The letters that stand for a byte behind a backslash. */
  const LETTERS: map<char, char> :=
    map['"' := '"', '\\' := '\\', 'a' := 7 as char, 'b' := 8 as char, 't' := 9 as char, 'n' := 10 as char,
        'v' := 11 as char, 'f' := 12 as char, 'r' := 13 as char]

  predicate OctalNumeral(c: char) {
    c in {'0', '1', '2', '3', '4', '5', '6', '7'}
  }

  /** The octal digits of a code: three, or fewer when no other follows. */
  predicate OctalRun(bytes: string, from: nat, n: nat) {
    && 1 <= n <= 3 && from + n <= |bytes|
    && (forall i :: from <= i < from + n ==> OctalNumeral(bytes[i]))
    && (n == 3 || from + n == |bytes| || !OctalNumeral(bytes[from + n]))
  }

  function OctalValue(digits: string): int {
    if digits == "" then 0 else 8 * OctalValue(digits[..|digits| - 1]) + (digits[|digits| - 1] as int - 48)
  }

  lemma OneDigit(bytes: string, from: nat, n: nat)
    requires n > 0 && from + n <= |bytes|
    ensures OctalValue(bytes[from..from + n]) ==
            8 * OctalValue(bytes[from..from + n - 1]) + (bytes[from + n - 1] as int - 48)
  {
    assert bytes[from..from + n][..n - 1] == bytes[from..from + n - 1];
  }

  lemma ThreeDigits(bytes: string, from: nat)
    requires from <= |bytes|
    ensures from + 1 <= |bytes| ==> OctalValue(bytes[from..from + 1]) == bytes[from] as int - 48
    ensures from + 2 <= |bytes| ==>
              OctalValue(bytes[from..from + 2]) == 8 * (bytes[from] as int - 48) + (bytes[from + 1] as int - 48)
    ensures from + 3 <= |bytes| ==>
              OctalValue(bytes[from..from + 3]) ==
              64 * (bytes[from] as int - 48) + 8 * (bytes[from + 1] as int - 48) + (bytes[from + 2] as int - 48)
  {
    assert bytes[from..from] == "";
    if from + 1 <= |bytes| { OneDigit(bytes, from, 1); }
    if from + 2 <= |bytes| { OneDigit(bytes, from, 2); }
    if from + 3 <= |bytes| { OneDigit(bytes, from, 3); }
  }

  /** The digits are read as far as they go, and stand for a byte. */
  lemma OctalTells(bytes: string, from: nat, n: nat)
    requires OctalRun(bytes, from, n)
    ensures var r := DecodeOctal(bytes, from, 3, 0);
            if OctalValue(bytes[from..from + n]) < 256
            then r.Ok? && r.value.0 as int == OctalValue(bytes[from..from + n]) && r.value.1 == from + n
            else r.Err?
  {
    ThreeDigits(bytes, from);
  }

  lemma RunExists(bytes: string, from: nat) returns (n: nat)
    requires from < |bytes| && OctalNumeral(bytes[from])
    ensures OctalRun(bytes, from, n)
  {
    n := if from + 1 == |bytes| || !OctalNumeral(bytes[from + 1]) then 1
         else if from + 2 == |bytes| || !OctalNumeral(bytes[from + 2]) then 2 else 3;
  }

  /** The octal digits at `from` end at `next` and stand for the byte `c`. */
  ghost predicate OctalCode(bytes: string, from: nat, c: char, next: nat) {
    from < next <= |bytes| && OctalRun(bytes, from, next - from) && OctalValue(bytes[from..next]) == c as int < 256
  }

  lemma LetterTells(bytes: string, slash: nat)
    requires slash + 1 < |bytes|
    ensures var x := bytes[slash + 1];
            && (x in LETTERS ==> DecodeEscape(bytes, slash) == Ok((LETTERS[x], slash + 2)) && !OctalNumeral(x))
            && (x !in LETTERS && !OctalNumeral(x) ==> DecodeEscape(bytes, slash) == Err)
            && (OctalNumeral(x) ==> DecodeEscape(bytes, slash) == DecodeOctal(bytes, slash + 1, 3, 0))
  {
    hide DecodeOctal;
  }

  /** An escape is a letter of the list, or the octal digits of a byte; anything else is an error. */
  lemma EscapeTells(bytes: string, slash: nat, c: char, next: nat)
    requires slash < |bytes|
    ensures DecodeEscape(bytes, slash) == Ok((c, next)) <==>
            && slash + 1 < |bytes|
            && ((bytes[slash + 1] in LETTERS && c == LETTERS[bytes[slash + 1]] && next == slash + 2) ||
                OctalCode(bytes, slash + 1, c, next))
  {
    if slash + 1 < |bytes| {
      LetterTells(bytes, slash);
      if OctalNumeral(bytes[slash + 1]) {
        var n := RunExists(bytes, slash + 1);
        OctalTells(bytes, slash + 1, n);
        hide OctalValue, DecodeOctal, DecodeEscape, OctalNumeral;
        OneRun(bytes, slash + 1, n, c, next);
      } else {
        NoRun(bytes, slash + 1, c, next);
      }
    }
  }

  lemma OneRun(bytes: string, from: nat, n: nat, c: char, next: nat)
    requires OctalRun(bytes, from, n)
    ensures OctalCode(bytes, from, c, next) <==> next == from + n && OctalValue(bytes[from..from + n]) == c as int < 256
  {
    hide OctalValue;
  }

  lemma NoRun(bytes: string, from: nat, c: char, next: nat)
    requires from < |bytes| && !OctalNumeral(bytes[from])
    ensures !OctalCode(bytes, from, c, next)
  {
    hide OctalValue;
  }

  // ---------- paths ----------

  lemma {:induction false} SplitIsJoined(s: string, c: char)
    ensures JoinWith(SplitOn(s, c), c) == s
    ensures forall i :: 0 <= i < |SplitOn(s, c)| ==> Free(SplitOn(s, c)[i], c)
    decreases |s|
  {
    var i := IndexOf(s, c);
    if i < |s| {
      SplitIsJoined(s[i + 1..], c);
      assert s == s[..i] + [c] + s[i + 1..];
      assert SplitOn(s, c)[1..] == SplitOn(s[i + 1..], c);
    }
  }

  lemma {:induction false} OnlyUpwardFails(parts: seq<string>)
    ensures Components(parts).Ok? <==> ".." !in parts
  {
    if parts != [] {
      OnlyUpwardFails(parts[1..]);
      assert parts == [parts[0]] + parts[1..];
    }
  }

  lemma {:induction false} NamesAreKept(parts: seq<string>, i: nat)
    requires Components(parts).Ok? && i < |parts| && parts[i] != "" && parts[i] != "."
    ensures Components(parts[..i]).Ok? && Components(parts[i + 1..]).Ok?
    ensures Components(parts).value == Components(parts[..i]).value + [parts[i]] + Components(parts[i + 1..]).value
  {
    if i > 0 {
      NamesAreKept(parts[1..], i - 1);
      assert parts[1..][..i - 1] == parts[..i][1..] && parts[1..][i..] == parts[i + 1..];
    }
  }

  lemma {:induction false} NothingIsKept(parts: seq<string>)
    requires forall i :: 0 <= i < |parts| ==> parts[i] == "" || parts[i] == "."
    ensures Components(parts) == Ok([])
  {
    if parts != [] {
      assert parts[0] == "" || parts[0] == ".";
      NothingIsKept(parts[1..]);
    }
  }

  /** A path is read from slash-separated parts, none of which leads upward; those that are empty or a single dot are
      left out, and the others kept in their order.  It is an error when it is absolute or nothing remains. */
  lemma PathTells(parts: seq<string>)
    requires parts != [] && forall i :: 0 <= i < |parts| ==> Free(parts[i], '/')
    ensures var raw := JoinWith(parts, '/');
            && (NormalizePath(raw).Ok? <==>
                && raw != "" && raw[0] != '/' && ".." !in parts
                && exists i :: 0 <= i < |parts| && parts[i] != "" && parts[i] != ".")
            && (NormalizePath(raw).Ok? ==> Components(parts).Ok? && NormalizePath(raw).value == Components(parts).value)
  {
    SplitUndoesJoin(parts, '/');
    OnlyUpwardFails(parts);
    if i :| 0 <= i < |parts| && parts[i] != "" && parts[i] != "." && ".." !in parts {
      NamesAreKept(parts, i);
    } else if ".." !in parts {
      NothingIsKept(parts);
    }
  }

  // ---------- numbers ----------

  function Zeros(n: nat): string {
    seq(n, i => '0')
  }

  lemma OneDigitIsDecimal(c: char)
    requires Digit(c)
    ensures [c] == Decimal(DigitValue(c)) && DigitValue(c) < 10
  {
  }

  lemma DecimalOfMore(high: nat, c: char)
    requires Digit(c) && high > 0
    ensures Decimal(10 * high + DigitValue(c)) == Decimal(high) + [c]
  {
  }

  lemma {:induction false} DigitsAreDecimal(s: string) returns (zeros: nat)
    requires s != "" && ParseDigits(s).Some?
    ensures s == Zeros(zeros) + Decimal(ParseDigits(s).value)
    decreases |s|
  {
    hide Decimal, Digit, DigitValue;
    var last := |s| - 1;
    assert s == s[..last] + [s[last]];
    OneDigitIsDecimal(s[last]);
    if last == 0 {
      zeros := 0;
      assert Zeros(0) + [s[0]] == s;
    } else {
      var before := DigitsAreDecimal(s[..last]);
      zeros := MoreDigits(s[..last], before, ParseDigits(s[..last]).value, s[last]);
    }
  }

  lemma MoreDigits(start: string, before: nat, high: nat, c: char) returns (zeros: nat)
    requires Digit(c) && start == Zeros(before) + Decimal(high)
    ensures start + [c] == Zeros(zeros) + Decimal(10 * high + DigitValue(c))
  {
    OneDigitIsDecimal(c);
    if high == 0 {
      zeros := before + 1;
      assert Decimal(0) == "0" && start == Zeros(before) + "0" == Zeros(zeros);
    } else {
      zeros := before;
      DecimalOfMore(high, c);
      hide Decimal, Zeros;
      assert Zeros(before) + Decimal(high) + [c] == Zeros(before) + (Decimal(high) + [c]);
    }
  }

  lemma {:induction false} ZerosDoNotCount(zeros: nat, s: string)
    ensures ParseDigits(Zeros(zeros) + s) == ParseDigits(s)
    decreases |s|, zeros
  {
    var all := Zeros(zeros) + s;
    if s != "" {
      ZerosDoNotCount(zeros, s[..|s| - 1]);
      assert all[..|all| - 1] == Zeros(zeros) + s[..|s| - 1];
    } else if zeros > 0 {
      ZerosDoNotCount(zeros - 1, "");
      assert all[..|all| - 1] == Zeros(zeros - 1) + "";
    }
  }

  /** A number is its decimal digits, with any zeros and one plus sign before them, up to 18446744073709551615. */
  ghost predicate Numeral(s: string, n: nat) {
    && n <= 18446744073709551615
    && exists zeros: nat :: s == Zeros(zeros) + Decimal(n) || s == "+" + (Zeros(zeros) + Decimal(n))
  }

  lemma NumberTells(s: string, n: nat)
    ensures ParseUsize(s) == Some(n) <==> Numeral(s, n)
  {
    var digits := if s != "" && s[0] == '+' then s[1..] else s;
    if ParseUsize(s) == Some(n) {
      var zeros := DigitsAreDecimal(digits);
      assert s == digits || s == "+" + digits;
    }
    if Numeral(s, n) {
      var zeros: nat :| s == Zeros(zeros) + Decimal(n) || s == "+" + (Zeros(zeros) + Decimal(n));
      var plain := Zeros(zeros) + Decimal(n);
      assert plain[0] == if zeros > 0 then '0' else Decimal(n)[0];
      assert ("+" + plain)[1..] == plain;
      ZerosDoNotCount(zeros, Decimal(n));
      ParseDecimal(n);
    }
  }

  /** The lines from `start` on, unless there are none; the first line is 1 and the last one a machine word. */
  lemma LinesAdded(lines: ChangedLines, path: Path, start: nat, count: nat, other: Path, n: nat)
    ensures var r := AddHunkLines(lines, path, start, count);
            && (r.Ok? <==> count == 0 || (start > 0 && start + count <= 18446744073709551616))
            && (r.Ok? ==>
                  (other in r.value && n in r.value[other] <==>
                   (other in lines && n in lines[other]) || (other == path && start <= n < start + count)))
  {
  }

  // ---------- white space ----------

  function Chars(bytes: Text): string {
    seq(|bytes|, i requires 0 <= i < |bytes| => bytes[i] as char)
  }

  predicate White(c: char) {
    c as int in WHITE_SPACE
  }

  ghost predicate StartsWith(s: string, c: char) {
    Chars(Encoded(c)) <= s
  }

  lemma WhiteIsSpace(s: string, c: char)
    requires White(c) && StartsWith(s, c)
    ensures SpaceLength(s) == |Encoded(c)|
  {
    var b := Chars(Encoded(c));
    assert s[0] == b[0];
    if |b| > 1 { assert s[1] == b[1]; }
    if |b| > 2 { assert s[2] == b[2]; }
  }

  lemma SpaceIsWhite(s: string) returns (c: char)
    requires SpaceLength(s) > 0
    ensures White(c) && StartsWith(s, c)
  {
    var n := SpaceLength(s);
    var a := s[0] as int;
    if n == 1 {
      c := s[0];
      assert s[..1] == Chars(Encoded(c));
    } else if n == 2 {
      c := s[1];
      assert s[..2] == Chars(Encoded(c));
    } else {
      var b, d := s[1] as int, s[2] as int;
      c := ((a - 0xE0) * 0x1000 + (b - 0x80) * 0x40 + (d - 0x80)) as char;
      assert s[..3] == Chars(Encoded(c));
    }
  }

  predicate AllWhite(text: string) {
    forall i :: 0 <= i < |text| ==> White(text[i])
  }

  function InUtf8(text: string): string {
    Chars(Encoding(text))
  }

  lemma BytesOfMore(c: char, text: string)
    ensures InUtf8([c] + text) == Chars(Encoded(c)) + InUtf8(text)
  {
    hide Encoded, Encoding;
    EncodingOfOne(c);
    EncodingOfConcat([c], text);
  }

  lemma NoBytes()
    ensures InUtf8("") == ""
  {
  }

  lemma OneWhiteLess(text: string)
    requires AllWhite(text) && text != ""
    ensures White(text[0]) && AllWhite(text[1..]) && text == [text[0]] + text[1..]
  {
  }

  lemma OneWhiteMore(c: char, text: string)
    requires White(c) && AllWhite(text)
    ensures AllWhite([c] + text)
  {
  }

  /** White space before a word is passed over. */
  lemma {:induction false} WhiteIsPassed(text: string, rest: string)
    requires AllWhite(text)
    ensures SplitWhitespace(InUtf8(text) + rest) == SplitWhitespace(rest)
    ensures text != "" ==> SpaceLength(InUtf8(text) + rest) > 0
    decreases |text|
  {
    hide AllWhite, White, SpaceLength, Encoded, Chars, InUtf8;
    NoBytes();
    if text == "" {
      assert "" + rest == rest;
    } else {
      OneWhiteLess(text);
      var c, more := text[0], text[1..];
      var first, others := Chars(Encoded(c)), InUtf8(more) + rest;
      BytesOfMore(c, more);
      var s := InUtf8(text) + rest;
      assert s == first + others;
      PassOne(s, c, others);
      WhiteIsPassed(more, rest);
    }
  }

  lemma PassOne(s: string, c: char, others: string)
    requires White(c) && s == Chars(Encoded(c)) + others
    ensures SpaceLength(s) > 0 && SplitWhitespace(s) == SplitWhitespace(others)
  {
    hide White, SpaceLength, Encoded;
    assert StartsWith(s, c);
    WhiteIsSpace(s, c);
    EncodedIsNotEmpty(c);
    assert s[|Encoded(c)|..] == others;
  }

  lemma EncodedIsNotEmpty(c: char)
    ensures |Encoded(c)| > 0
  {
  }

  /** The white space at the start. */
  lemma {:induction false} LeadingWhite(s: string) returns (text: string, rest: string)
    ensures AllWhite(text) && s == InUtf8(text) + rest
    ensures rest == "" || SpaceLength(rest) == 0
    ensures SplitWhitespace(s) == SplitWhitespace(rest)
    decreases |s|
  {
    hide AllWhite, White, SpaceLength, Encoded, Chars, InUtf8;
    NoBytes();
    if s == "" || SpaceLength(s) == 0 {
      text, rest := "", s;
      NothingIsWhite();
      assert s == "" + s;
    } else {
      var c := SpaceIsWhite(s);
      var others := AfterSpace(s, c);
      var more;
      more, rest := LeadingWhite(others);
      text := [c] + more;
      OneWhiteMore(c, more);
      BytesOfMore(c, more);
      PassOne(s, c, others);
      assert Chars(Encoded(c)) + (InUtf8(more) + rest) == InUtf8(text) + rest;
    }
  }

  lemma NothingIsWhite()
    ensures AllWhite("")
  {
  }

  lemma AfterSpace(s: string, c: char) returns (others: string)
    requires StartsWith(s, c)
    ensures s == Chars(Encoded(c)) + others && |others| < |s|
  {
    EncodedIsNotEmpty(c);
    hide Encoded;
    others := s[|Encoded(c)|..];
  }

  // ---------- words ----------

  /** Printable characters of ASCII. */
  predicate Printable(w: string) {
    w != "" && forall i :: 0 <= i < |w| ==> '!' <= w[i] <= '~'
  }

  lemma PrintableIsNoSpace(w: string, rest: string)
    requires Printable(w)
    ensures SpaceLength(w + rest) == 0
  {
    assert (w + rest)[0] == w[0];
  }

  lemma {:induction false} WordEnds(w: string, rest: string)
    requires Printable(w) && (rest == "" || SpaceLength(rest) > 0)
    ensures WordEnd(w + rest) == |w|
    decreases |w|
  {
    PrintableIsNoSpace(w, rest);
    assert (w + rest)[1..] == w[1..] + rest;
    if |w| > 1 {
      WordEnds(w[1..], rest);
    } else {
      assert w[1..] + rest == rest;
    }
  }

  lemma WordIsTaken(w: string, rest: string)
    requires Printable(w) && (rest == "" || SpaceLength(rest) > 0)
    ensures SplitWhitespace(w + rest) == [w] + SplitWhitespace(rest)
  {
    WordEnds(w, rest);
    PrintableIsNoSpace(w, rest);
    assert (w + rest)[..|w|] == w && (w + rest)[|w|..] == rest;
  }

  lemma FirstWord(s: string) returns (text: string, w: string, rest: string)
    requires SplitWhitespace(s) != []
    ensures AllWhite(text) && s == InUtf8(text) + w + rest
    ensures SplitWhitespace(s) == [w] + SplitWhitespace(rest)
    ensures rest == "" || SpaceLength(rest) > 0
    ensures text == "" ==> SpaceLength(s) == 0
  {
    hide AllWhite, SpaceLength, InUtf8;
    var behind;
    text, behind := LeadingWhite(s);
    NoBytes();
    assert text == "" ==> s == behind;
    w, rest := behind[..WordEnd(behind)], behind[WordEnd(behind)..];
    assert s == InUtf8(text) + (w + rest);
    WordEndsThere(behind);
  }

  lemma {:induction false} WordEndsThere(s: string)
    ensures WordEnd(s) == |s| || SpaceLength(s[WordEnd(s)..]) > 0
  {
    if s != "" && SpaceLength(s) == 0 {
      WordEndsThere(s[1..]);
      assert s[1..][WordEnd(s[1..])..] == s[WordEnd(s)..];
    }
  }

  // ---------- hunk headers ----------

  /** A start, and a count behind a comma; without one the count is one. */
  ghost predicate RangeText(s: string, start: nat, count: nat) {
    || (Numeral(s, start) && count == 1)
    || (exists a: string, b: string :: s == a + "," + b && Numeral(a, start) && Numeral(b, count))
  }

  lemma {:induction false} DecimalIsPrintable(n: nat)
    ensures Printable(Decimal(n)) && Free(Decimal(n), ',') && Free(Decimal(n), '@')
  {
    var s := Decimal(n);
    forall i | 0 <= i < |s| ensures '0' <= s[i] <= '9' {
      assert Digit(s[i]);
    }
  }

  lemma NumeralIsPrintable(s: string, n: nat)
    requires Numeral(s, n)
    ensures Printable(s) && Free(s, ',') && Free(s, '@')
  {
    DecimalIsPrintable(n);
    var zeros: nat :| s == Zeros(zeros) + Decimal(n) || s == "+" + (Zeros(zeros) + Decimal(n));
    var plain := Zeros(zeros) + Decimal(n);
    assert Printable(plain) && Free(plain, ',') && Free(plain, '@');
  }

  lemma RangeIsPrintable(s: string, start: nat, count: nat)
    requires RangeText(s, start, count)
    ensures Printable(s) && Free(s, '@')
  {
    hide Numeral;
    if Numeral(s, start) && count == 1 {
      NumeralIsPrintable(s, start);
    } else {
      var a, b :| s == a + "," + b && Numeral(a, start) && Numeral(b, count);
      NumeralIsPrintable(a, start);
      NumeralIsPrintable(b, count);
      CommaBetween(a, b);
    }
  }

  lemma CommaBetween(a: string, b: string)
    requires Printable(a) && Printable(b) && Free(a, '@') && Free(b, '@')
    ensures Printable(a + "," + b) && Free(a + "," + b, '@')
  {
  }

  lemma RangeTells(s: string, start: nat, count: nat)
    ensures ParseRange(s) == Some((start, count)) <==> RangeText(s, start, count)
  {
    hide ParseUsize, Numeral;
    var comma := IndexOf(s, ',');
    if ParseRange(s) == Some((start, count)) {
      NumberTells(s[..comma], start);
      if comma == |s| {
        assert s[..comma] == s;
      } else {
        NumberTells(s[comma + 1..], count);
        assert s == s[..comma] + "," + s[comma + 1..];
      }
    }
    if RangeText(s, start, count) {
      if Numeral(s, start) && count == 1 {
        NumeralIsPrintable(s, start);
        IndexInFree(s, ',');
        assert s[..|s|] == s;
        NumberTells(s, start);
      } else {
        var a, b :| s == a + "," + b && Numeral(a, start) && Numeral(b, count);
        NumeralIsPrintable(a, start);
        IndexAfterFree(a, ',', b);
        assert a + "," + b == a + [','] + b;
        assert s[..|a|] == a && s[|a| + 1..] == b;
        NumberTells(a, start);
        NumberTells(b, count);
      }
    }
  }

  /** The two ranges of a hunk between white space. */
  ghost predicate RangesText(s: string, start: nat, count: nat) {
    exists w0, old_, w1, new_, w2, oldStart, oldCount ::
      Laid(s, w0, old_, w1, new_, w2) && RangeText(old_, oldStart, oldCount) && RangeText(new_, start, count)
  }

  ghost predicate Laid(s: string, w0: string, old_: string, w1: string, new_: string, w2: string) {
    && AllWhite(w0) && AllWhite(w1) && AllWhite(w2) && w1 != ""
    && s == InUtf8(w0) + ("-" + old_) + (InUtf8(w1) + ("+" + new_) + InUtf8(w2))
  }

  lemma {:induction false} TwoWordsAreLaid(s: string) returns (w0: string, w1: string, w2: string)
    requires |SplitWhitespace(s)| == 2
    ensures AllWhite(w0) && AllWhite(w1) && AllWhite(w2) && w1 != ""
    ensures s == InUtf8(w0) + SplitWhitespace(s)[0] + (InUtf8(w1) + SplitWhitespace(s)[1] + InUtf8(w2))
  {
    hide AllWhite, InUtf8, SpaceLength;
    var first, rest, second, behind, nothing;
    w0, first, rest := FirstWord(s);
    w1, second, behind := FirstWord(rest);
    w2, nothing := LeadingWhite(behind);
    NoBytes();
    assert SplitWhitespace(s) == [first] + ([second] + SplitWhitespace(behind));
    assert nothing == "";
    assert behind == InUtf8(w2);
  }

  lemma LaidIsRead(s: string, w0: string, old_: string, w1: string, new_: string, w2: string)
    requires Laid(s, w0, old_, w1, new_, w2) && Printable(old_) && Printable(new_)
    ensures SplitWhitespace(s) == ["-" + old_, "+" + new_]
  {
    hide InUtf8, SpaceLength, AllWhite;
    var first, second := "-" + old_, "+" + new_;
    var behind := InUtf8(w2);
    assert Printable(first) && Printable(second);
    hide Printable;
    NothingBehind(w2);
    WordIsTaken(second, behind);
    var rest := InUtf8(w1) + second + behind;
    assert rest == InUtf8(w1) + (second + behind);
    WhiteIsPassed(w1, second + behind);
    WordIsTaken(first, rest);
    assert s == InUtf8(w0) + (first + rest);
    WhiteIsPassed(w0, first + rest);
    assert [first] + ([second] + []) == [first, second];
  }

  lemma NothingBehind(text: string)
    requires AllWhite(text)
    ensures SplitWhitespace(InUtf8(text)) == []
    ensures InUtf8(text) == "" || SpaceLength(InUtf8(text)) > 0
  {
    hide SpaceLength, AllWhite;
    WhiteIsPassed(text, "");
    assert InUtf8(text) + "" == InUtf8(text);
  }

  lemma {:induction false} WhiteHasNoSign(text: string)
    requires AllWhite(text)
    ensures Free(InUtf8(text), '@')
    decreases |text|
  {
    if text == "" {
      NoBytes();
    } else {
      OneWhiteLess(text);
      BytesOfMore(text[0], text[1..]);
      WhiteHasNoSign(text[1..]);
      assert Free(Chars(Encoded(text[0])), '@');
    }
  }

  lemma {:induction false} SignIsFound(before: string, behind: string)
    requires Free(before, '@')
    ensures Find(before + " @@" + behind, " @@") == |before|
    decreases |before|
  {
    var s := before + " @@" + behind;
    if before == "" {
      assert s == " @@" + behind;
    } else {
      assert s[1..] == before[1..] + " @@" + behind;
      SignIsFound(before[1..], behind);
      assert s[1] == if |before| > 1 then before[1] else ' ';
      assert " @@"[1] == '@' != s[1];
    }
  }

  lemma LaidHasNoSign(s: string, w0: string, old_: string, w1: string, new_: string, w2: string)
    requires Laid(s, w0, old_, w1, new_, w2) && Free(old_, '@') && Free(new_, '@')
    ensures Free(s, '@')
  {
    hide InUtf8, AllWhite;
    WhiteHasNoSign(w0);
    WhiteHasNoSign(w1);
    WhiteHasNoSign(w2);
  }

  /** The line reads `@@`, a space, the two ranges with any white space around and some between them, a space
      and `@@`, and then anything. */
  ghost predicate HeaderText(line: string, start: nat, count: nat) {
    exists ranges: string, behind: string ::
      line == "@@ " + (ranges + " @@" + behind) && RangesText(ranges, start, count)
  }

  lemma HeaderIsRead(ranges: string, behind: string, start: nat, count: nat)
    requires RangesText(ranges, start, count)
    ensures ParseHunkHeader("@@ " + (ranges + " @@" + behind)) == Ok((start, count))
  {
    hide RangeText, Printable, Free, Laid, ParseRange, Find, SplitWhitespace;
    var w0, old_, w1, new_, w2, oldStart, oldCount :|
      Laid(ranges, w0, old_, w1, new_, w2) && RangeText(old_, oldStart, oldCount) && RangeText(new_, start, count);
    RangeIsPrintable(old_, oldStart, oldCount);
    RangeIsPrintable(new_, start, count);
    LaidIsRead(ranges, w0, old_, w1, new_, w2);
    LaidHasNoSign(ranges, w0, old_, w1, new_, w2);
    SignIsFound(ranges, behind);
    var body := ranges + " @@" + behind;
    assert ("@@ " + body)[3..] == body && body[..|ranges|] == ranges;
    assert ("-" + old_)[1..] == old_ && ("+" + new_)[1..] == new_;
    RangeTells(old_, oldStart, oldCount);
    RangeTells(new_, start, count);
  }

  lemma {:induction false} FoundIsThere(s: string, pattern: string)
    requires Find(s, pattern) < |s|
    ensures pattern <= s[Find(s, pattern)..]
    decreases |s|
  {
    if !(pattern <= s) {
      FoundIsThere(s[1..], pattern);
      assert s[1..][Find(s[1..], pattern)..] == s[Find(s, pattern)..];
    }
  }

  lemma HeaderWasWritten(line: string, start: nat, count: nat)
    requires ParseHunkHeader(line) == Ok((start, count))
    ensures HeaderText(line, start, count)
  {
    hide RangeText, ParseRange, Find, SplitWhitespace, AllWhite, InUtf8;
    var body := line[3..];
    var end := Find(body, " @@");
    FoundIsThere(body, " @@");
    var ranges, behind := body[..end], body[end + 3..];
    assert body[end..] == " @@" + behind;
    assert body == ranges + " @@" + behind && line == "@@ " + body;
    var words := SplitWhitespace(ranges);
    var w0, w1, w2 := TwoWordsAreLaid(ranges);
    var old_, new_ := words[0][1..], words[1][1..];
    assert words[0] == "-" + old_ && words[1] == "+" + new_;
    assert Laid(ranges, w0, old_, w1, new_, w2);
    var before := ParseRange(old_).value;
    RangeTells(old_, before.0, before.1);
    RangeTells(new_, start, count);
  }

  /** A hunk header is read exactly from such a line; anything else is an error. */
  lemma HeaderTells(line: string, start: nat, count: nat)
    ensures ParseHunkHeader(line) == Ok((start, count)) <==> HeaderText(line, start, count)
  {
    hide ParseHunkHeader, RangesText;
    if ParseHunkHeader(line) == Ok((start, count)) {
      HeaderWasWritten(line, start, count);
    }
    if HeaderText(line, start, count) {
      var ranges: string, behind: string :|
        line == "@@ " + (ranges + " @@" + behind) && RangesText(ranges, start, count);
      HeaderIsRead(ranges, behind, start, count);
    }
  }

  // ---------- lines ----------

  /** What the lines do that are no hunk headers: a title forgets the two sides; outside hunks the sides are named,
      or a side that cannot be read is an error; any other line does nothing. */
  lemma LineTells(p: Parser, line: Line, inventory: Path -> bool)
    ensures "diff --git " <= line ==> Consumed(p, line, inventory) == Ok(Parser(None, None, false, p.lines))
    ensures !p.inHunk && "--- " <= line ==>
              Consumed(p, line, inventory) == match ParseDiffPath(line[4..], "a/")
                                              case Ok(path) => Ok(p.(oldPath := path))
                                              case Err => Err
    ensures !p.inHunk && "+++ " <= line ==>
              Consumed(p, line, inventory) == match ParseDiffPath(line[4..], "b/")
                                              case Ok(path) => Ok(p.(newPath := path))
                                              case Err => Err
    ensures !("diff --git " <= line) && !("@@" <= line) && (p.inHunk || (!("--- " <= line) && !("+++ " <= line))) ==>
              Consumed(p, line, inventory) == Ok(p)
  {
    hide ParseHunkHeader, ParseDiffPath;
    assert "@@" <= line ==> line[0] == '@';
    assert "diff --git " <= line ==> line[0] == 'd';
    assert "--- " <= line ==> line[0] == '-';
    assert "+++ " <= line ==> line[0] == '+';
  }

  /** The file of a hunk: the new side's, or the old side's when there is no new one. */
  function FileOf(p: Parser): Option<Path> {
    if p.newPath.Some? then p.newPath else p.oldPath
  }

  /** A hunk header of a file adds the new lines when the inventory has the file, and starts a hunk.  It is an error
      without a file, or with lines that are no line numbers. */
  lemma HunkTells(p: Parser, line: Line, inventory: Path -> bool, start: nat, count: nat)
    requires HeaderText(line, start, count)
    ensures var r := Consumed(p, line, inventory);
            && (r.Ok? <==>
                && FileOf(p).Some?
                && (inventory(FileOf(p).value) && count > 0 ==> 0 < start && start + count <= 18446744073709551616))
            && (r.Ok? ==> r.value == p.(inHunk := true, lines := r.value.lines))
            && (r.Ok? && !inventory(FileOf(p).value) ==> r.value.lines == p.lines)
            && (r.Ok? && inventory(FileOf(p).value) ==>
                  AddHunkLines(p.lines, FileOf(p).value, start, count) == Ok(r.value.lines))
  {
    HeaderTells(line, start, count);
    HeaderBegins(line, start, count);
    hide ParseHunkHeader, ParseDiffPath, HeaderText;
    if FileOf(p).Some? {
      LinesAdded(p.lines, FileOf(p).value, start, count, [], 0);
    }
  }

  lemma HeaderBegins(line: Line, start: nat, count: nat)
    requires HeaderText(line, start, count)
    ensures "@@" <= line && !("diff --git " <= line) && !("--- " <= line) && !("+++ " <= line)
  {
    assert line[0] == '@' && line[1] == '@';
  }

  /** Any other line that begins like a header is an error. */
  lemma NoHeaderFails(p: Parser, line: Line, inventory: Path -> bool)
    requires "@@" <= line && forall start: nat, count: nat :: !HeaderText(line, start, count)
    ensures Consumed(p, line, inventory) == Err
  {
    assert line[0] == '@';
    assert "diff --git "[0] == 'd' && "--- "[0] == '-' && "+++ "[0] == '+';
    hide HeaderText, AddHunkLines;
    if ParseHunkHeader(line).Ok? {
      HeaderTells(line, ParseHunkHeader(line).value.0, ParseHunkHeader(line).value.1);
    }
  }
}
