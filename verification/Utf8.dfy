/** Bytes and well-formed UTF-8, as `String::from_utf8` accepts it (RFC 3629, section 4). */
module Utf8 {
  type Byte = b: int | 0 <= b < 256
  type Text = seq<Byte>

  /** The code points that Unicode calls white space. */
  const WHITE_SPACE: set<int> :=
    {9, 10, 11, 12, 13, 32, 133, 160, 5760, 8192, 8193, 8194, 8195, 8196, 8197, 8198, 8199, 8200, 8201, 8202, 8232,
     8233, 8239, 8287, 12288}

  predicate Continuation(b: Byte) {
    0x80 <= b < 0xC0
  }

  /** The length of the character that starts at `i`, or 0 where none does. */
  function CharLength(s: Text, i: nat): (n: nat)
    requires i < |s|
    ensures n <= 4 && i + n <= |s|
    ensures forall k :: i < k < i + n ==> Continuation(s[k])
    ensures n > 0 ==> !Continuation(s[i])
    ensures n > 1 ==> s[i] >= 0x80
  {
    var b := s[i];
    if b < 0x80 then 1
    else if 0xC2 <= b < 0xE0 && i + 1 < |s| && Continuation(s[i + 1]) then 2
    else if 0xE0 <= b < 0xF0 && i + 2 < |s| && Continuation(s[i + 1]) && Continuation(s[i + 2]) &&
            (b == 0xE0 ==> s[i + 1] >= 0xA0) && (b == 0xED ==> s[i + 1] < 0xA0) then 3
    else if 0xF0 <= b < 0xF5 && i + 3 < |s| &&
            Continuation(s[i + 1]) && Continuation(s[i + 2]) && Continuation(s[i + 3]) &&
            (b == 0xF0 ==> s[i + 1] >= 0x90) && (b == 0xF4 ==> s[i + 1] < 0x90) then 4
    else 0
  }

  predicate Utf8From(s: Text, i: nat)
    requires i <= |s|
    decreases |s| - i
  {
    i == |s| || (CharLength(s, i) > 0 && Utf8From(s, i + CharLength(s, i)))
  }

  // ---------- encoding characters ----------

  /** A character in UTF-8 (RFC 3629, section 3). */
  function Encoded(c: char): Text {
    var n := c as int;
    if n < 0x80 then [n]
    else if n < 0x800 then [0xC0 + n / 0x40, 0x80 + n % 0x40]
    else if n < 0x10000 then [0xE0 + n / 0x1000, 0x80 + n / 0x40 % 0x40, 0x80 + n % 0x40]
    else [0xF0 + n / 0x40000, 0x80 + n / 0x1000 % 0x40, 0x80 + n / 0x40 % 0x40, 0x80 + n % 0x40]
  }

  function Encoding(text: string): Text {
    if text == "" then [] else Encoding(text[..|text| - 1]) + Encoded(text[|text| - 1])
  }

  lemma EncodingOfMore(text: string, c: char)
    ensures Encoding(text + [c]) == Encoding(text) + Encoded(c)
  {
    hide Encoded;
    assert (text + [c])[..|text|] == text;
  }

  lemma {:induction false} EncodingOfConcat(a: string, b: string)
    ensures Encoding(a + b) == Encoding(a) + Encoding(b)
    decreases |b|
  {
    if b == "" {
      assert a + b == a;
    } else {
      EncodingOfLonger(a, b);
    }
  }

  lemma {:induction false} EncodingOfLonger(a: string, b: string)
    requires b != ""
    ensures Encoding(a + b) == Encoding(a) + Encoding(b)
    decreases |b|, 0
  {
    hide Encoded, Encoding;
    var start, c := b[..|b| - 1], b[|b| - 1];
    EncodingOfConcat(a, start);
    EncodingOfMore(a + start, c);
    EncodingOfMore(start, c);
    assert b == start + [c] && a + b == (a + start) + [c];
    assert Encoding(a) + Encoding(start) + Encoded(c) == Encoding(a) + (Encoding(start) + Encoded(c));
  }

  lemma EncodingOfOne(c: char)
    ensures Encoding([c]) == Encoded(c)
  {
    assert [c][..0] == "";
  }

  lemma TextAround(text: string, i: nat)
    requires i < |text|
    ensures text == text[..i] + [text[i]] + text[i + 1..]
  {
  }

  /** The bytes of a text around a character of it. */
  lemma EncodingAround(text: string, i: nat)
    requires i < |text|
    ensures Encoding(text) == Encoding(text[..i]) + Encoded(text[i]) + Encoding(text[i + 1..])
  {
    hide Encoded, Encoding;
    TextAround(text, i);
    EncodingOfMore(text[..i], text[i]);
    EncodingOfConcat(text[..i] + [text[i]], text[i + 1..]);
  }

  lemma EncodedIsOneCharacter(before: Text, c: char, behind: Text)
    ensures CharLength(before + Encoded(c) + behind, |before|) == |Encoded(c)|
  {
    var s, i, b := before + Encoded(c) + behind, |before|, Encoded(c);
    assert forall k :: 0 <= k < |b| ==> s[i + k] == b[k];
    assert s[i] == b[0];
    if |b| > 1 { assert s[i + 1] == b[1]; }
    if |b| > 2 { assert s[i + 2] == b[2]; }
    if |b| > 3 { assert s[i + 3] == b[3]; }
  }

  /** The number that a character's bytes stand for: the leading digits of the first, and six bits of each other. */
  function Value(s: Text, i: nat): int
    requires i < |s|
  {
    var b: int, n := s[i], CharLength(s, i);
    if n == 2 then Joined(b - 0xC0, s[i + 1])
    else if n == 3 then Joined(Joined(b - 0xE0, s[i + 1]), s[i + 2])
    else if n == 4 then Joined(Joined(Joined(b - 0xF0, s[i + 1]), s[i + 2]), s[i + 3])
    else b
  }

  function Joined(high: int, b: Byte): int {
    var low: int := b;
    high * 0x40 + (low - 0x80)
  }

  lemma JoinedParts(high: int, b: Byte)
    requires high >= 0 && Continuation(b)
    ensures Joined(high, b) / 0x40 == high && 0x80 + Joined(high, b) % 0x40 == b
  {
  }

  lemma HighParts(n: nat)
    ensures n / 0x1000 == n / 0x40 / 0x40 && n / 0x40000 == n / 0x40 / 0x40 / 0x40
  {
  }

  lemma ValueIsScalar(s: Text, i: nat)
    requires i < |s| && CharLength(s, i) > 0
    ensures 0 <= Value(s, i) < 0xD800 || 0xE000 <= Value(s, i) < 0x110000
    ensures CharLength(s, i) == if Value(s, i) < 0x80 then 1 else if Value(s, i) < 0x800 then 2
                                else if Value(s, i) < 0x10000 then 3 else 4
  {
  }

  lemma BytesAreEncoded(s: Text, i: nat) returns (c: char)
    requires i < |s| && CharLength(s, i) > 0
    ensures s[i..i + CharLength(s, i)] == Encoded(c)
  {
    ValueIsScalar(s, i);
    var n := Value(s, i);
    c := n as char;
    HighParts(n);
    var b: int, length := s[i], CharLength(s, i);
    if length == 2 {
      JoinedParts(b - 0xC0, s[i + 1]);
    } else if length == 3 {
      JoinedParts(b - 0xE0, s[i + 1]);
      JoinedParts(Joined(b - 0xE0, s[i + 1]), s[i + 2]);
    } else if length == 4 {
      JoinedParts(b - 0xF0, s[i + 1]);
      JoinedParts(Joined(b - 0xF0, s[i + 1]), s[i + 2]);
      JoinedParts(Joined(Joined(b - 0xF0, s[i + 1]), s[i + 2]), s[i + 3]);
    }
  }

  /** Bytes are well-formed UTF-8 exactly when they encode some text. */
  lemma {:induction false} WellFormedExactly(s: Text, i: nat)
    requires i <= |s|
    ensures Utf8From(s, i) <==> exists text :: Encoding(text) == s[i..]
  {
    if Utf8From(s, i) {
      var text := TextOf(s, i);
    }
    if text :| Encoding(text) == s[i..] {
      EncodingIsWellFormed(s[..i], text);
      assert s[..i] + s[i..] == s;
    }
  }

  lemma {:induction false} TextOf(s: Text, i: nat) returns (text: string)
    requires i <= |s| && Utf8From(s, i)
    ensures Encoding(text) == s[i..]
    decreases |s| - i
  {
    hide Encoded, CharLength;
    if i == |s| {
      text := "";
    } else {
      var n := CharLength(s, i);
      var c := BytesAreEncoded(s, i);
      var rest := TextOf(s, i + n);
      text := [c] + rest;
      EncodingOfOne(c);
      EncodingOfConcat([c], rest);
      assert s[i..i + n] + s[i + n..] == s[i..];
    }
  }

  lemma {:induction false} EncodingIsWellFormed(before: Text, text: string)
    ensures Utf8From(before + Encoding(text), |before|)
    decreases |text|
  {
    hide Encoded, CharLength;
    if text != "" {
      var c, rest := Encoded(text[0]), Encoding(text[1..]);
      EncodingAround(text, 0);
      EncodedIsOneCharacter(before, text[0], rest);
      assert before + Encoding(text) == before + c + rest;
      EncodingIsWellFormed(before + c, text[1..]);
    }
  }
}
