/** What a command line means: words of bare and escaped characters and of quoted stretches, with white space
    between them. */
module ShellMeaning {
  import opened ShellWords
  import opened Utf8

  /** A character in double quotes, with a backslash before it or not. */
  datatype Item = Item(c: char, escaped: bool)

  datatype Piece =
    | Bare(c: char)
    | Escape(c: char)
    | InSingle(text: string)
    | InDouble(items: seq<Item>)

  type Word = seq<Piece>

  /** Bare characters are no quotes, backslashes or white space; single quotes end at the next one, double quotes
      at the next one that no backslash precedes. */
  predicate Legal(p: Piece) {
    match p
    case Bare(c) => c != '\'' && c != '"' && c != '\\' && !Whitespace(c)
    case Escape(_) => true
    case InSingle(text) => '\'' !in text
    case InDouble(items) =>
      forall i :: 0 <= i < |items| ==> LegalItem(items[i])
  }

  predicate LegalItem(item: Item) {
    item.escaped || (item.c != '"' && item.c != '\\')
  }

  predicate LegalWord(w: Word) {
    w != [] && forall i :: 0 <= i < |w| ==> Legal(w[i])
  }

  function WriteItems(items: seq<Item>): string {
    if items == [] then ""
    else WriteItem(items[0]) + WriteItems(items[1..])
  }

  function WriteItem(item: Item): string {
    if item.escaped then ['\\', item.c] else [item.c]
  }

  function Write(p: Piece): string {
    match p
    case Bare(c) => [c]
    case Escape(c) => ['\\', c]
    case InSingle(text) => "'" + text + "'"
    case InDouble(items) => "\"" + WriteItems(items) + "\""
  }

  function Characters(items: seq<Item>): string {
    seq(|items|, i requires 0 <= i < |items| => items[i].c)
  }

  /** What a piece stands for. */
  function TextOf(p: Piece): string {
    match p
    case Bare(c) => [c]
    case Escape(c) => [c]
    case InSingle(text) => text
    case InDouble(items) => Characters(items)
  }

  function WriteWord(w: Word): string {
    if w == [] then "" else Write(w[0]) + WriteWord(w[1..])
  }

  function WordText(w: Word): string {
    if w == [] then "" else TextOf(w[0]) + WordText(w[1..])
  }

  /** Each word is followed by some white space. */
  function WriteLine(words: seq<Word>, blanks: seq<char>): string
    requires |blanks| == |words|
  {
    if words == [] then "" else WriteWord(words[0]) + [blanks[0]] + WriteLine(words[1..], blanks[1..])
  }

  function Texts(words: seq<Word>): (r: seq<string>)
    ensures |r| == |words| && forall i :: 0 <= i < |r| ==> r[i] == WordText(words[i])
  {
    seq(|words|, i requires 0 <= i < |words| => WordText(words[i]))
  }

  // ---------- reading pieces ----------

  predicate Idle(s: Lexer) {
    !s.single && !s.double && !s.escaped
  }

  function Taken(s: Lexer, text: string): Lexer {
    s.(cur := s.cur + text, hasToken := true)
  }

  lemma LexFirst(s: Lexer, c: char, rest: string)
    ensures Lex(s, [c] + rest) == Lex(Fed(s, c), rest)
  {
    assert ([c] + rest)[1..] == rest;
  }

  lemma LexTwo(s: Lexer, c: char, d: char, rest: string)
    ensures Lex(s, [c, d] + rest) == Lex(Fed(Fed(s, c), d), rest)
  {
    assert [c, d] + rest == [c] + ([d] + rest);
    LexFirst(s, c, [d] + rest);
    LexFirst(Fed(s, c), d, rest);
  }

  lemma {:induction false} LexSingle(s: Lexer, text: string, rest: string)
    requires s.single && !s.double && !s.escaped && s.hasToken && '\'' !in text
    ensures Lex(s, text + rest) == Lex(s.(cur := s.cur + text), rest)
    decreases |text|
  {
    if text == "" {
      assert text + rest == rest && s.cur + text == s.cur;
    } else {
      assert text + rest == [text[0]] + (text[1..] + rest) && text[0] in text;
      LexFirst(s, text[0], text[1..] + rest);
      LexSingle(Fed(s, text[0]), text[1..], rest);
      assert s.cur + [text[0]] + text[1..] == s.cur + text;
    }
  }

  lemma ItemsBegin(items: seq<Item>)
    requires items != []
    ensures WriteItems(items) == WriteItem(items[0]) + WriteItems(items[1..])
    ensures Characters(items) == [items[0].c] + Characters(items[1..])
  {
  }

  lemma LexItem(s: Lexer, item: Item, rest: string)
    requires s.double && !s.single && !s.escaped && s.hasToken && LegalItem(item)
    ensures Lex(s, WriteItem(item) + rest) == Lex(s.(cur := s.cur + [item.c]), rest)
  {
    if item.escaped {
      LexTwo(s, '\\', item.c, rest);
    } else {
      LexFirst(s, item.c, rest);
    }
  }

  lemma {:induction false} LexDouble(s: Lexer, items: seq<Item>, rest: string)
    requires s.double && !s.single && !s.escaped && s.hasToken
    requires forall i :: 0 <= i < |items| ==> LegalItem(items[i])
    ensures Lex(s, WriteItems(items) + rest) == Lex(s.(cur := s.cur + Characters(items)), rest)
    decreases |items|
  {
    if items == [] {
      assert WriteItems(items) + rest == rest && s.cur + Characters(items) == s.cur;
    } else {
      LexMoreItems(s, items, rest);
    }
  }

  lemma {:induction false} LexMoreItems(s: Lexer, items: seq<Item>, rest: string)
    requires s.double && !s.single && !s.escaped && s.hasToken && items != []
    requires forall i :: 0 <= i < |items| ==> LegalItem(items[i])
    ensures Lex(s, WriteItems(items) + rest) == Lex(s.(cur := s.cur + Characters(items)), rest)
    decreases |items|, 0
  {
    hide LegalItem, WriteItem, WriteItems, Characters, Lex;
    var first, others, more := WriteItem(items[0]), WriteItems(items[1..]), Characters(items[1..]);
    ItemsBegin(items);
    assert first + others + rest == first + (others + rest);
    LexItem(s, items[0], others + rest);
    LexDouble(s.(cur := s.cur + [items[0].c]), items[1..], rest);
    assert s.cur + [items[0].c] + more == s.cur + ([items[0].c] + more);
  }

  lemma LexQuoted(s: Lexer, text: string, rest: string)
    requires Idle(s) && '\'' !in text
    ensures Lex(s, "'" + text + "'" + rest) == Lex(Taken(s, text), rest)
  {
    assert "'" + text + "'" + rest == ['\''] + (text + (['\''] + rest));
    LexFirst(s, '\'', text + (['\''] + rest));
    LexSingle(Fed(s, '\''), text, ['\''] + rest);
    LexFirst(Taken(s, text).(single := true), '\'', rest);
  }

  lemma LexDoublyQuoted(s: Lexer, items: seq<Item>, rest: string)
    requires Idle(s) && Legal(InDouble(items))
    ensures Lex(s, "\"" + WriteItems(items) + "\"" + rest) == Lex(Taken(s, Characters(items)), rest)
  {
    assert "\"" + WriteItems(items) + "\"" + rest == ['"'] + (WriteItems(items) + (['"'] + rest));
    LexFirst(s, '"', WriteItems(items) + (['"'] + rest));
    LexDouble(Fed(s, '"'), items, ['"'] + rest);
    LexFirst(Taken(s, Characters(items)).(double := true), '"', rest);
  }

  lemma LexPiece(s: Lexer, p: Piece, rest: string)
    requires Idle(s) && Legal(p)
    ensures Lex(s, Write(p) + rest) == Lex(Taken(s, TextOf(p)), rest)
  {
    match p
    case Bare(c) => LexFirst(s, c, rest);
    case Escape(c) => LexTwo(s, '\\', c, rest);
    case InSingle(text) => LexQuoted(s, text, rest);
    case InDouble(items) => LexDoublyQuoted(s, items, rest);
  }

  lemma WordBegins(w: Word)
    requires w != []
    ensures WriteWord(w) == Write(w[0]) + WriteWord(w[1..]) && WordText(w) == TextOf(w[0]) + WordText(w[1..])
  {
  }

  lemma LegalPieces(w: Word)
    requires LegalWord(w)
    ensures Legal(w[0]) && (|w| > 1 ==> LegalWord(w[1..]))
  {
    hide Legal;
  }

  lemma {:induction false} LexWord(s: Lexer, w: Word, rest: string)
    requires Idle(s) && LegalWord(w)
    ensures Lex(s, WriteWord(w) + rest) == Lex(Taken(s, WordText(w)), rest)
    decreases |w|
  {
    hide Legal, Write, WriteWord, TextOf, WordText, Lex;
    LegalPieces(w);
    WordBegins(w);
    var first, others := Write(w[0]), WriteWord(w[1..]);
    var text, more := TextOf(w[0]), WordText(w[1..]);
    assert first + others + rest == first + (others + rest);
    LexPiece(s, w[0], others + rest);
    if |w| == 1 {
      NoPieces(w[1..]);
      assert others + rest == rest && text + more == text;
    } else {
      LexWord(Taken(s, text), w[1..], rest);
      assert s.cur + text + more == s.cur + (text + more);
    }
  }

  lemma NoPieces(w: Word)
    requires w == []
    ensures WriteWord(w) == "" && WordText(w) == ""
  {
  }

  lemma BlankEnds(s: Lexer, blank: char, rest: string)
    requires Idle(s) && s.hasToken && Whitespace(blank)
    ensures Lex(s, [blank] + rest) == Lex(s.(out := s.out + [s.cur], cur := "", hasToken := false), rest)
  {
    LexFirst(s, blank, rest);
    assert blank != '\'' && blank != '"' && blank != '\\';
  }

  lemma LexWordAndBlank(s: Lexer, w: Word, blank: char, rest: string)
    requires Idle(s) && !s.hasToken && s.cur == "" && LegalWord(w) && Whitespace(blank)
    ensures Lex(s, WriteWord(w) + [blank] + rest) == Lex(s.(out := s.out + [WordText(w)]), rest)
  {
    hide Whitespace, Legal, LegalWord, Fed, Lex, WriteWord, WordText;
    assert WriteWord(w) + [blank] + rest == WriteWord(w) + ([blank] + rest);
    LexWord(s, w, [blank] + rest);
    assert "" + WordText(w) == WordText(w);
    BlankEnds(Taken(s, WordText(w)), blank, rest);
  }

  lemma LineBegins(words: seq<Word>, blanks: seq<char>)
    requires |blanks| == |words| && words != []
    ensures WriteLine(words, blanks) == WriteWord(words[0]) + [blanks[0]] + WriteLine(words[1..], blanks[1..])
    ensures Texts(words) == [WordText(words[0])] + Texts(words[1..])
  {
    hide WriteWord, WordText;
  }

  predicate LegalLine(words: seq<Word>, blanks: seq<char>) {
    && |blanks| == |words|
    && (forall i :: 0 <= i < |words| ==> LegalWord(words[i]))
    && (forall i :: 0 <= i < |blanks| ==> Whitespace(blanks[i]))
  }

  lemma LegalRest(words: seq<Word>, blanks: seq<char>)
    requires LegalLine(words, blanks) && words != []
    ensures LegalWord(words[0]) && Whitespace(blanks[0]) && LegalLine(words[1..], blanks[1..])
  {
    hide LegalWord, Whitespace;
  }

  lemma {:induction false} LexLine(s: Lexer, words: seq<Word>, blanks: seq<char>)
    requires Idle(s) && !s.hasToken && s.cur == "" && |blanks| == |words| && LegalLine(words, blanks)
    ensures Lex(s, WriteLine(words, blanks)) == s.(out := s.out + Texts(words))
    decreases |words|
  {
    if words == [] {
      assert s.out + Texts(words) == s.out;
    } else {
      LexLongerLine(s, words, blanks);
    }
  }

  lemma {:induction false} LexLongerLine(s: Lexer, words: seq<Word>, blanks: seq<char>)
    requires Idle(s) && !s.hasToken && s.cur == "" && words != []
    requires |blanks| == |words| && LegalLine(words, blanks)
    ensures Lex(s, WriteLine(words, blanks)) == s.(out := s.out + Texts(words))
    decreases |words|, 0
  {
    hide LegalLine, LegalWord, Whitespace, WriteWord, WordText, WriteLine, Texts, Lex, Fed;
    LegalRest(words, blanks);
    LineBegins(words, blanks);
    var text, more := WordText(words[0]), Texts(words[1..]);
    LexWordAndBlank(s, words[0], blanks[0], WriteLine(words[1..], blanks[1..]));
    LexLine(s.(out := s.out + [text]), words[1..], blanks[1..]);
    assert s.out + [text] + more == s.out + ([text] + more);
  }

  /** Splitting gives the words of a command line: each with its bare and escaped characters and its quoted
      stretches as they stand, white space in quotes included, whatever white space lies between the words. */
  lemma LinesSplit(words: seq<Word>, blanks: seq<char>)
    requires LegalLine(words, blanks)
    ensures Words(WriteLine(words, blanks)) == Texts(words)
  {
    LexLine(START, words, blanks);
    assert [] + Texts(words) == Texts(words);
  }

  /** A word in double quotes without quote or backslash is split to itself. */
  lemma DoubleQuotedIsKept(text: string)
    requires '"' !in text && '\\' !in text
    ensures Words("\"" + text + "\"") == [text]
  {
    var items := seq(|text|, i requires 0 <= i < |text| => Item(text[i], false));
    PlainItems(text, items);
    assert Write(InDouble(items)) + "" == "\"" + text + "\"";
    LexPiece(START, InDouble(items), "");
    assert "" + text == text;
  }

  lemma {:induction false} PlainItems(text: string, items: seq<Item>)
    requires |items| == |text| && forall i :: 0 <= i < |text| ==> items[i] == Item(text[i], false)
    ensures WriteItems(items) == text && Characters(items) == text
  {
    if text != "" {
      PlainItems(text[1..], items[1..]);
    }
  }

  /** Words are separated by all that Unicode calls white space. */
  lemma SeparatorsTell(c: char)
    ensures Whitespace(c) <==> c as int in WHITE_SPACE
  {
  }

  lemma {:induction false} PlaceholdersTell(tokens: seq<string>)
    ensures Placeholders(tokens) == multiset(tokens)["{files}"]
  {
    if tokens != [] {
      PlaceholdersTell(tokens[1..]);
      assert tokens == [tokens[0]] + tokens[1..];
    }
  }

  lemma TokenLies(before: seq<string>, token: string, behind: seq<string>, k: nat)
    requires k <= |before| + |behind|
    ensures var tokens := before + [token] + behind;
            if k < |before| then tokens[k] in before
            else if k > |before| then tokens[k] in behind
            else tokens[k] == token
  {
    var tokens := before + [token] + behind;
    if k < |before| {
      assert tokens[k] == before[k];
    } else if k > |before| {
      assert tokens[k] == behind[k - |before| - 1];
    }
  }

  /** Where the template's words are `before`, the placeholder and `behind`, the expanded words hold the paths in its
      place, whatever the paths are. */
  lemma ExpansionTells(before: seq<string>, behind: seq<string>, paths: seq<string>)
    requires "{files}" !in before && "{files}" !in behind
    ensures Placeholders(before + ["{files}"] + behind) == 1
    ensures Expanded(before + ["{files}"] + behind, paths) == before + paths + behind
  {
    var tokens := before + ["{files}"] + behind;
    PlaceholdersTell(tokens);
    var k := OnePlaceholderIsReplaced(tokens, paths);
    TokenLies(before, "{files}", behind, k);
    assert tokens[..k] == before && tokens[k + 1..] == behind;
  }
}
