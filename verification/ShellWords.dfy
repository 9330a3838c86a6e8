/** Quoting words for a command line, splitting a command line into words, and the round trip
    that the changed-files formatter relies on. */
module ShellWords {
  import opened Wrappers

  /** Unicode white space. */
  predicate Whitespace(c: char) {
    || 9 as char <= c <= 13 as char
    || c in {' ', 0x85 as char, 0xA0 as char, 0x1680 as char, 0x2028 as char, 0x2029 as char, 0x202F as char,
             0x205F as char, 0x3000 as char}
    || 0x2000 as char <= c <= 0x200A as char
  }

  // ---------- the lexer ----------

  datatype Lexer = Lexer(out: seq<string>, cur: string, single: bool, double: bool, escaped: bool, hasToken: bool)

  const START := Lexer([], "", false, false, false, false)

  function Pushed(s: Lexer, c: char): Lexer {
    s.(cur := s.cur + [c], hasToken := true)
  }

  function Flushed(s: Lexer): Lexer {
    if s.hasToken then s.(out := s.out + [s.cur], cur := "", hasToken := false) else s
  }

  function Fed(s: Lexer, c: char): Lexer {
    if s.escaped then Pushed(s, c).(escaped := false)
    else if c == '\\' && !s.single then s.(escaped := true)
    else if c == '\'' && !s.double then s.(single := !s.single, hasToken := true)
    else if c == '"' && !s.single then s.(double := !s.double, hasToken := true)
    else if Whitespace(c) && !s.single && !s.double then Flushed(s)
    else Pushed(s, c)
  }

  function Lex(s: Lexer, text: string): Lexer
    decreases |text|
  {
    if text == [] then s else Lex(Fed(s, text[0]), text[1..])
  }

  function Words(text: string): seq<string> {
    Flushed(Lex(START, text)).out
  }

  class ShellLexer {
    var out: seq<string>
    var cur: string
    var single: bool
    var double: bool
    var escaped: bool
    var hasToken: bool

    ghost function Value(): Lexer
      reads this
    {
      Lexer(out, cur, single, double, escaped, hasToken)
    }

    constructor ()
      ensures Value() == START
    {
      out, cur := [], "";
      single, double, escaped, hasToken := false, false, false, false;
    }

    method Feed(c: char)
      modifies this
      ensures Value() == Fed(old(Value()), c)
    {
      if escaped {
        PushChar(c);
        escaped := false;
        return;
      }
      if c == '\\' && !single {
        escaped := true;
        return;
      }
      var quote := HandleQuote(c);
      if quote {
        return;
      }
      if Whitespace(c) && !single && !double {
        FlushToken();
      } else {
        PushChar(c);
      }
    }

    method HandleQuote(c: char) returns (toggled: bool)
      modifies this
      ensures toggled <==> (c == '\'' && !old(double)) || (c == '"' && !old(single))
      ensures Value() == if c == '\'' && !old(double) then old(Value()).(single := !old(single), hasToken := true)
                         else if c == '"' && !old(single) then old(Value()).(double := !old(double), hasToken := true)
                         else old(Value())
    {
      if c == '\'' && !double {
        single, hasToken := !single, true;
        return true;
      } else if c == '"' && !single {
        double, hasToken := !double, true;
        return true;
      }
      return false;
    }

    method PushChar(c: char)
      modifies this
      ensures Value() == Pushed(old(Value()), c)
    {
      cur := cur + [c];
      hasToken := true;
    }

    method FlushToken()
      modifies this
      ensures Value() == Flushed(old(Value()))
    {
      if hasToken {
        out, cur := out + [cur], "";
        hasToken := false;
      }
    }
  }

  method ShellWordsSplit(text: string) returns (words: seq<string>)
    ensures words == Words(text)
  {
    var lexer := new ShellLexer();
    for i := 0 to |text|
      invariant fresh(lexer)
      invariant Lex(lexer.Value(), text[i..]) == Lex(START, text)
    {
      assert text[i..][1..] == text[i + 1..];
      lexer.Feed(text[i]);
    }
    lexer.FlushToken();
    words := lexer.out;
  }

  // ---------- quoting ----------

  /** Each single quote leaves the quotes, is escaped, and enters them again. */
  function Replaced(token: string): string {
    if token == [] then []
    else (if token[0] == '\'' then "'\\''" else [token[0]]) + Replaced(token[1..])
  }

  function QuoteToken(token: string): string {
    "'" + Replaced(token) + "'"
  }

  function Joined(tokens: seq<string>): string {
    if tokens == [] then ""
    else if |tokens| == 1 then QuoteToken(tokens[0])
    else QuoteToken(tokens[0]) + " " + Joined(tokens[1..])
  }

  lemma {:induction false} LexConcat(s: Lexer, a: string, b: string)
    ensures Lex(s, a + b) == Lex(Lex(s, a), b)
    decreases |a|
  {
    if a == [] {
      assert a + b == b;
    } else {
      assert (a + b)[1..] == a[1..] + b;
      LexConcat(Fed(s, a[0]), a[1..], b);
    }
  }

  lemma LexOne(s: Lexer, c: char)
    ensures Lex(s, [c]) == Fed(s, c)
  {
  }

  lemma LexEscapedQuote(s: Lexer)
    requires s.single && !s.double && !s.escaped && s.hasToken
    ensures Lex(s, "'\\''") == Pushed(s, '\'')
  {
  }

  /** Inside single quotes the replaced text adds exactly the token. */
  lemma {:induction false} LexReplaced(s: Lexer, token: string)
    requires s.single && !s.double && !s.escaped && s.hasToken
    ensures Lex(s, Replaced(token)) == s.(cur := s.cur + token)
    decreases |token|
  {
    if token == [] {
      assert s.cur + token == s.cur;
    } else {
      var head := if token[0] == '\'' then "'\\''" else [token[0]];
      LexConcat(s, head, Replaced(token[1..]));
      if token[0] == '\'' {
        LexEscapedQuote(s);
      } else {
        LexOne(s, token[0]);
      }
      LexReplaced(Pushed(s, token[0]), token[1..]);
      assert s.cur + [token[0]] + token[1..] == s.cur + token;
    }
  }

  predicate Between(s: Lexer) {
    !s.single && !s.double && !s.escaped && !s.hasToken && s.cur == ""
  }

  lemma LexQuoted(s: Lexer, token: string)
    requires Between(s)
    ensures Lex(s, QuoteToken(token)) == s.(cur := token, hasToken := true)
  {
    LexConcat(s, "'" + Replaced(token), "'");
    LexConcat(s, "'", Replaced(token));
    LexOne(s, '\'');
    var inside := s.(single := true, hasToken := true);
    LexReplaced(inside, token);
    assert "" + token == token;
    LexOne(inside.(cur := token), '\'');
  }

  lemma {:induction false} LexJoined(s: Lexer, tokens: seq<string>)
    requires Between(s)
    ensures Flushed(Lex(s, Joined(tokens))).out == s.out + tokens
    decreases |tokens|
  {
    if tokens == [] {
    } else if |tokens| == 1 {
      LexQuoted(s, tokens[0]);
      assert tokens == [tokens[0]];
    } else {
      LexConcat(s, QuoteToken(tokens[0]) + " ", Joined(tokens[1..]));
      LexConcat(s, QuoteToken(tokens[0]), " ");
      LexQuoted(s, tokens[0]);
      LexOne(s.(cur := tokens[0], hasToken := true), ' ');
      LexJoined(s.(out := s.out + [tokens[0]]), tokens[1..]);
      assert s.out + [tokens[0]] + tokens[1..] == s.out + tokens;
    }
  }

  /** Splitting the joined quotations of any words gives back the words: empty ones, quotes,
      backslashes and white space included. */
  lemma QuotedWordsSplitBack(tokens: seq<string>)
    ensures Words(Joined(tokens)) == tokens
  {
    LexJoined(START, tokens);
    assert START.out + tokens == tokens;
  }

  /** Quoting the words of any command line gives a command line with the same words. */
  lemma RequotingKeepsWords(command: string)
    ensures Words(Joined(Words(command))) == Words(command)
  {
    QuotedWordsSplitBack(Words(command));
  }

  /** Different word lists never share a quoted command line. */
  lemma QuotingIsInjective(left: seq<string>, right: seq<string>)
    requires Joined(left) == Joined(right)
    ensures left == right
  {
    QuotedWordsSplitBack(left);
    QuotedWordsSplitBack(right);
  }

  // ---------- the formatter's command ----------

  const FILES := "{files}"

  function Placeholders(tokens: seq<string>): nat {
    if tokens == [] then 0 else (if tokens[0] == FILES then 1 else 0) + Placeholders(tokens[1..])
  }

  function Expanded(tokens: seq<string>, paths: seq<string>): seq<string> {
    if tokens == [] then []
    else (if tokens[0] == FILES then paths else [tokens[0]]) + Expanded(tokens[1..], paths)
  }

  lemma {:induction false} NoPlaceholderNoChange(tokens: seq<string>, paths: seq<string>)
    requires Placeholders(tokens) == 0
    ensures Expanded(tokens, paths) == tokens && FILES !in tokens
  {
    if tokens != [] {
      NoPlaceholderNoChange(tokens[1..], paths);
    }
  }

  /** A single placeholder is replaced in place by all the paths, in order. */
  lemma {:induction false} OnePlaceholderIsReplaced(tokens: seq<string>, paths: seq<string>) returns (k: nat)
    requires Placeholders(tokens) == 1
    ensures k < |tokens| && tokens[k] == FILES && FILES !in tokens[..k] && FILES !in tokens[k + 1..]
    ensures Expanded(tokens, paths) == tokens[..k] + paths + tokens[k + 1..]
  {
    if tokens[0] == FILES {
      k := 0;
      NoPlaceholderNoChange(tokens[1..], paths);
      assert tokens[..0] + paths + tokens[1..] == paths + tokens[1..];
    } else {
      var j := OnePlaceholderIsReplaced(tokens[1..], paths);
      k := j + 1;
      assert tokens[..k] == [tokens[0]] + tokens[1..][..j];
      assert tokens[k + 1..] == tokens[1..][j + 1..];
      assert [tokens[0]] + (tokens[1..][..j] + paths + tokens[1..][j + 1..]) == tokens[..k] + paths + tokens[k + 1..];
    }
  }

  /** The command for the selected paths, or an error without exactly one placeholder after the
      program.  Whatever the paths contain, the command runs the template's words around them. */
  method ExpandTemplate(template: string, paths: seq<string>) returns (command: Result<string>)
    ensures var tokens := Words(template);
            command.Ok? <==> Placeholders(tokens) == 1 && tokens[0] != FILES
    ensures command.Ok? ==>
              var tokens := Words(template);
              exists k :: 0 < k < |tokens| && tokens[k] == FILES &&
                          FILES !in tokens[..k] && FILES !in tokens[k + 1..] &&
                          Words(command.value) == tokens[..k] + paths + tokens[k + 1..]
  {
    var tokens := ShellWordsSplit(template);
    if Placeholders(tokens) != 1 || tokens[0] == FILES {
      return Err;
    }
    ghost var k := OnePlaceholderIsReplaced(tokens, paths);
    QuotedWordsSplitBack(Expanded(tokens, paths));
    return Ok(Joined(Expanded(tokens, paths)));
  }
}
