/** The option lists that a Rust evidence producer accepts, and what the unmutated baseline
    keeps of them. */
module RustScope {
  import opened Wrappers

  type Args = seq<string>

  const FLAGS: set<string> :=
    {"--all-features", "--no-default-features", "--lib", "--bins", "--tests", "--examples", "--benches",
     "--all-targets", "--offline"}

  const VALUE_FLAGS: set<string> :=
    {"--package", "--features", "--target", "--bin", "--test", "--example", "--bench"}

  const MUTATION_FLAGS: set<string> := {"--re", "--file", "--shard", "--timeout", "--build-timeout"}

  const TARGETS: set<string> :=
    {"--lib", "--bin", "--bins", "--test", "--tests", "--example", "--examples", "--bench", "--benches",
     "--all-targets"}

  /** What the baseline leaves out, each with its value. */
  const FILTERS: set<string> := MUTATION_FLAGS + {"--package"}

  predicate IsFilter(key: string) {
    key in FILTERS
  }

  predicate TakesValue(key: string, mutation: bool) {
    key in VALUE_FLAGS || (mutation && key in MUTATION_FLAGS)
  }

  predicate Accepted(key: string, mutation: bool) {
    key in FLAGS || TakesValue(key, mutation)
  }

  // ---------- parsing ----------

  function IndexOfEquals(s: string): (i: nat)
    ensures i <= |s| && (forall k :: 0 <= k < i ==> s[k] != '=') && (i < |s| ==> s[i] == '=')
  {
    if s == "" || s[0] == '=' then 0 else 1 + IndexOfEquals(s[1..])
  }

  function Key(arg: string): string {
    arg[..IndexOfEquals(arg)]
  }

  function Inline(arg: string): Option<string> {
    if IndexOfEquals(arg) == |arg| then None else Some(arg[IndexOfEquals(arg) + 1..])
  }

  predicate GoodValue(value: string) {
    value != "" && value[0] != '-'
  }

  datatype Opt = Opt(key: string, value: Option<string>)

  /** The first option and how many arguments it takes. */
  function First(args: Args, mutation: bool): (r: Result<(Opt, nat)>)
    requires args != []
    ensures r.Ok? ==> 1 <= r.value.1 <= |args| && WellFormed(r.value.0, mutation)
  {
    var key := Key(args[0]);
    if !Accepted(key, mutation) then Err
    else if TakesValue(key, mutation) then
      if Inline(args[0]).Some? then
        if GoodValue(Inline(args[0]).value) then Ok((Opt(key, Inline(args[0])), 1)) else Err
      else if |args| > 1 && GoodValue(args[1]) then Ok((Opt(key, Some(args[1])), 2))
      else Err
    else if Inline(args[0]).Some? then Err
    else Ok((Opt(key, None), 1))
  }

  predicate WellFormed(o: Opt, mutation: bool) {
    Accepted(o.key, mutation) && (o.value.Some? <==> TakesValue(o.key, mutation)) &&
    (o.value.Some? ==> GoodValue(o.value.value))
  }

  predicate AllWellFormed(opts: seq<Opt>, mutation: bool) {
    forall i :: 0 <= i < |opts| ==> WellFormed(opts[i], mutation)
  }

  function Parse(args: Args, mutation: bool): (r: Result<seq<Opt>>)
    ensures r.Ok? ==> AllWellFormed(r.value, mutation)
    decreases |args|
  {
    if args == [] then Ok([])
    else
      var (first, n) :- First(args, mutation);
      var rest :- Parse(args[n..], mutation);
      Ok([first] + rest)
  }

  // ---------- printing ----------

  const TEST_ARG := "--cargo-test-arg="
  const CARGO_ARG := "--cargo-arg="

  /** A mutation run passes target options on to the tests and build options on to cargo. */
  function Passed(key: string, mutation: bool): string {
    if !mutation then ""
    else if key in TARGETS then TEST_ARG
    else if key == "--target" || key == "--offline" then CARGO_ARG
    else ""
  }

  function Printed(o: Opt, mutation: bool): Args {
    [Passed(o.key, mutation) + o.key] + if o.value.Some? then [Passed(o.key, mutation) + o.value.value] else []
  }

  function PrintedAll(opts: seq<Opt>, mutation: bool): Args {
    if opts == [] then [] else Printed(opts[0], mutation) + PrintedAll(opts[1..], mutation)
  }

  function Scope(args: Args, mutation: bool): Result<Args> {
    var opts :- Parse(args, mutation);
    Ok(PrintedAll(opts, mutation))
  }

  lemma {:induction false} PrintedConcat(a: seq<Opt>, b: seq<Opt>, mutation: bool)
    ensures PrintedAll(a + b, mutation) == PrintedAll(a, mutation) + PrintedAll(b, mutation)
    decreases |a|
  {
    if a == [] {
      assert a + b == b;
    } else {
      assert (a + b)[0] == a[0] && (a + b)[1..] == a[1..] + b;
      PrintedConcat(a[1..], b, mutation);
    }
  }

  lemma PrintedOne(o: Opt, mutation: bool)
    ensures PrintedAll([o], mutation) == Printed(o, mutation)
  {
  }

  /** What has been read so far and what the rest of the arguments will give. */
  ghost predicate ReadSoFar(args: Args, mutation: bool, position: nat, done: seq<Opt>) {
    position <= |args| &&
    Parse(args, mutation) == match Parse(args[position..], mutation)
                             case Ok(rest) => Ok(done + rest)
                             case Err => Err
  }

  lemma ReadOneMore(args: Args, mutation: bool, position: nat, done: seq<Opt>, o: Opt, n: nat)
    requires ReadSoFar(args, mutation, position, done) && position < |args|
    requires First(args[position..], mutation) == Ok((o, n))
    ensures ReadSoFar(args, mutation, position + n, done + [o])
    ensures PrintedAll(done + [o], mutation) == PrintedAll(done, mutation) + Printed(o, mutation)
  {
    assert args[position..][n..] == args[position + n..];
    var rest := Parse(args[position + n..], mutation);
    assert rest.Ok? ==> done + ([o] + rest.value) == done + [o] + rest.value;
    PrintedConcat(done, [o], mutation);
    PrintedOne(o, mutation);
  }

  lemma ReadFails(args: Args, mutation: bool, position: nat, done: seq<Opt>)
    requires ReadSoFar(args, mutation, position, done) && position < |args|
    requires First(args[position..], mutation).Err?
    ensures Scope(args, mutation) == Err
  {
  }

  lemma NothingRead(args: Args, mutation: bool)
    ensures ReadSoFar(args, mutation, 0, [])
  {
    assert args[0..] == args;
    assert Parse(args, mutation).Ok? ==> [] + Parse(args, mutation).value == Parse(args, mutation).value;
  }

  lemma AllRead(args: Args, mutation: bool, done: seq<Opt>)
    requires ReadSoFar(args, mutation, |args|, done)
    ensures Scope(args, mutation) == Ok(PrintedAll(done, mutation))
  {
    assert args[|args|..] == [] && done + [] == done;
  }

  /** The value of an option, inline or in the next argument, and the position of its last argument. */
  method ScopeValue(args: Args, position: nat, inline_: Option<string>) returns (r: Result<(string, nat)>)
    requires position < |args|
    ensures r == if inline_.Some? then (if GoodValue(inline_.value) then Ok((inline_.value, position)) else Err)
                 else if position + 1 < |args| && GoodValue(args[position + 1])
                 then Ok((args[position + 1], position + 1))
                 else Err
  {
    var value, at := "", position;
    if inline_.Some? {
      value := inline_.value;
    } else {
      at := at + 1;
      if at == |args| {
        return Err;
      }
      value := args[at];
    }
    return if GoodValue(value) then Ok((value, at)) else Err;
  }

  method ReadOption(args: Args, mutation: bool, position: nat) returns (r: Result<(Opt, nat)>)
    requires position < |args|
    ensures r == match First(args[position..], mutation)
                 case Ok((o, n)) => Ok((o, position + n))
                 case Err => Err
    ensures r.Ok? ==> position < r.value.1 <= |args|
  {
    var key, inline_ := Key(args[position]), Inline(args[position]);
    if !(key in FLAGS || TakesValue(key, mutation)) {
      return Err;
    }
    if TakesValue(key, mutation) {
      var value := ScopeValue(args, position, inline_);
      if value.Err? {
        return Err;
      }
      return Ok((Opt(key, Some(value.value.0)), value.value.1 + 1));
    }
    return if inline_.Some? then Err else Ok((Opt(key, None), position + 1));
  }

  /** The option loop over a position; a value may be the next argument. */
  method ReadScope(args: Args, mutation: bool) returns (r: Result<Args>)
    ensures r == Scope(args, mutation)
  {
    hide First, ReadSoFar, Printed, Scope;
    var result, position := [], 0;
    ghost var done: seq<Opt> := [];
    NothingRead(args, mutation);
    while position < |args|
      invariant position <= |args| && ReadSoFar(args, mutation, position, done)
      invariant result == PrintedAll(done, mutation)
      decreases |args| - position
    {
      var option := ReadOption(args, mutation, position);
      if option.Err? {
        ReadFails(args, mutation, position, done);
        return Err;
      }
      ReadOneMore(args, mutation, position, done, option.value.0, option.value.1 - position);
      result := result + Printed(option.value.0, mutation);
      done := done + [option.value.0];
      position := option.value.1;
    }
    AllRead(args, mutation, done);
    return Ok(result);
  }

  // ---------- printing and reading again ----------

  lemma NoEquals(s: string)
    requires forall k :: 0 <= k < |s| ==> s[k] != '='
    ensures Key(s) == s && Inline(s) == None
  {
  }

  lemma KnownKeys(key: string, mutation: bool)
    requires Accepted(key, mutation)
    ensures Key(key) == key && Inline(key) == None
    ensures key != "" && key[0] == '-'
  {
    KnownKeysHaveNoEquals(key);
    NoEquals(key);
  }

  lemma KnownKeysHaveNoEquals(key: string)
    requires Accepted(key, true)
    ensures forall k :: 0 <= k < |key| ==> key[k] != '='
    ensures key != "" && key[0] == '-'
  {
  }

  lemma FirstOfPrinted(o: Opt, rest: Args)
    requires WellFormed(o, false)
    ensures First(Printed(o, false) + rest, false) == Ok((o, |Printed(o, false)|))
  {
    hide Accepted, TakesValue, Key, Inline, GoodValue;
    KnownKeys(o.key, false);
    var args := Printed(o, false) + rest;
    assert args[0] == "" + o.key == o.key;
    if o.value.Some? {
      assert args[1] == "" + o.value.value == o.value.value;
    }
  }

  lemma {:induction false} ParseOfPrinted(opts: seq<Opt>)
    requires AllWellFormed(opts, false)
    ensures Parse(PrintedAll(opts, false), false) == Ok(opts)
  {
    if opts != [] {
      var rest := PrintedAll(opts[1..], false);
      FirstOfPrinted(opts[0], rest);
      ParseOfPrinted(opts[1..]);
      assert (Printed(opts[0], false) + rest)[|Printed(opts[0], false)|..] == rest;
      assert [opts[0]] + opts[1..] == opts;
    }
  }

  /** What is printed for a coverage run is accepted again and printed as it is. */
  lemma ScopeIsIdempotent(args: Args)
    requires Scope(args, false).Ok?
    ensures Scope(Scope(args, false).value, false) == Scope(args, false)
  {
    ParseOfPrinted(Parse(args, false).value);
  }

  // ---------- the baseline ----------

  predicate StartsWith(prefix: string, s: string) {
    prefix <= s
  }

  /** A token as the unmutated tests take it. */
  function Unwrapped(token: string): string {
    if StartsWith(CARGO_ARG, token) then token[|CARGO_ARG|..]
    else if StartsWith(TEST_ARG, token) then token[|TEST_ARG|..]
    else token
  }

  /** What the baseline's loop keeps from `position` on: it skips a filter and the token behind it. */
  function Kept(selected: Args, position: nat): Args
    decreases |selected| - position
  {
    if position >= |selected| then []
    else if IsFilter(selected[position]) then Kept(selected, position + 2)
    else [Unwrapped(selected[position])] + Kept(selected, position + 1)
  }

  method Unwrap(key: string) returns (argument: string)
    ensures argument == Unwrapped(key)
  {
    if StartsWith(CARGO_ARG, key) {
      return key[|CARGO_ARG|..];
    }
    return if StartsWith(TEST_ARG, key) then key[|TEST_ARG|..] else key;
  }

  method BaselineTokens(selected: Args) returns (tokens: Args)
    ensures tokens == Kept(selected, 0)
  {
    hide IsFilter, Unwrapped;
    tokens := [];
    var position := 0;
    while position < |selected|
      invariant position >= 0
      invariant tokens + Kept(selected, position) == Kept(selected, 0)
      decreases |selected| - position
    {
      if IsFilter(selected[position]) {
        position := position + 2;
      } else {
        var argument := Unwrap(selected[position]);
        Appended(tokens, argument, Kept(selected, position + 1));
        tokens := tokens + [argument];
        position := position + 1;
      }
    }
  }

  lemma Appended(done: Args, token: string, rest: Args)
    ensures done + ([token] + rest) == done + [token] + rest
  {
  }

  function WithoutFilters(opts: seq<Opt>): seq<Opt> {
    if opts == [] then []
    else (if IsFilter(opts[0].key) then [] else [opts[0]]) + WithoutFilters(opts[1..])
  }

  lemma {:induction false} KeptFrom(a: Args, b: Args, position: nat)
    ensures Kept(a + b, |a| + position) == Kept(b, position)
    decreases |b| - position
  {
    if position < |b| {
      assert (a + b)[|a| + position] == b[position];
      assert |a| + position + 2 == |a| + (position + 2) && |a| + position + 1 == |a| + (position + 1);
      KeptFrom(a, b, position + 2);
      KeptFrom(a, b, position + 1);
    }
  }

  lemma Unwrapping(key: string, token: string)
    requires Accepted(key, true)
    requires token == key || GoodValue(token)
    ensures Unwrapped(Passed(key, true) + token) == token
    ensures !IsFilter(key) ==> !IsFilter(Passed(key, true) + token)
  {
    KnownKeysHaveNoEquals(key);
    var passed := Passed(key, true) + token;
    assert TEST_ARG[8] == 't' && CARGO_ARG[8] == 'a';
    if passed[0] == '-' && Passed(key, true) == "" {
      assert passed == key;
      assert CARGO_ARG[11] == '=' && TEST_ARG[16] == '=';
    } else if Passed(key, true) != "" {
      WrappedIsNoFilter(Passed(key, true), token);
    } else {
      assert passed == token;
      KnownFiltersStartWithDash(token);
    }
  }

  lemma KnownFiltersStartWithDash(token: string)
    requires GoodValue(token)
    ensures !IsFilter(token)
  {
  }

  lemma WrappedIsNoFilter(wrapper: string, token: string)
    requires wrapper == TEST_ARG || wrapper == CARGO_ARG
    ensures !IsFilter(wrapper + token)
    ensures Unwrapped(wrapper + token) == token
  {
    var s := wrapper + token;
    assert s[2] == 'c';
    assert TEST_ARG[8] == 't' && CARGO_ARG[8] == 'a' && s[8] == wrapper[8];
    assert s[|wrapper|..] == token && wrapper <= s;
  }

  lemma FiltersArePlain(o: Opt)
    requires WellFormed(o, true) && IsFilter(o.key)
    ensures o.value.Some? && Passed(o.key, true) == ""
  {
  }

  lemma KeptOption(o: Opt, rest: Args)
    requires WellFormed(o, true)
    ensures Kept(Printed(o, true) + rest, 0) == (if IsFilter(o.key) then [] else Printed(o, false)) + Kept(rest, 0)
  {
    hide Accepted, TakesValue, GoodValue, IsFilter, Unwrapped;
    var a := Printed(o, true);
    var s := a + rest;
    assert Passed(o.key, false) == "" && "" + o.key == o.key;
    KeptFrom(a, rest, 0);
    assert s[0] == a[0];
    if IsFilter(o.key) {
      FiltersArePlain(o);
      assert s[0] == o.key && |a| == 2;
    } else {
      Unwrapping(o.key, o.key);
      if o.value.Some? {
        assert s[1] == a[1] && "" + o.value.value == o.value.value;
        Unwrapping(o.key, o.value.value);
      }
    }
  }

  /** The loop that skips two tokens stays aligned with options and their values: it keeps exactly
      the options that are no filters, as a coverage run would print them. */
  lemma {:induction false} BaselineKeepsOptions(opts: seq<Opt>)
    requires AllWellFormed(opts, true)
    ensures Kept(PrintedAll(opts, true), 0) == PrintedAll(WithoutFilters(opts), false)
  {
    if opts != [] {
      KeptOption(opts[0], PrintedAll(opts[1..], true));
      BaselineKeepsOptions(opts[1..]);
      if !IsFilter(opts[0].key) {
        assert WithoutFilters(opts)[1..] == WithoutFilters(opts[1..]);
      } else {
        assert WithoutFilters(opts) == WithoutFilters(opts[1..]);
      }
    }
  }

  /** The arguments without the filters and their values. */
  function Unfiltered(args: Args): Args
    decreases |args|
  {
    if args == [] then []
    else
      var first := First(args, true);
      if first.Err? then args
      else (if IsFilter(first.value.0.key) then [] else args[..first.value.1]) + Unfiltered(args[first.value.1..])
  }

  lemma FirstOfPart(args: Args, rest: Args)
    requires args != [] && First(args, true).Ok? && !IsFilter(First(args, true).value.0.key)
    ensures var n := First(args, true).value.1; First(args[..n] + rest, false) == First(args, true)
  {
  }

  lemma {:induction false} ParseUnfiltered(args: Args)
    requires Parse(args, true).Ok?
    ensures Parse(Unfiltered(args), false) == Ok(WithoutFilters(Parse(args, true).value))
    decreases |args|
  {
    if args != [] {
      var first := First(args, true).value;
      var rest := args[first.1..];
      ParseUnfiltered(rest);
      var opts := Parse(args, true).value;
      assert opts[0] == first.0 && opts[1..] == Parse(rest, true).value;
      if IsFilter(first.0.key) {
        assert Unfiltered(args) == Unfiltered(rest) && WithoutFilters(opts) == WithoutFilters(opts[1..]);
      } else {
        FirstOfPart(args, Unfiltered(rest));
        assert (args[..first.1] + Unfiltered(rest))[first.1..] == Unfiltered(rest);
      }
    }
  }

  /** For every accepted mutation option list, the scope that the baseline extracts is the coverage
      scope of the same list without package, filter, shard and timeout options. */
  lemma BaselineIsUnfilteredScope(args: Args)
    requires Scope(args, true).Ok?
    ensures Scope(Unfiltered(args), false) == Ok(Kept(Scope(args, true).value, 0))
  {
    ParseUnfiltered(args);
    BaselineKeepsOptions(Parse(args, true).value);
  }

  // ---------- the whole baseline command ----------

  /** The settings of the mutants configuration file that change what is built and tested. */
  datatype MutantsConfig = MutantsConfig(allFeatures: bool, noDefaultFeatures: bool, features: seq<string>,
                                         profile: Option<string>, cargoArgs: Args, testArgs: Args)

  function CargoPrefix(toolchain: Option<string>): Args {
    ["cargo"] + if toolchain.Some? then ["+" + toolchain.value] else []
  }

  const WORKSPACE_TEST: Args := ["test", "--workspace", "--locked", "--quiet"]

  /** A flag that the configuration sets is added unless it is there already. */
  function WithFlag(tokens: Args, wanted: bool, flag: string): (r: Args)
    ensures tokens <= r && (wanted ==> flag in r)
    ensures r == tokens || r == tokens + [flag]
  {
    if wanted && flag !in tokens then tokens + [flag] else tokens
  }

  function FeatureTokens(features: seq<string>): (r: Args)
    ensures |r| == |features| && forall i :: 0 <= i < |r| ==> r[i] == "--features=" + features[i]
  {
    seq(|features|, i requires 0 <= i < |features| => "--features=" + features[i])
  }

  function WithSettings(tokens: Args, config: MutantsConfig): (r: Args)
    ensures tokens <= r
  {
    var flagged := WithFlag(WithFlag(tokens, config.allFeatures, "--all-features"), config.noDefaultFeatures,
                            "--no-default-features");
    flagged + FeatureTokens(config.features) +
    (if config.profile.Some? then ["--profile=" + config.profile.value] else []) + config.cargoArgs + config.testArgs
  }

  function Baseline(toolchain: Option<string>, kept: Args, config: Option<MutantsConfig>): Args {
    var tokens := CargoPrefix(toolchain) + WORKSPACE_TEST + kept;
    if config.None? then tokens else WithSettings(tokens, config.value)
  }

  method MutationBaseline(toolchain: Option<string>, args: Args, config: Option<MutantsConfig>)
    returns (r: Result<Args>)
    ensures r == match Scope(args, true)
                 case Ok(selected) => Ok(Baseline(toolchain, Kept(selected, 0), config))
                 case Err => Err
  {
    var selected := ReadScope(args, true);
    if selected.Err? {
      return Err;
    }
    var kept := BaselineTokens(selected.value);
    var tokens := CargoPrefix(toolchain) + WORKSPACE_TEST + kept;
    if config.None? {
      return Ok(tokens);
    }
    tokens := WithFlag(tokens, config.value.allFeatures, "--all-features");
    tokens := WithFlag(tokens, config.value.noDefaultFeatures, "--no-default-features");
    tokens := tokens + FeatureTokens(config.value.features);
    if config.value.profile.Some? {
      tokens := tokens + ["--profile=" + config.value.profile.value];
    } else {
      assert tokens + [] == tokens;
    }
    tokens := tokens + config.value.cargoArgs + config.value.testArgs;
    return Ok(tokens);
  }

  lemma PrefixHas(prefix: Args, whole: Args, token: string)
    requires prefix <= whole && token in prefix
    ensures token in whole
  {
    var i :| 0 <= i < |prefix| && prefix[i] == token;
    assert whole[i] == token;
  }

  /** Whatever the options and the configuration say, the baseline tests the whole workspace in the scope
      that it keeps, and it honours the configured flags. */
  lemma BaselineTestsWorkspace(toolchain: Option<string>, kept: Args, config: Option<MutantsConfig>)
    ensures var command := Baseline(toolchain, kept, config);
            && CargoPrefix(toolchain) + WORKSPACE_TEST + kept <= command
            && "test" in command && "--workspace" in command
            && (config.Some? && config.value.allFeatures ==> "--all-features" in command)
            && (config.Some? && config.value.noDefaultFeatures ==> "--no-default-features" in command)
  {
    var tokens := CargoPrefix(toolchain) + WORKSPACE_TEST + kept;
    var command := Baseline(toolchain, kept, config);
    assert WORKSPACE_TEST[0] == "test" && WORKSPACE_TEST[1] == "--workspace";
    PrefixHas(tokens, command, "test");
    PrefixHas(tokens, command, "--workspace");
    if config.Some? {
      FlagsAreKept(tokens, config.value);
    }
  }

  lemma FlagsAreKept(tokens: Args, config: MutantsConfig)
    ensures config.allFeatures ==> "--all-features" in WithSettings(tokens, config)
    ensures config.noDefaultFeatures ==> "--no-default-features" in WithSettings(tokens, config)
  {
    var first := WithFlag(tokens, config.allFeatures, "--all-features");
    var second := WithFlag(first, config.noDefaultFeatures, "--no-default-features");
    var command := WithSettings(tokens, config);
    assert first <= second <= command;
    if config.allFeatures {
      PrefixHas(first, command, "--all-features");
    }
    if config.noDefaultFeatures {
      PrefixHas(second, command, "--no-default-features");
    }
  }

  // ---------- looking for an option without parsing ----------

  predicate Mentions(args: Args, keys: set<string>) {
    exists i :: 0 <= i < |args| && Key(args[i]) in keys
  }

  predicate HasOption(opts: seq<Opt>, keys: set<string>) {
    exists i :: 0 <= i < |opts| && opts[i].key in keys
  }

  lemma ValuesAreNoKeys(value: string, keys: set<string>, mutation: bool)
    requires GoodValue(value) && forall key :: key in keys ==> Accepted(key, mutation)
    ensures Key(value) !in keys
  {
  }

  lemma MentionsParts(a: Args, b: Args, keys: set<string>)
    ensures Mentions(a + b, keys) <==> Mentions(a, keys) || Mentions(b, keys)
  {
    var s := a + b;
    if i :| 0 <= i < |a| && Key(a[i]) in keys {
      assert Key(s[i]) in keys;
    }
    if i :| 0 <= i < |b| && Key(b[i]) in keys {
      assert Key(s[|a| + i]) in keys;
    }
  }

  lemma HasOptionParts(o: Opt, rest: seq<Opt>, keys: set<string>)
    ensures HasOption([o] + rest, keys) <==> o.key in keys || HasOption(rest, keys)
  {
    var s := [o] + rest;
    if o.key in keys {
      assert s[0].key in keys;
    }
    if i :| 0 <= i < |rest| && rest[i].key in keys {
      assert s[i + 1].key in keys;
    }
  }

  lemma FirstMentions(args: Args, keys: set<string>, mutation: bool)
    requires args != [] && First(args, mutation).Ok? && forall key :: key in keys ==> Accepted(key, mutation)
    ensures var (o, n) := First(args, mutation).value; Mentions(args[..n], keys) <==> o.key in keys
  {
    var (o, n) := First(args, mutation).value;
    var part := args[..n];
    assert part[0] == args[0] && o.key == Key(args[0]);
    if n == 2 {
      ValuesAreNoKeys(args[1], keys, mutation);
      assert part[1] == args[1];
    }
  }

  /** In an accepted list, looking at each argument finds a known option exactly when the list
      holds that option: no value is ever taken for one.  This is how the producers look for a
      package or for targets. */
  lemma {:induction false} MentionsExactly(args: Args, keys: set<string>, mutation: bool)
    requires Parse(args, mutation).Ok? && forall key :: key in keys ==> Accepted(key, mutation)
    ensures Mentions(args, keys) <==> HasOption(Parse(args, mutation).value, keys)
    decreases |args|
  {
    if args != [] {
      var (o, n) := First(args, mutation).value;
      MentionsExactly(args[n..], keys, mutation);
      assert args == args[..n] + args[n..];
      MentionsParts(args[..n], args[n..], keys);
      FirstMentions(args, keys, mutation);
      HasOptionParts(o, Parse(args[n..], mutation).value, keys);
    }
  }
}
