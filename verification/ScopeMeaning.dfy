/** What an option list means: the options as they may be written, what a run is given for each, and what the
    baseline command holds. */
module ScopeMeaning {
  import opened RustScope
  import opened Wrappers

  /** An option as it is written: alone, with its value behind an equals sign, or in front of its value. */
  datatype Written =
    | Alone(key: string)
    | Joined(key: string, value: string)
    | Apart(key: string, value: string)

  predicate StandsAlone(key: string) {
    key in {"--all-features", "--no-default-features", "--lib", "--bins", "--tests", "--examples", "--benches",
            "--all-targets", "--offline"}
  }

  predicate NeedsValue(key: string, mutation: bool) {
    || key in {"--package", "--features", "--target", "--bin", "--test", "--example", "--bench"}
    || (mutation && key in {"--re", "--file", "--shard", "--timeout", "--build-timeout"})
  }

  predicate Allowed(w: Written, mutation: bool) {
    match w
    case Alone(key) => StandsAlone(key)
    case Joined(key, value) => NeedsValue(key, mutation) && |value| > 0 && value[0] != '-'
    case Apart(key, value) => NeedsValue(key, mutation) && |value| > 0 && value[0] != '-'
  }

  predicate AllAllowed(list: seq<Written>, mutation: bool) {
    forall i :: 0 <= i < |list| ==> Allowed(list[i], mutation)
  }

  function Tokens(w: Written): Args {
    match w
    case Alone(key) => [key]
    case Joined(key, value) => [key + "=" + value]
    case Apart(key, value) => [key, value]
  }

  function AllTokens(list: seq<Written>): Args {
    if list == [] then [] else Tokens(list[0]) + AllTokens(list[1..])
  }

  /** A mutation run hands what selects targets to the tests, and what says where and how to build to cargo. */
  function Wrapper(key: string): string {
    if key in {"--lib", "--bin", "--bins", "--test", "--tests", "--example", "--examples", "--bench", "--benches",
               "--all-targets"}
    then "--cargo-test-arg="
    else if key in {"--target", "--offline"} then "--cargo-arg="
    else ""
  }

  function Plain(w: Written): Args {
    if w.Alone? then [w.key] else [w.key, w.value]
  }

  function ForMutation(w: Written): Args {
    if w.Alone? then [Wrapper(w.key) + w.key] else [Wrapper(w.key) + w.key, Wrapper(w.key) + w.value]
  }

  function GivenFor(list: seq<Written>, mutation: bool): Args {
    if list == [] then []
    else (if mutation then ForMutation(list[0]) else Plain(list[0])) + GivenFor(list[1..], mutation)
  }

  function OptionOf(w: Written): Opt {
    Opt(w.key, if w.Alone? then None else Some(w.value))
  }

  function OptionsOf(list: seq<Written>): seq<Opt> {
    if list == [] then [] else [OptionOf(list[0])] + OptionsOf(list[1..])
  }

  // ---------- the names of the options ----------

  lemma NamesTell(key: string, mutation: bool)
    ensures NeedsValue(key, mutation) <==> TakesValue(key, mutation)
    ensures StandsAlone(key) <==> Accepted(key, mutation) && !TakesValue(key, mutation)
  {
  }

  lemma MutationAllowsMore(key: string, mutation: bool)
    ensures TakesValue(key, mutation) ==> Accepted(key, true) && Accepted(key, mutation)
  {
  }

  lemma WrapperTells(key: string)
    ensures Passed(key, true) == Wrapper(key) && Passed(key, false) == ""
  {
  }

  lemma PrintedTells(w: Written, mutation: bool)
    ensures Printed(OptionOf(w), mutation) == if mutation then ForMutation(w) else Plain(w)
  {
    hide Wrapper, Passed;
    WrapperTells(w.key);
    assert "" + w.key == w.key;
    if !w.Alone? {
      assert "" + w.value == w.value;
    }
  }

  lemma {:induction false} PrintedAllTells(list: seq<Written>, mutation: bool)
    ensures PrintedAll(OptionsOf(list), mutation) == GivenFor(list, mutation)
  {
    if list != [] {
      PrintedTells(list[0], mutation);
      PrintedAllTells(list[1..], mutation);
      assert OptionsOf(list)[1..] == OptionsOf(list[1..]);
    }
  }

  // ---------- reading what was written ----------

  lemma {:induction false} EqualsIsAt(s: string, i: nat)
    requires i < |s| && s[i] == '=' && forall k :: 0 <= k < i ==> s[k] != '='
    ensures IndexOfEquals(s) == i
  {
    if i > 0 {
      EqualsIsAt(s[1..], i - 1);
    }
  }

  lemma JoinedIsRead(key: string, value: string)
    requires Accepted(key, true)
    ensures Key(key + "=" + value) == key && Inline(key + "=" + value) == Some(value)
  {
    hide Accepted;
    var s := key + "=" + value;
    KnownKeysHaveNoEquals(key);
    assert forall k :: 0 <= k < |key| ==> s[k] == key[k];
    EqualsIsAt(s, |key|);
    assert s[..|key|] == key && s[|key| + 1..] == value;
  }

  lemma FirstIsRead(w: Written, rest: Args, mutation: bool)
    requires Allowed(w, mutation)
    ensures First(Tokens(w) + rest, mutation) == Ok((OptionOf(w), |Tokens(w)|))
  {
    hide StandsAlone, NeedsValue, Accepted, TakesValue, Key, Inline;
    NamesTell(w.key, mutation);
    MutationAllowsMore(w.key, mutation);
    var args := Tokens(w) + rest;
    assert args[0] == Tokens(w)[0];
    match w
    case Alone(key) => KnownKeys(key, mutation);
    case Joined(key, value) => JoinedIsRead(key, value);
    case Apart(key, value) => KnownKeys(key, mutation);
  }

  lemma {:induction false} ParseReads(list: seq<Written>, mutation: bool)
    requires AllAllowed(list, mutation)
    ensures Parse(AllTokens(list), mutation) == Ok(OptionsOf(list))
  {
    hide Allowed, Tokens, OptionOf, First;
    if list != [] {
      var args, rest := AllTokens(list), AllTokens(list[1..]);
      FirstIsRead(list[0], rest, mutation);
      ParseReads(list[1..], mutation);
      assert args[|Tokens(list[0])|..] == rest;
    }
  }

  /** How the first option of an accepted list was written. */
  function FirstWritten(args: Args, mutation: bool): Written
    requires args != [] && First(args, mutation).Ok?
  {
    var (o, n) := First(args, mutation).value;
    if o.value.None? then Alone(o.key) else if n == 1 then Joined(o.key, o.value.value) else Apart(o.key, o.value.value)
  }

  lemma KeyAndValue(arg: string)
    ensures if Inline(arg).None? then Key(arg) == arg else arg == Key(arg) + "=" + Inline(arg).value
  {
    var i := IndexOfEquals(arg);
    if i < |arg| {
      assert arg == arg[..i] + "=" + arg[i + 1..];
    } else {
      assert arg[..i] == arg;
    }
  }

  lemma FirstWasWritten(args: Args, mutation: bool)
    requires args != [] && First(args, mutation).Ok?
    ensures Allowed(FirstWritten(args, mutation), mutation)
    ensures Tokens(FirstWritten(args, mutation)) == args[..First(args, mutation).value.1]
  {
    hide Accepted, TakesValue, StandsAlone, NeedsValue, Key, Inline;
    var key, n := Key(args[0]), First(args, mutation).value.1;
    NamesTell(key, mutation);
    KeyAndValue(args[0]);
    if n == 1 {
      assert args[..1] == [args[0]];
    } else {
      assert args[..2] == [args[0], args[1]];
    }
  }

  lemma {:induction false} AcceptedWasWritten(args: Args, mutation: bool) returns (list: seq<Written>)
    requires Parse(args, mutation).Ok?
    ensures AllAllowed(list, mutation) && AllTokens(list) == args
    decreases |args|
  {
    hide Allowed, Tokens, First, FirstWritten;
    if args == [] {
      return [];
    }
    var n := First(args, mutation).value.1;
    FirstWasWritten(args, mutation);
    var rest := AcceptedWasWritten(args[n..], mutation);
    list := [FirstWritten(args, mutation)] + rest;
    assert list[1..] == rest && args == args[..n] + args[n..];
  }

  /** An option list is accepted exactly when it is written of options that the run allows, each name alone or
      with a value of its own that is neither empty nor begins like an option. */
  lemma AcceptedExactly(args: Args, mutation: bool)
    ensures Scope(args, mutation).Ok? <==> exists list :: AllAllowed(list, mutation) && AllTokens(list) == args
  {
    if Scope(args, mutation).Ok? {
      var list := AcceptedWasWritten(args, mutation);
    }
    if list :| AllAllowed(list, mutation) && AllTokens(list) == args {
      ParseReads(list, mutation);
    }
  }

  /** What the run is given: every option with its value behind it, in the order written; a mutation run hands
      target options to the tests and build options to cargo. */
  lemma ScopeTells(list: seq<Written>, mutation: bool)
    requires AllAllowed(list, mutation)
    ensures Scope(AllTokens(list), mutation) == Ok(GivenFor(list, mutation))
  {
    ParseReads(list, mutation);
    PrintedAllTells(list, mutation);
  }

  // ---------- the baseline ----------

  /** What only narrows a mutation run. */
  predicate Narrows(w: Written) {
    w.key in {"--package", "--re", "--file", "--shard", "--timeout", "--build-timeout"}
  }

  function NotNarrowed(list: seq<Written>): seq<Written> {
    if list == [] then []
    else (if Narrows(list[0]) then [] else [list[0]]) + NotNarrowed(list[1..])
  }

  lemma {:induction false} FiltersTell(list: seq<Written>)
    ensures WithoutFilters(OptionsOf(list)) == OptionsOf(NotNarrowed(list))
  {
    if list != [] {
      FiltersTell(list[1..]);
      assert IsFilter(list[0].key) <==> Narrows(list[0]);
      hide IsFilter, Narrows;
      assert OptionsOf(list)[1..] == OptionsOf(list[1..]);
      if !Narrows(list[0]) {
        assert NotNarrowed(list)[1..] == NotNarrowed(list[1..]);
      } else {
        assert NotNarrowed(list) == NotNarrowed(list[1..]);
      }
    }
  }

  /** The baseline keeps of a mutation run's options all that do not narrow it, as they were written, without
      their wrappers. */
  lemma KeptTells(list: seq<Written>)
    requires AllAllowed(list, true)
    ensures Kept(GivenFor(list, true), 0) == GivenFor(NotNarrowed(list), false)
  {
    ParseReads(list, true);
    PrintedAllTells(list, true);
    BaselineKeepsOptions(OptionsOf(list));
    FiltersTell(list);
    PrintedAllTells(NotNarrowed(list), false);
  }

  /** The baseline's command: cargo with the toolchain, the locked tests of the workspace, what is kept; then the
      configured feature flags that are not there yet, the features, the profile, and the configured arguments
      for cargo and for the tests, in this order. */
  lemma BaselineTells(toolchain: Option<string>, kept: Args, config: Option<MutantsConfig>) returns (added: Args)
    ensures var start := (if toolchain.Some? then ["cargo", "+" + toolchain.value] else ["cargo"]) +
                         ["test", "--workspace", "--locked", "--quiet"] + kept;
            Baseline(toolchain, kept, config) ==
            if config.None? then start
            else start + added + FeatureTokens(config.value.features) +
                 (if config.value.profile.Some? then ["--profile=" + config.value.profile.value] else []) +
                 config.value.cargoArgs + config.value.testArgs
    ensures config.Some? ==>
              var start := ["cargo"] + (if toolchain.Some? then ["+" + toolchain.value] else []) +
                           ["test", "--workspace", "--locked", "--quiet"] + kept;
              && ("--all-features" in added <==> config.value.allFeatures && "--all-features" !in start)
              && ("--no-default-features" in added <==>
                  config.value.noDefaultFeatures && "--no-default-features" !in start)
              && (forall i :: 0 <= i < |added| ==> added[i] in {"--all-features", "--no-default-features"})
              && (forall i, j :: 0 <= i < j < |added| ==> added[i] == "--all-features" != added[j])
  {
    var start := CargoPrefix(toolchain) + WORKSPACE_TEST + kept;
    assert (if toolchain.Some? then ["cargo", "+" + toolchain.value] else ["cargo"]) == CargoPrefix(toolchain);
    added := [];
    if config.Some? {
      var c := config.value;
      var a := if c.allFeatures && "--all-features" !in start then ["--all-features"] else [];
      var b := if c.noDefaultFeatures && "--no-default-features" !in start then ["--no-default-features"] else [];
      added := a + b;
      assert "--all-features" != "--no-default-features";
      assert WithFlag(start, c.allFeatures, "--all-features") == start + a;
      assert WithFlag(start + a, c.noDefaultFeatures, "--no-default-features") == start + a + b;
      assert start + a + b == start + added;
    }
  }
}
