/** Windows of tokens and the matches among them: every two windows with the same tokens that are not
    too close in one file, in the order in which the index comes to them. */
module CloneWindows {
  import opened CloneReport
  import opened Clones
  import opened PathOrder
  import opened Wrappers

  /** The place of a window of consecutive tokens. */
  datatype Location = Location(stream: nat, startLine: nat, endLine: nat, startIdx: nat, endIdx: nat)

  /** The least number of tokens and of lines that make a clone. */
  datatype Sizes = Sizes(tokens: nat, lines: nat)

  // ---------- windows ----------

  function WindowAt(streams: seq<Stream>, s: nat, i: nat, sizes: Sizes): Location
    requires s < |streams| && 0 < sizes.tokens && i + sizes.tokens <= |streams[s].tokens|
  {
    var tokens := streams[s].tokens;
    var end := i + sizes.tokens - 1;
    Location(s, tokens[i].line, tokens[end].line, i, end)
  }

  predicate Tall(location: Location, sizes: Sizes) {
    Less(location.endLine, location.startLine) + 1 >= sizes.lines
  }

  function WindowCount(tokens: seq<Token>, sizes: Sizes): nat {
    if |tokens| < sizes.tokens then 0 else |tokens| - sizes.tokens + 1
  }

  /** The windows of one stream that span enough lines, of those that start before `count`. */
  function WindowsBefore(streams: seq<Stream>, s: nat, count: nat, sizes: Sizes): seq<Location>
    requires s < |streams| && 0 < sizes.tokens && count <= WindowCount(streams[s].tokens, sizes)
  {
    if count == 0 then []
    else
      var last := WindowAt(streams, s, count - 1, sizes);
      WindowsBefore(streams, s, count - 1, sizes) + if Tall(last, sizes) then [last] else []
  }

  /** The windows of the first `n` streams. */
  function WindowsOf(streams: seq<Stream>, n: nat, sizes: Sizes): seq<Location>
    requires n <= |streams| && 0 < sizes.tokens
  {
    if n == 0 then []
    else
      WindowsOf(streams, n - 1, sizes) +
      WindowsBefore(streams, n - 1, WindowCount(streams[n - 1].tokens, sizes), sizes)
  }

  ghost predicate IsWindow(streams: seq<Stream>, location: Location, sizes: Sizes) {
    && location.stream < |streams| && 0 < sizes.tokens
    && location.startIdx + sizes.tokens <= |streams[location.stream].tokens|
    && location == WindowAt(streams, location.stream, location.startIdx, sizes)
    && Tall(location, sizes)
  }

  lemma {:induction false} WindowsBeforeExactly(streams: seq<Stream>, s: nat, count: nat, sizes: Sizes, l: Location)
    requires s < |streams| && 0 < sizes.tokens && count <= WindowCount(streams[s].tokens, sizes)
    ensures l in WindowsBefore(streams, s, count, sizes) <==>
            IsWindow(streams, l, sizes) && l.stream == s && l.startIdx < count
  {
    if count > 0 {
      WindowsBeforeExactly(streams, s, count - 1, sizes, l);
    }
  }

  /** The windows are exactly the runs of tokens of the given length that span enough lines. */
  lemma {:induction false} WindowsExactly(streams: seq<Stream>, n: nat, sizes: Sizes, l: Location)
    requires n <= |streams| && 0 < sizes.tokens
    ensures l in WindowsOf(streams, n, sizes) <==> IsWindow(streams, l, sizes) && l.stream < n
  {
    if n > 0 {
      WindowsExactly(streams, n - 1, sizes, l);
      WindowsBeforeExactly(streams, n - 1, WindowCount(streams[n - 1].tokens, sizes), sizes, l);
    }
  }

  // ---------- pairs of windows ----------

  /** Both windows lie in one file and the later one begins at most `lines` lines behind the other. */
  predicate TooClose(streams: seq<Stream>, previous: Location, location: Location, lines: nat)
    requires previous.stream < |streams| && location.stream < |streams|
  {
    && streams[previous.stream].path == streams[location.stream].path
    && location.startLine <= Min(previous.endLine + lines, USIZE_MAX)
  }

  predicate SameTokens(streams: seq<Stream>, left: Location, right: Location) {
    var a := TokenSlice(streams, left.stream, left.startIdx, left.endIdx);
    var b := TokenSlice(streams, right.stream, right.startIdx, right.endIdx);
    a.Some? && b.Some? && KindsMatch(a.value, b.value)
  }

  predicate Pairs(streams: seq<Stream>, previous: Location, location: Location, lines: nat) {
    && previous.stream < |streams| && location.stream < |streams|
    && !TooClose(streams, previous, location, lines) && SameTokens(streams, previous, location)
  }

  predicate AllKnown(streams: seq<Stream>, windows: seq<Location>) {
    forall k :: 0 <= k < |windows| ==> windows[k].stream < |streams|
  }

  /** By path, then stream, then position. */
  predicate ComesFirst(streams: seq<Stream>, left: Location, right: Location)
    requires left.stream < |streams| && right.stream < |streams|
  {
    var a, b := streams[left.stream].path, streams[right.stream].path;
    && NotAfter(a, b)
    && (a == b ==> left.stream < right.stream || (left.stream == right.stream && left.startIdx <= right.startIdx))
  }

  function MatchOf(a: Location, b: Location): Match {
    Match(a.stream, a.startLine, a.endLine, a.startIdx, a.endIdx, b.stream, b.startLine, b.endLine, b.startIdx,
          b.endIdx)
  }

  function RawMatch(streams: seq<Stream>, previous: Location, location: Location): Match
    requires previous.stream < |streams| && location.stream < |streams|
  {
    if ComesFirst(streams, previous, location) then MatchOf(previous, location) else MatchOf(location, previous)
  }

  /** The matches of a window with earlier ones. */
  function FoundBy(streams: seq<Stream>, earlier: seq<Location>, location: Location, lines: nat): seq<Match> {
    if earlier == [] then []
    else
      var previous := earlier[|earlier| - 1];
      FoundBy(streams, earlier[..|earlier| - 1], location, lines) +
      if Pairs(streams, previous, location, lines) then [RawMatch(streams, previous, location)] else []
  }

  /** The matches among a list of windows, each window with all before it. */
  function Found(streams: seq<Stream>, windows: seq<Location>, lines: nat): seq<Match> {
    if windows == [] then []
    else
      var earlier := windows[..|windows| - 1];
      Found(streams, earlier, lines) + FoundBy(streams, earlier, windows[|windows| - 1], lines)
  }

  /** Every equal pair of windows, in the order in which the index comes to them. */
  function RawMatches(streams: seq<Stream>, sizes: Sizes): seq<Match>
    requires 0 < sizes.tokens
  {
    Found(streams, WindowsOf(streams, |streams|, sizes), sizes.lines)
  }

  // ---------- what the raw matches are ----------

  /** The order in which the index comes to the windows. */
  predicate Earlier(left: Location, right: Location) {
    left.stream < right.stream || (left.stream == right.stream && left.startIdx < right.startIdx)
  }

  ghost predicate InSequence(windows: seq<Location>) {
    forall i, j :: 0 <= i < j < |windows| ==> Earlier(windows[i], windows[j])
  }

  lemma {:induction false} WindowsBeforeInSequence(streams: seq<Stream>, s: nat, count: nat, sizes: Sizes)
    requires s < |streams| && 0 < sizes.tokens && count <= WindowCount(streams[s].tokens, sizes)
    ensures InSequence(WindowsBefore(streams, s, count, sizes))
  {
    if count > 0 {
      WindowsBeforeInSequence(streams, s, count - 1, sizes);
      forall l | l in WindowsBefore(streams, s, count - 1, sizes) ensures l.stream == s && l.startIdx < count - 1 {
        WindowsBeforeExactly(streams, s, count - 1, sizes, l);
      }
    }
  }

  lemma {:induction false} WindowsInSequence(streams: seq<Stream>, n: nat, sizes: Sizes)
    requires n <= |streams| && 0 < sizes.tokens
    ensures InSequence(WindowsOf(streams, n, sizes))
  {
    if n > 0 {
      var count := WindowCount(streams[n - 1].tokens, sizes);
      var before, own := WindowsOf(streams, n - 1, sizes), WindowsBefore(streams, n - 1, count, sizes);
      WindowsInSequence(streams, n - 1, sizes);
      WindowsBeforeInSequence(streams, n - 1, count, sizes);
      forall l | l in before ensures l.stream < n - 1 {
        WindowsExactly(streams, n - 1, sizes, l);
      }
      forall l | l in own ensures l.stream == n - 1 {
        WindowsBeforeExactly(streams, n - 1, count, sizes, l);
      }
    }
  }

  ghost predicate FoundAt(streams: seq<Stream>, earlier: seq<Location>, i: nat, location: Location, lines: nat,
                          m: Match)
  {
    i < |earlier| && Pairs(streams, earlier[i], location, lines) && m == RawMatch(streams, earlier[i], location)
  }

  lemma {:induction false} FoundByExactly(streams: seq<Stream>, earlier: seq<Location>, location: Location, lines: nat,
                                          m: Match)
    ensures m in FoundBy(streams, earlier, location, lines) <==>
            exists i: nat :: FoundAt(streams, earlier, i, location, lines, m)
  {
    if earlier != [] {
      var last := |earlier| - 1;
      var before := earlier[..last];
      FoundByExactly(streams, before, location, lines, m);
      if i: nat :| FoundAt(streams, before, i, location, lines, m) {
        assert FoundAt(streams, earlier, i, location, lines, m);
      }
      if i: nat :| FoundAt(streams, earlier, i, location, lines, m) {
        assert i < last ==> FoundAt(streams, before, i, location, lines, m);
      }
      assert FoundAt(streams, earlier, last, location, lines, m) <==>
             Pairs(streams, earlier[last], location, lines) && m == RawMatch(streams, earlier[last], location);
    }
  }

  ghost predicate FoundIn(streams: seq<Stream>, windows: seq<Location>, i: nat, j: nat, lines: nat, m: Match) {
    i < j < |windows| && Pairs(streams, windows[i], windows[j], lines) &&
    m == RawMatch(streams, windows[i], windows[j])
  }

  lemma {:induction false} FoundExactly(streams: seq<Stream>, windows: seq<Location>, lines: nat, m: Match)
    ensures m in Found(streams, windows, lines) <==> exists i: nat, j: nat :: FoundIn(streams, windows, i, j, lines, m)
  {
    hide Pairs, RawMatch;
    if windows != [] {
      var last := |windows| - 1;
      var earlier := windows[..last];
      FoundExactly(streams, earlier, lines, m);
      FoundByExactly(streams, earlier, windows[last], lines, m);
      if i: nat, j: nat :| FoundIn(streams, earlier, i, j, lines, m) {
        assert FoundIn(streams, windows, i, j, lines, m);
      }
      if i: nat :| FoundAt(streams, earlier, i, windows[last], lines, m) {
        assert FoundIn(streams, windows, i, last, lines, m);
      }
      if i: nat, j: nat :| FoundIn(streams, windows, i, j, lines, m) {
        assert if j < last then FoundIn(streams, earlier, i, j, lines, m)
               else FoundAt(streams, earlier, i, windows[last], lines, m);
      }
    }
  }

  /** Two windows that the index must join. */
  ghost predicate Twins(streams: seq<Stream>, sizes: Sizes, left: Location, right: Location) {
    && IsWindow(streams, left, sizes) && IsWindow(streams, right, sizes)
    && Earlier(left, right) && Pairs(streams, left, right, sizes.lines)
  }

  ghost predicate TwinMatch(streams: seq<Stream>, sizes: Sizes, left: Location, right: Location, m: Match) {
    Twins(streams, sizes, left, right) && m == RawMatch(streams, left, right)
  }

  lemma {:induction false} FoundAreTwins(streams: seq<Stream>, sizes: Sizes, i: nat, j: nat, m: Match)
    requires 0 < sizes.tokens && FoundIn(streams, WindowsOf(streams, |streams|, sizes), i, j, sizes.lines, m)
    ensures var windows := WindowsOf(streams, |streams|, sizes);
            TwinMatch(streams, sizes, windows[i], windows[j], m)
  {
    hide Pairs, RawMatch;
    var windows := WindowsOf(streams, |streams|, sizes);
    WindowsInSequence(streams, |streams|, sizes);
    WindowsExactly(streams, |streams|, sizes, windows[i]);
    WindowsExactly(streams, |streams|, sizes, windows[j]);
  }

  lemma {:induction false} SequenceOrders(windows: seq<Location>, i: nat, j: nat)
    requires InSequence(windows) && i < |windows| && j < |windows| && Earlier(windows[i], windows[j])
    ensures i < j
  {
  }

  lemma {:induction false} TwinsAreFound(streams: seq<Stream>, sizes: Sizes, l: Location, r: Location, m: Match)
    returns (i: nat, j: nat)
    requires 0 < sizes.tokens && TwinMatch(streams, sizes, l, r, m)
    ensures FoundIn(streams, WindowsOf(streams, |streams|, sizes), i, j, sizes.lines, m)
  {
    hide Pairs, RawMatch;
    var windows := WindowsOf(streams, |streams|, sizes);
    WindowsExactly(streams, |streams|, sizes, l);
    WindowsExactly(streams, |streams|, sizes, r);
    hide IsWindow;
    i :| i < |windows| && windows[i] == l;
    j :| j < |windows| && windows[j] == r;
    WindowsInSequence(streams, |streams|, sizes);
    SequenceOrders(windows, i, j);
  }

  /** The raw matches are exactly those of two windows of tokens, of the least length and enough lines,
      with the same tokens and not too close to each other: none is missed and none is made up. */
  lemma {:induction false} RawMatchesExactly(streams: seq<Stream>, sizes: Sizes, m: Match)
    requires 0 < sizes.tokens
    ensures m in RawMatches(streams, sizes) <==> exists l, r :: TwinMatch(streams, sizes, l, r, m)
  {
    hide FoundIn, TwinMatch;
    var windows := WindowsOf(streams, |streams|, sizes);
    FoundExactly(streams, windows, sizes.lines, m);
    if i: nat, j: nat :| FoundIn(streams, windows, i, j, sizes.lines, m) {
      FoundAreTwins(streams, sizes, i, j, m);
      FoundInside(streams, windows, i, j, sizes.lines, m);
      assert TwinMatch(streams, sizes, windows[i], windows[j], m);
    }
    if l, r :| TwinMatch(streams, sizes, l, r, m) {
      var i, j := TwinsAreFound(streams, sizes, l, r, m);
      assert FoundIn(streams, windows, i, j, sizes.lines, m);
    }
  }

  lemma {:induction false} FoundInside(streams: seq<Stream>, windows: seq<Location>, i: nat, j: nat, lines: nat,
                                       m: Match)
    requires FoundIn(streams, windows, i, j, lines, m)
    ensures i < |windows| && j < |windows|
  {
  }

  /** No stream is longer than an address can tell. */
  ghost predicate Addressable(streams: seq<Stream>) {
    forall s :: 0 <= s < |streams| ==> |streams[s].tokens| <= USIZE_MAX
  }

  lemma {:induction false} KindsMatchBack(a: seq<Token>, b: seq<Token>)
    requires KindsMatch(a, b)
    ensures KindsMatch(b, a)
  {
  }

  lemma {:induction false} TwinsMatch(streams: seq<Stream>, sizes: Sizes, l: Location, r: Location)
    requires Twins(streams, sizes, l, r) && Addressable(streams)
    ensures Window(streams, RawMatch(streams, l, r), sizes.tokens, sizes.lines)
  {
    hide KindsMatch, Verified;
    VerifiedSlicesMatch(streams, RawMatch(streams, l, r));
    KindsMatchBack(TokenSlice(streams, l.stream, l.startIdx, l.endIdx).value,
                   TokenSlice(streams, r.stream, r.startIdx, r.endIdx).value);
  }

  /** Every raw match is a verified window of the least sizes, and its start lines are those of its
      first tokens. */
  lemma {:induction false} RawMatchIsWindow(streams: seq<Stream>, sizes: Sizes, m: Match)
    requires 0 < sizes.tokens && Addressable(streams) && m in RawMatches(streams, sizes)
    ensures Window(streams, m, sizes.tokens, sizes.lines)
    ensures m.startA == streams[m.streamA].tokens[m.startIdxA].line
    ensures m.startB == streams[m.streamB].tokens[m.startIdxB].line
  {
    RawMatchesExactly(streams, sizes, m);
    var l, r :| TwinMatch(streams, sizes, l, r, m);
    TwinsMatch(streams, sizes, l, r);
  }

  predicate Ascending(at: seq<nat>, below: nat) {
    at == [] || (at[|at| - 1] < below && Ascending(at[..|at| - 1], at[|at| - 1]))
  }

  lemma {:induction false} AscendingIsBelow(at: seq<nat>, below: nat)
    requires Ascending(at, below)
    ensures forall i :: 0 <= i < |at| ==> at[i] < below
  {
    if at != [] {
      AscendingIsBelow(at[..|at| - 1], at[|at| - 1]);
    }
  }

  lemma {:induction false} LastIsLast(at: seq<nat>, last: nat)
    requires Ascending(at, last + 1)
    ensures if last in at then at == at[..|at| - 1] + [last] && Ascending(at[..|at| - 1], last) else Ascending(at, last)
  {
    if at != [] {
      AscendingIsBelow(at[..|at| - 1], at[|at| - 1]);
    }
  }

  /** The matches of a window with the earlier windows at these positions. */
  function MatchesAt(streams: seq<Stream>, earlier: seq<Location>, location: Location, at: seq<nat>): seq<Match>
    requires location.stream < |streams| && AllKnown(streams, earlier)
    requires forall i :: 0 <= i < |at| ==> at[i] < |earlier|
  {
    seq(|at|, i requires 0 <= i < |at| => RawMatch(streams, earlier[at[i]], location))
  }

  lemma {:induction false} MatchesAtLast(streams: seq<Stream>, earlier: seq<Location>, location: Location,
                                         fewer: seq<nat>, last: nat)
    requires location.stream < |streams| && AllKnown(streams, earlier)
    requires last + 1 == |earlier| && forall i :: 0 <= i < |fewer| ==> fewer[i] < last
    ensures MatchesAt(streams, earlier, location, fewer) == MatchesAt(streams, earlier[..last], location, fewer)
    ensures MatchesAt(streams, earlier, location, fewer + [last]) ==
            MatchesAt(streams, earlier[..last], location, fewer) + [RawMatch(streams, earlier[last], location)]
  {
    hide RawMatch;
  }

  ghost predicate PairsAt(streams: seq<Stream>, earlier: seq<Location>, location: Location, lines: nat, at: seq<nat>) {
    forall k :: 0 <= k < |earlier| ==> (Pairs(streams, earlier[k], location, lines) <==> k in at)
  }

  lemma {:induction false} PairsAtLast(streams: seq<Stream>, earlier: seq<Location>, location: Location, lines: nat,
                                       at: seq<nat>)
    requires earlier != [] && Ascending(at, |earlier|) && PairsAt(streams, earlier, location, lines, at)
    ensures var last := |earlier| - 1;
            var fewer := if last in at then at[..|at| - 1] else at;
            && Ascending(fewer, last) && PairsAt(streams, earlier[..last], location, lines, fewer)
            && (last in at ==> at == fewer + [last])
            && (last in at <==> Pairs(streams, earlier[last], location, lines))
  {
    hide Pairs;
    LastIsLast(at, |earlier| - 1);
    AscendingIsBelow(if |earlier| - 1 in at then at[..|at| - 1] else at, |earlier| - 1);
  }

  /** When the pairs of a window are known, so are its matches. */
  lemma {:induction false} FoundByOnly(streams: seq<Stream>, earlier: seq<Location>, location: Location, lines: nat,
                                       at: seq<nat>)
    requires Ascending(at, |earlier|) && PairsAt(streams, earlier, location, lines, at)
    requires location.stream < |streams| && AllKnown(streams, earlier)
    ensures (forall i :: 0 <= i < |at| ==> at[i] < |earlier|) &&
            FoundBy(streams, earlier, location, lines) == MatchesAt(streams, earlier, location, at)
  {
    AscendingIsBelow(at, |earlier|);
    if earlier != [] {
      hide Pairs, RawMatch, MatchesAt, PairsAt;
      var last := |earlier| - 1;
      var fewer := if last in at then at[..|at| - 1] else at;
      PairsAtLast(streams, earlier, location, lines, at);
      FoundByOnly(streams, earlier[..last], location, lines, fewer);
      MatchesAtLast(streams, earlier, location, fewer, last);
    }
  }
}
