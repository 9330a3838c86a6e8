/** What the clone detection means, said of files, lines and tokens: which runs of tokens are joined, when
    two matches become one, and what a reported clone tells of its parts. */
module CloneMeaning {
  import opened CloneLines
  import opened CloneReport
  import opened Clones
  import opened CloneWindows
  import opened PathOrder
  import opened Wrappers

  function SymbolIn(streams: seq<Stream>, s: nat, i: nat): Symbol
    requires s < |streams| && i < |streams[s].tokens|
  {
    streams[s].tokens[i].symbol
  }

  predicate SameAt(streams: seq<Stream>, s: nat, i: nat, t: nat, j: nat, k: nat)
    requires s < |streams| && i + k < |streams[s].tokens| && t < |streams| && j + k < |streams[t].tokens|
  {
    SymbolIn(streams, s, i + k) == SymbolIn(streams, t, j + k)
  }

  // ---------- which runs are joined ----------

  /** The run of tokens from `i` on that is long enough, and spans enough lines. */
  ghost predicate Run(streams: seq<Stream>, s: nat, i: nat, sizes: Sizes) {
    && s < |streams| && 0 < sizes.tokens && i + sizes.tokens <= |streams[s].tokens|
    && var first, last := streams[s].tokens[i].line, streams[s].tokens[i + sizes.tokens - 1].line;
       (last >= first && last - first + 1 >= sizes.lines) || sizes.lines <= 1
  }

  /** Two runs hold the same symbols, and in one file the later one begins well below the earlier one. */
  ghost predicate Repeated(streams: seq<Stream>, s: nat, i: nat, t: nat, j: nat, sizes: Sizes) {
    && Run(streams, s, i, sizes) && Run(streams, t, j, sizes) && (s < t || (s == t && i < j))
    && (forall k :: 0 <= k < sizes.tokens ==> SameAt(streams, s, i, t, j, k))
    && (streams[s].path == streams[t].path ==>
          var last := streams[s].tokens[i + sizes.tokens - 1].line + sizes.lines;
          streams[t].tokens[j].line > if last <= USIZE_MAX then last else USIZE_MAX)
  }

  lemma SameTokensTell(streams: seq<Stream>, s: nat, i: nat, t: nat, j: nat, sizes: Sizes)
    requires Run(streams, s, i, sizes) && Run(streams, t, j, sizes)
    ensures SameTokens(streams, WindowAt(streams, s, i, sizes), WindowAt(streams, t, j, sizes)) <==>
            forall k :: 0 <= k < sizes.tokens ==> SameAt(streams, s, i, t, j, k)
  {
    var l, r := WindowAt(streams, s, i, sizes), WindowAt(streams, t, j, sizes);
    var a := TokenSlice(streams, s, l.startIdx, l.endIdx).value;
    var b := TokenSlice(streams, t, r.startIdx, r.endIdx).value;
    assert |a| == |b| == sizes.tokens;
    forall k | 0 <= k < sizes.tokens
      ensures a[k].symbol == SymbolIn(streams, s, i + k) && b[k].symbol == SymbolIn(streams, t, j + k)
    {
    }
    if forall k :: 0 <= k < sizes.tokens ==> SameAt(streams, s, i, t, j, k) {
      forall k | 0 <= k < sizes.tokens ensures a[k].symbol == b[k].symbol {
        assert SameAt(streams, s, i, t, j, k);
      }
    }
    if KindsMatch(a, b) {
      forall k | 0 <= k < sizes.tokens ensures SameAt(streams, s, i, t, j, k) {
        assert a[k].symbol == b[k].symbol;
      }
    }
  }

  /** The windows that are joined are the repeated runs. */
  lemma TwinsTell(streams: seq<Stream>, sizes: Sizes, s: nat, i: nat, t: nat, j: nat)
    requires s < |streams| && t < |streams| && 0 < sizes.tokens
    requires i + sizes.tokens <= |streams[s].tokens| && j + sizes.tokens <= |streams[t].tokens|
    ensures Twins(streams, sizes, WindowAt(streams, s, i, sizes), WindowAt(streams, t, j, sizes)) <==>
            Repeated(streams, s, i, t, j, sizes)
  {
    if Run(streams, s, i, sizes) && Run(streams, t, j, sizes) {
      SameTokensTell(streams, s, i, t, j, sizes);
      hide SameTokens;
    }
  }

  // ---------- what a raw match says ----------

  /** The match tells the lines and tokens of two runs, the one of the earlier path first. */
  ghost predicate TellsRuns(streams: seq<Stream>, sizes: Sizes, m: Match) {
    && m.streamA < |streams| && m.streamB < |streams| && 0 < sizes.tokens
    && m.endIdxA + 1 == m.startIdxA + sizes.tokens <= |streams[m.streamA].tokens|
    && m.endIdxB + 1 == m.startIdxB + sizes.tokens <= |streams[m.streamB].tokens|
    && m.startA == streams[m.streamA].tokens[m.startIdxA].line
    && m.endA == streams[m.streamA].tokens[m.endIdxA].line
    && m.startB == streams[m.streamB].tokens[m.startIdxB].line
    && m.endB == streams[m.streamB].tokens[m.endIdxB].line
    && NotAfter(streams[m.streamA].path, streams[m.streamB].path)
    && (streams[m.streamA].path == streams[m.streamB].path ==>
          m.streamA < m.streamB || (m.streamA == m.streamB && m.startIdxA < m.startIdxB))
  }

  /** Every raw match tells a pair of repeated runs, and every such pair is told by a raw match. */
  lemma RawMatchesTell(streams: seq<Stream>, sizes: Sizes)
    requires 0 < sizes.tokens
    ensures forall m :: m in RawMatches(streams, sizes) ==>
              TellsRuns(streams, sizes, m) &&
              (Repeated(streams, m.streamA, m.startIdxA, m.streamB, m.startIdxB, sizes) ||
               Repeated(streams, m.streamB, m.startIdxB, m.streamA, m.startIdxA, sizes))
    ensures forall s: nat, i: nat, t: nat, j: nat :: Repeated(streams, s, i, t, j, sizes) ==>
              exists m :: m in RawMatches(streams, sizes) && Joins(m, s, i, t, j)
  {
    forall m | m in RawMatches(streams, sizes)
      ensures TellsRuns(streams, sizes, m)
      ensures Repeated(streams, m.streamA, m.startIdxA, m.streamB, m.startIdxB, sizes) ||
              Repeated(streams, m.streamB, m.startIdxB, m.streamA, m.startIdxA, sizes)
    {
      RawMatchesExactly(streams, sizes, m);
      var l, r :| TwinMatch(streams, sizes, l, r, m);
      TwinsTell(streams, sizes, l.stream, l.startIdx, r.stream, r.startIdx);
      TwinTellsRuns(streams, sizes, l, r, m);
    }
    forall s: nat, i: nat, t: nat, j: nat | Repeated(streams, s, i, t, j, sizes)
      ensures exists m :: m in RawMatches(streams, sizes) && Joins(m, s, i, t, j)
    {
      TwinsTell(streams, sizes, s, i, t, j);
      var l, r := WindowAt(streams, s, i, sizes), WindowAt(streams, t, j, sizes);
      var m := RawMatch(streams, l, r);
      assert TwinMatch(streams, sizes, l, r, m);
      RawMatchesExactly(streams, sizes, m);
      assert Joins(m, s, i, t, j);
    }
  }

  /** The match is about the two runs, either one first. */
  predicate Joins(m: Match, s: nat, i: nat, t: nat, j: nat) {
    || (m.streamA == s && m.startIdxA == i && m.streamB == t && m.startIdxB == j)
    || (m.streamA == t && m.startIdxA == j && m.streamB == s && m.startIdxB == i)
  }

  lemma TwinTellsRuns(streams: seq<Stream>, sizes: Sizes, l: Location, r: Location, m: Match)
    requires TwinMatch(streams, sizes, l, r, m)
    ensures TellsRuns(streams, sizes, m)
  {
    hide SameTokens, TooClose, NotAfter;
    PathOrderIsTotal(streams[l.stream].path, streams[r.stream].path);
  }

  // ---------- when two matches become one ----------

  /** Nearly touching on both sides: at most one line and no token between them. */
  predicate Near(left: Match, right: Match) {
    && right.startA <= left.endA + 2 && right.startB <= left.endB + 2
    && right.startIdxA <= left.endIdxA + 1 && right.startIdxB <= left.endIdxB + 1
  }

  /** Verified matches that lie below the largest address merge exactly when they are of the same streams,
      near each other, and the tokens that the merged spans hold are the same on both sides. */
  lemma MergesTell(streams: seq<Stream>, left: Match, right: Match)
    requires Verified(streams, left) && Verified(streams, right)
    requires left.endA + 2 <= USIZE_MAX && left.endB + 2 <= USIZE_MAX
    ensures CanMerge(left, right, Paired(streams, left, right), streams) <==>
            && left.streamA == right.streamA && left.streamB == right.streamB && Near(left, right)
            && Verified(streams, Merged(left, right))
  {
    if left.streamA == right.streamA && left.streamB == right.streamB {
      VerifiedSlicesMatch(streams, Merged(left, right));
      if AlignedRangesAreVerified(left, right) {
        AlignedMergeIsVerified(streams, left, right);
      }
    }
  }

  predicate In(k: nat, first: nat, last: nat) {
    first <= k <= last
  }

  /** A match is dropped for one between the same files when they have a token of one stream in common, on
      the same side. */
  lemma OverlapTells(left: Match, right: Match)
    requires left.startIdxA <= left.endIdxA && right.startIdxA <= right.endIdxA
    requires left.startIdxB <= left.endIdxB && right.startIdxB <= right.endIdxB
    ensures RangesOverlap(left, right) <==>
            || (left.streamA == right.streamA &&
                exists k :: In(k, left.startIdxA, left.endIdxA) && In(k, right.startIdxA, right.endIdxA))
            || (left.streamB == right.streamB &&
                exists k :: In(k, left.startIdxB, left.endIdxB) && In(k, right.startIdxB, right.endIdxB))
  {
    var a, b := Max(left.startIdxA, right.startIdxA), Max(left.startIdxB, right.startIdxB);
    assert right.startIdxA <= left.endIdxA && right.endIdxA >= left.startIdxA ==>
             In(a, left.startIdxA, left.endIdxA) && In(a, right.startIdxA, right.endIdxA);
    assert right.startIdxB <= left.endIdxB && right.endIdxB >= left.startIdxB ==>
             In(b, left.startIdxB, left.endIdxB) && In(b, right.startIdxB, right.endIdxB);
  }

  // ---------- what a reported clone says ----------

  ghost predicate LeastOf(n: nat, ns: seq<nat>) {
    n in ns && forall i :: 0 <= i < |ns| ==> n <= ns[i]
  }

  ghost predicate GreatestOf(n: nat, ns: seq<nat>) {
    n in ns && forall i :: 0 <= i < |ns| ==> ns[i] <= n
  }

  datatype Field = EndA | EndB | StartIdxA | StartIdxB | EndIdxA | EndIdxB

  function Get(m: Match, field: Field): nat {
    match field
    case EndA => m.endA
    case EndB => m.endB
    case StartIdxA => m.startIdxA
    case StartIdxB => m.startIdxB
    case EndIdxA => m.endIdxA
    case EndIdxB => m.endIdxB
  }

  function Each(part: seq<Match>, field: Field): (r: seq<nat>)
    ensures |r| == |part| && forall i :: 0 <= i < |part| ==> r[i] == Get(part[i], field)
  {
    seq(|part|, i requires 0 <= i < |part| => Get(part[i], field))
  }

  /** The symbols of a span of tokens. */
  ghost predicate SymbolsFrom(streams: seq<Stream>, s: nat, from: nat, symbols: seq<Symbol>) {
    s < |streams| && from + |symbols| <= |streams[s].tokens| &&
    forall k :: 0 <= k < |symbols| ==> symbols[k] == SymbolIn(streams, s, from + k)
  }

  function SpanOf(lines: (nat, nat)): nat {
    if lines.1 >= lines.0 then lines.1 - lines.0 + 1 else 1
  }

  /** A reported clone names on each side the file of its parts, the first line of the first part and the last
      line of any; its symbols are those of the tokens from the first to the last of any part, the same on
      both sides; and it counts these tokens and the lines of the shorter side. */
  ghost predicate TellsParts(streams: seq<Stream>, part: seq<Match>, v: Violation) {
    && part != [] && (forall i :: 0 <= i < |part| ==> SameStreams(part[0], part[i]))
    && part[0].streamA < |streams| && part[0].streamB < |streams|
    && v.fileA == streams[part[0].streamA].path && v.fileB == streams[part[0].streamB].path
    && v.linesA.0 == part[0].startA && v.linesB.0 == part[0].startB
    && GreatestOf(v.linesA.1, Each(part, EndA))
    && GreatestOf(v.linesB.1, Each(part, EndB))
    && (exists from: nat, to: nat :: LeastOf(from, Each(part, StartIdxA)) &&
                           GreatestOf(to, Each(part, EndIdxA)) &&
                           |v.fingerprint| == to + 1 - from &&
                           SymbolsFrom(streams, part[0].streamA, from, v.fingerprint))
    && (exists from: nat, to: nat :: LeastOf(from, Each(part, StartIdxB)) &&
                           GreatestOf(to, Each(part, EndIdxB)) &&
                           |v.fingerprint| == to + 1 - from &&
                           SymbolsFrom(streams, part[0].streamB, from, v.fingerprint))
    && v.tokens == |v.fingerprint|
    && v.lines == if SpanOf(v.linesA) <= SpanOf(v.linesB) then SpanOf(v.linesA) else SpanOf(v.linesB)
  }

  lemma SymbolsTell(streams: seq<Stream>, s: nat, from: nat, to: nat)
    requires TokenSlice(streams, s, from, to).Some? && from <= to
    ensures SymbolsFrom(streams, s, from, Symbols(TokenSlice(streams, s, from, to).value))
    ensures |Symbols(TokenSlice(streams, s, from, to).value)| == to + 1 - from
  {
  }

  lemma ViolationTells(streams: seq<Stream>, c: Match, part: seq<Match>, minTokens: nat, minLines: nat, v: Violation)
    requires Spans(c, part) && Verified(streams, c)
    requires BuildViolation(c, minTokens, minLines, streams) == Some(v)
    ensures TellsParts(streams, part, v)
  {
    SymbolsTell(streams, c.streamA, c.startIdxA, c.endIdxA);
    SymbolsTell(streams, c.streamB, c.startIdxB, c.endIdxB);
    VerifiedSlicesMatch(streams, c);
    var a := TokenSlice(streams, c.streamA, c.startIdxA, c.endIdxA).value;
    var b := TokenSlice(streams, c.streamB, c.startIdxB, c.endIdxB).value;
    assert Symbols(a) == Symbols(b);
    EndsTell(c, part);
    StartsTell(c, part);
    assert SameStreams(c, part[0]);
  }

  lemma EndsTell(c: Match, part: seq<Match>)
    requires Ends(c, part)
    ensures GreatestOf(c.endA, Each(part, EndA)) && GreatestOf(c.endB, Each(part, EndB))
    ensures GreatestOf(c.endIdxA, Each(part, EndIdxA))
    ensures GreatestOf(c.endIdxB, Each(part, EndIdxB))
  {
  }

  lemma StartsTell(c: Match, part: seq<Match>)
    requires Spans(c, part)
    ensures LeastOf(c.startIdxA, Each(part, StartIdxA))
    ensures LeastOf(c.startIdxB, Each(part, StartIdxB))
  {
    hide Ends;
  }

  /** The k-th reported clone tells of the parts that its match was coalesced from. */
  lemma ReportTells(streams: seq<Stream>, matches: seq<Match>, k: nat, minTokens: nat, minLines: nat, v: Violation)
    requires k < |Coalesced(matches, streams)| && Verified(streams, Coalesced(matches, streams)[k])
    requires BuildViolation(Coalesced(matches, streams)[k], minTokens, minLines, streams) == Some(v)
    ensures TellsParts(streams, Parts(matches, streams)[k], v)
    ensures forall i :: 0 <= i < |Parts(matches, streams)[k]| ==> Parts(matches, streams)[k][i] in matches
  {
    PartsSpan(matches, streams, k);
    ViolationTells(streams, Coalesced(matches, streams)[k], Parts(matches, streams)[k], minTokens, minLines, v);
    forall i | 0 <= i < |Parts(matches, streams)[k]| ensures Parts(matches, streams)[k][i] in matches {
      PartsAreRaw(matches, streams, k, i);
    }
  }
}
