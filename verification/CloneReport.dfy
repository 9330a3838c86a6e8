/** From raw clone matches to reported clones: sorting, coalescing and building violations. */
module CloneReport {
  import opened Clones
  import opened PathOrder
  import opened Wrappers

  // ---------- the order of the matches ----------

  predicate Known(streams: seq<Stream>, m: Match) {
    m.streamA < |streams| && m.streamB < |streams|
  }

  /** By the first path, then the second, then the two start lines. */
  predicate InOrder(streams: seq<Stream>, l: Match, r: Match) {
    && Known(streams, l) && Known(streams, r)
    && var a, b := streams[l.streamA].path, streams[r.streamA].path;
       var c, d := streams[l.streamB].path, streams[r.streamB].path;
       && NotAfter(a, b)
       && (a == b ==> NotAfter(c, d))
       && (a == b && c == d ==> l.startA <= r.startA)
       && (a == b && c == d && l.startA == r.startA ==> l.startB <= r.startB)
  }

  lemma OrderIsTotal(streams: seq<Stream>, l: Match, r: Match)
    requires Known(streams, l) && Known(streams, r)
    ensures InOrder(streams, l, r) || InOrder(streams, r, l)
  {
    PathOrderIsTotal(streams[l.streamA].path, streams[r.streamA].path);
    PathOrderIsTotal(streams[l.streamB].path, streams[r.streamB].path);
  }

  lemma OrderIsTransitive(streams: seq<Stream>, l: Match, m: Match, r: Match)
    requires InOrder(streams, l, m) && InOrder(streams, m, r)
    ensures InOrder(streams, l, r)
  {
    var a, b, c := streams[l.streamA].path, streams[m.streamA].path, streams[r.streamA].path;
    var d, e, f := streams[l.streamB].path, streams[m.streamB].path, streams[r.streamB].path;
    PathOrderIsTransitive(a, b, c);
    if a == c {
      PathOrderIsTotal(a, b);
      PathOrderIsTransitive(d, e, f);
      if d == f {
        PathOrderIsTotal(d, e);
      }
    }
  }

  ghost predicate Ordered(streams: seq<Stream>, s: seq<Match>) {
    forall i, j :: 0 <= i < j < |s| ==> InOrder(streams, s[i], s[j])
  }

  /** Behind all that may come before it, so that equal matches keep their order. */
  function Place(streams: seq<Stream>, s: seq<Match>, m: Match): (i: nat)
    ensures i <= |s| && forall k :: 0 <= k < i ==> InOrder(streams, s[k], m)
    ensures i < |s| ==> !InOrder(streams, s[i], m)
  {
    if s == [] || !InOrder(streams, s[0], m) then 0 else 1 + Place(streams, s[1..], m)
  }

  function Inserted(streams: seq<Stream>, s: seq<Match>, m: Match): seq<Match> {
    var i := Place(streams, s, m);
    s[..i] + [m] + s[i..]
  }

  function Sorted(streams: seq<Stream>, matches: seq<Match>): seq<Match> {
    if matches == [] then []
    else Inserted(streams, Sorted(streams, matches[..|matches| - 1]), matches[|matches| - 1])
  }

  lemma InsertedAdds(streams: seq<Stream>, s: seq<Match>, m: Match)
    ensures multiset(Inserted(streams, s, m)) == multiset(s) + multiset{m}
  {
    var i := Place(streams, s, m);
    assert s == s[..i] + s[i..];
  }

  lemma {:induction false} SortedIsPermutation(streams: seq<Stream>, matches: seq<Match>)
    ensures multiset(Sorted(streams, matches)) == multiset(matches)
  {
    if matches != [] {
      var before, last := matches[..|matches| - 1], matches[|matches| - 1];
      SortedIsPermutation(streams, before);
      InsertedAdds(streams, Sorted(streams, before), last);
      assert matches == before + [last];
    }
  }

  lemma InsertedIsOrdered(streams: seq<Stream>, s: seq<Match>, m: Match)
    requires Ordered(streams, s) && Known(streams, m) && forall i :: 0 <= i < |s| ==> Known(streams, s[i])
    ensures Ordered(streams, Inserted(streams, s, m))
  {
    var p := Place(streams, s, m);
    forall i | p <= i < |s| ensures InOrder(streams, m, s[i]) {
      OrderIsTotal(streams, s[p], m);
      if i > p {
        OrderIsTransitive(streams, m, s[p], s[i]);
      }
    }
    var t := Inserted(streams, s, m);
    forall i, j | 0 <= i < j < |t| ensures InOrder(streams, t[i], t[j]) {
      assert t[i] == if i < p then s[i] else if i == p then m else s[i - 1];
      assert t[j] == if j < p then s[j] else if j == p then m else s[j - 1];
    }
  }

  lemma {:induction false} SortedIsOrdered(streams: seq<Stream>, matches: seq<Match>)
    requires forall i :: 0 <= i < |matches| ==> Known(streams, matches[i])
    ensures Ordered(streams, Sorted(streams, matches))
  {
    if matches != [] {
      var before := matches[..|matches| - 1];
      SortedIsOrdered(streams, before);
      forall i | 0 <= i < |Sorted(streams, before)| ensures Known(streams, Sorted(streams, before)[i]) {
        SortedHolds(streams, before, Sorted(streams, before)[i]);
      }
      InsertedIsOrdered(streams, Sorted(streams, before), matches[|matches| - 1]);
    }
  }

  lemma SortedHolds(streams: seq<Stream>, matches: seq<Match>, m: Match)
    ensures m in matches <==> m in Sorted(streams, matches)
  {
    SortedIsPermutation(streams, matches);
    assert m in multiset(matches) <==> m in multiset(Sorted(streams, matches));
  }

  /** No two of these matches have one place in the order. */
  ghost predicate Apart(streams: seq<Stream>, s: seq<Match>) {
    forall l, r :: l in s && r in s && InOrder(streams, l, r) && InOrder(streams, r, l) ==> l == r
  }

  lemma LastIsSame(streams: seq<Stream>, s: seq<Match>, t: seq<Match>)
    requires s != [] && t != [] && Ordered(streams, s) && Ordered(streams, t) && Apart(streams, s)
    requires s[|s| - 1] in t && t[|t| - 1] in s
    ensures s[|s| - 1] == t[|t| - 1]
  {
    hide InOrder;
    var i :| 0 <= i < |s| && s[i] == t[|t| - 1];
    var k :| 0 <= k < |t| && t[k] == s[|s| - 1];
    assert i < |s| - 1 ==> InOrder(streams, s[i], s[|s| - 1]);
    assert k < |t| - 1 ==> InOrder(streams, t[k], t[|t| - 1]);
  }

  lemma PrefixStaysApart(streams: seq<Stream>, s: seq<Match>, i: nat)
    requires i <= |s| && Ordered(streams, s) && Apart(streams, s)
    ensures Ordered(streams, s[..i]) && Apart(streams, s[..i])
  {
    hide InOrder;
  }

  lemma PrefixOrdered(streams: seq<Stream>, s: seq<Match>, i: nat)
    requires i <= |s| && Ordered(streams, s)
    ensures Ordered(streams, s[..i])
  {
    hide InOrder;
  }

  lemma WithoutLast(s: seq<Match>, t: seq<Match>)
    requires multiset(s) == multiset(t) && s != [] && t != [] && s[|s| - 1] == t[|t| - 1]
    ensures multiset(s[..|s| - 1]) == multiset(t[..|t| - 1])
  {
    var i, k := |s| - 1, |t| - 1;
    assert s == s[..i] + [s[i]] && t == t[..k] + [t[k]];
    assert multiset(s[..i]) == multiset(s) - multiset{s[i]};
    assert multiset(t[..k]) == multiset(t) - multiset{t[k]};
  }

  /** Where no two matches have one place in the order, there is but one way to order them. */
  lemma {:induction false} OrderIsUnique(streams: seq<Stream>, s: seq<Match>, t: seq<Match>)
    requires Ordered(streams, s) && Ordered(streams, t) && multiset(s) == multiset(t) && Apart(streams, s)
    ensures s == t
  {
    hide InOrder, Ordered, Apart;
    assert |s| == |multiset(s)| == |multiset(t)| == |t|;
    if s != [] {
      var last := |s| - 1;
      assert s[last] in multiset(t) && t[last] in multiset(s);
      LastIsSame(streams, s, t);
      WithoutLast(s, t);
      PrefixStaysApart(streams, s, last);
      PrefixOrdered(streams, t, last);
      OrderIsUnique(streams, s[..last], t[..last]);
      assert s == s[..last] + [s[last]] && t == t[..last] + [t[last]];
    }
  }

  /** Any way to order such matches is what the sort gives. */
  lemma OnlySorting(streams: seq<Stream>, matches: seq<Match>, s: seq<Match>)
    requires Ordered(streams, s) && Apart(streams, s) && multiset(matches) == multiset(s)
    requires forall i :: 0 <= i < |matches| ==> Known(streams, matches[i])
    ensures Sorted(streams, matches) == s
  {
    hide InOrder, Ordered, Apart;
    SortedIsPermutation(streams, matches);
    SortedIsOrdered(streams, matches);
    OrderIsUnique(streams, s, Sorted(streams, matches));
  }

  // ---------- building violations ----------

  /** A reported clone; the fingerprint is a digest of the symbols, which stand for it here. */
  datatype Violation = Violation(fileA: Path, linesA: (nat, nat), fileB: Path, linesB: (nat, nat),
                                 tokens: nat, lines: nat, fingerprint: seq<Symbol>)

  function Symbols(tokens: seq<Token>): (r: seq<Symbol>)
    ensures |r| == |tokens| && forall i :: 0 <= i < |r| ==> r[i] == tokens[i].symbol
  {
    seq(|tokens|, i requires 0 <= i < |tokens| => tokens[i].symbol)
  }

  /** Saturating subtraction. */
  function Less(a: nat, b: nat): nat { if a >= b then a - b else 0 }

  function BuildViolation(c: Match, minTokens: nat, minLines: nat, streams: seq<Stream>): Option<Violation> {
    var span := Min(Less(c.endA, c.startA) + 1, Less(c.endB, c.startB) + 1);
    if span < minLines then None
    else
      var a := TokenSlice(streams, c.streamA, c.startIdxA, c.endIdxA);
      var b := TokenSlice(streams, c.streamB, c.startIdxB, c.endIdxB);
      if a.None? || b.None? then None
      else if !KindsMatch(a.value, b.value) then None
      else if |a.value| < minTokens then None
      else Some(Violation(streams[c.streamA].path, (c.startA, c.endA), streams[c.streamB].path, (c.startB, c.endB),
                          |a.value|, span, Symbols(a.value)))
  }

  /** The same match told from its other side. */
  function Swapped(c: Match): Match {
    Match(c.streamB, c.startB, c.endB, c.startIdxB, c.endIdxB, c.streamA, c.startA, c.endA, c.startIdxA, c.endIdxA)
  }

  /** A clone is reported from either side or from none, with one fingerprint and the files exchanged. */
  lemma SidesDoNotMatter(c: Match, minTokens: nat, minLines: nat, streams: seq<Stream>)
    ensures var v := BuildViolation(c, minTokens, minLines, streams);
            var w := BuildViolation(Swapped(c), minTokens, minLines, streams);
            && (v.Some? <==> w.Some?)
            && (v.Some? ==> w.value == Violation(v.value.fileB, v.value.linesB, v.value.fileA, v.value.linesA,
                                                 v.value.tokens, v.value.lines, v.value.fingerprint))
  {
    var a := TokenSlice(streams, c.streamA, c.startIdxA, c.endIdxA);
    var b := TokenSlice(streams, c.streamB, c.startIdxB, c.endIdxB);
    if a.Some? && b.Some? && KindsMatch(a.value, b.value) {
      assert Symbols(a.value) == Symbols(b.value);
    }
  }

  /** The recheck never drops a verified match; only the two minimum sizes do. */
  lemma RecheckNeverDrops(c: Match, minTokens: nat, minLines: nat, streams: seq<Stream>)
    requires Verified(streams, c)
    ensures BuildViolation(c, minTokens, minLines, streams).Some? <==>
            && Min(Less(c.endA, c.startA), Less(c.endB, c.startB)) + 1 >= minLines
            && c.endIdxA - c.startIdxA + 1 >= minTokens
  {
    VerifiedSlicesMatch(streams, c);
  }

  /** A raw match as the index makes it: a verified window of the minimum sizes. */
  ghost predicate Window(streams: seq<Stream>, m: Match, minTokens: nat, minLines: nat) {
    && Verified(streams, m)
    && m.endIdxA - m.startIdxA + 1 >= minTokens
    && Less(m.endA, m.startA) + 1 >= minLines && Less(m.endB, m.startB) + 1 >= minLines
  }

  /** Every coalesced match of windows becomes a violation: none is lost after coalescing. */
  lemma WindowsAlwaysReport(c: Match, raw: seq<Match>, minTokens: nat, minLines: nat, streams: seq<Stream>)
    requires forall i :: 0 <= i < |raw| ==> Window(streams, raw[i], minTokens, minLines)
    requires Verified(streams, c) && GrewFrom(c, raw)
    ensures BuildViolation(c, minTokens, minLines, streams).Some?
  {
    RecheckNeverDrops(c, minTokens, minLines, streams);
    var k :| 0 <= k < |raw| && Larger(c, raw[k]);
    assert Window(streams, raw[k], minTokens, minLines);
  }

  /** The final filter, where nothing is filtered out. */
  method BuildViolations(coalesced: seq<Match>, minTokens: nat, minLines: nat, streams: seq<Stream>)
    returns (violations: seq<Violation>)
    requires forall i :: 0 <= i < |coalesced| ==> BuildViolation(coalesced[i], minTokens, minLines, streams).Some?
    ensures |violations| == |coalesced|
    ensures forall i :: 0 <= i < |coalesced| ==>
              Some(violations[i]) == BuildViolation(coalesced[i], minTokens, minLines, streams)
  {
    violations := [];
    for i := 0 to |coalesced|
      invariant |violations| == i
      invariant forall k :: 0 <= k < i ==>
                  Some(violations[k]) == BuildViolation(coalesced[k], minTokens, minLines, streams)
    {
      var v := BuildViolation(coalesced[i], minTokens, minLines, streams);
      if v.Some? {
        violations := violations + [v.value];
      }
    }
  }

  /** From raw windows to violations: sorted, coalesced, and one violation per coalesced match. */
  method DetectClones(matches: seq<Match>, minTokens: nat, minLines: nat, streams: seq<Stream>)
    returns (coalesced: seq<Match>, violations: seq<Violation>)
    requires forall i :: 0 <= i < |matches| ==> Window(streams, matches[i], minTokens, minLines)
    ensures coalesced == Coalesced(Sorted(streams, matches), streams)
    ensures |violations| == |coalesced|
    ensures forall i :: 0 <= i < |coalesced| ==>
              Some(violations[i]) == BuildViolation(coalesced[i], minTokens, minLines, streams)
    ensures forall i :: 0 <= i < |coalesced| ==> Verified(streams, coalesced[i])
    ensures forall m :: m in matches ==> Represented(streams, m, coalesced)
  {
    hide Window, Verified, GrewFrom, Represented, BuildViolation;
    var sorted := Sorted(streams, matches);
    SortedWindows(streams, matches, sorted, minTokens, minLines);
    coalesced := Coalesce(sorted, streams);
    AllReported(coalesced, sorted, minTokens, minLines, streams);
    violations := BuildViolations(coalesced, minTokens, minLines, streams);
    AllRepresented(streams, matches, sorted, coalesced);
  }

  lemma SortedWindows(streams: seq<Stream>, matches: seq<Match>, sorted: seq<Match>, minTokens: nat, minLines: nat)
    requires sorted == Sorted(streams, matches)
    requires forall i :: 0 <= i < |matches| ==> Window(streams, matches[i], minTokens, minLines)
    ensures forall i :: 0 <= i < |sorted| ==> Window(streams, sorted[i], minTokens, minLines)
    ensures forall i :: 0 <= i < |sorted| ==> Verified(streams, sorted[i])
  {
    forall i | 0 <= i < |sorted| ensures Window(streams, sorted[i], minTokens, minLines) {
      SortedHolds(streams, matches, sorted[i]);
    }
  }

  lemma AllReported(coalesced: seq<Match>, raw: seq<Match>, minTokens: nat, minLines: nat, streams: seq<Stream>)
    requires forall i :: 0 <= i < |raw| ==> Window(streams, raw[i], minTokens, minLines)
    requires forall i :: 0 <= i < |coalesced| ==> Verified(streams, coalesced[i]) && GrewFrom(coalesced[i], raw)
    ensures forall i :: 0 <= i < |coalesced| ==> BuildViolation(coalesced[i], minTokens, minLines, streams).Some?
  {
    hide BuildViolation, Window, Verified, GrewFrom;
    forall i | 0 <= i < |coalesced| ensures BuildViolation(coalesced[i], minTokens, minLines, streams).Some? {
      WindowsAlwaysReport(coalesced[i], raw, minTokens, minLines, streams);
    }
  }

  lemma AllRepresented(streams: seq<Stream>, matches: seq<Match>, sorted: seq<Match>, coalesced: seq<Match>)
    requires sorted == Sorted(streams, matches)
    requires forall i :: 0 <= i < |sorted| ==> Represented(streams, sorted[i], coalesced)
    ensures forall m :: m in matches ==> Represented(streams, m, coalesced)
  {
    forall m | m in matches ensures Represented(streams, m, coalesced) {
      SortedHolds(streams, matches, m);
    }
  }
}
