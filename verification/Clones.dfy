/** Coalescing raw clone matches: a cheap arithmetic test stands in for comparing tokens, and the
    loop that grows the last match in place keeps every match verified. */
module Clones {
  import opened PathOrder
  import opened Wrappers

  type Symbol = nat
  datatype Token = Token(symbol: Symbol, line: nat)
  datatype Stream = Stream(path: Path, tokens: seq<Token>)

  const USIZE_MAX: nat := 0xFFFF_FFFF_FFFF_FFFF

  /** Two places with the same tokens: stream, line span and token span on each side. */
  datatype Match = Match(
    streamA: nat, startA: nat, endA: nat, startIdxA: nat, endIdxA: nat,
    streamB: nat, startB: nat, endB: nat, startIdxB: nat, endIdxB: nat)

  // ---------- what a verified match is ----------

  ghost predicate InRange(streams: seq<Stream>, stream: nat, start: nat, end: nat) {
    stream < |streams| && start <= end < |streams[stream].tokens| && |streams[stream].tokens| <= USIZE_MAX
  }

  function SymbolAt(streams: seq<Stream>, stream: nat, index: nat): Symbol
    requires stream < |streams| && index < |streams[stream].tokens|
  {
    streams[stream].tokens[index].symbol
  }

  /** Both spans exist, are equally long and hold the same symbols one by one. */
  ghost predicate Verified(streams: seq<Stream>, m: Match) {
    && InRange(streams, m.streamA, m.startIdxA, m.endIdxA)
    && InRange(streams, m.streamB, m.startIdxB, m.endIdxB)
    && m.endIdxA - m.startIdxA == m.endIdxB - m.startIdxB
    && forall a :: m.startIdxA <= a <= m.endIdxA ==>
         SymbolAt(streams, m.streamA, a) == SymbolAt(streams, m.streamB, a - m.startIdxA + m.startIdxB)
  }

  // ---------- the code's tests ----------

  function TokenSlice(streams: seq<Stream>, stream: nat, start: nat, end: nat): Option<seq<Token>> {
    if stream < |streams| && start <= end + 1 && end < |streams[stream].tokens|
    then Some(streams[stream].tokens[start..end + 1]) else None
  }

  predicate KindsMatch(left: seq<Token>, right: seq<Token>) {
    |left| == |right| && forall i :: 0 <= i < |left| ==> left[i].symbol == right[i].symbol
  }

  function Min(a: nat, b: nat): nat { if a <= b then a else b }
  function Max(a: nat, b: nat): nat { if a >= b then a else b }

  predicate WithinGap(start: nat, end: nat, gap: nat) {
    end + gap <= USIZE_MAX && start <= end + gap
  }

  predicate TouchOrOverlap(leftStart: nat, leftEnd: nat, rightStart: nat, rightEnd: nat) {
    WithinGap(rightStart, leftEnd, 1) && WithinGap(leftStart, rightEnd, 1)
  }

  predicate SameAlignment(left: Match, right: Match) {
    && left.startIdxA + right.startIdxB <= USIZE_MAX
    && right.startIdxA + left.startIdxB <= USIZE_MAX
    && left.startIdxA + right.startIdxB == right.startIdxA + left.startIdxB
  }

  predicate AlignedRangesAreVerified(left: Match, right: Match) {
    && SameAlignment(left, right)
    && TouchOrOverlap(left.startIdxA, left.endIdxA, right.startIdxA, right.endIdxA)
    && TouchOrOverlap(left.startIdxB, left.endIdxB, right.startIdxB, right.endIdxB)
  }

  predicate MergedRangesMatch(left: Match, right: Match, streams: seq<Stream>) {
    var a := TokenSlice(streams, left.streamA, Min(left.startIdxA, right.startIdxA), Max(left.endIdxA, right.endIdxA));
    var b := TokenSlice(streams, left.streamB, Min(left.startIdxB, right.startIdxB), Max(left.endIdxB, right.endIdxB));
    a.Some? && b.Some? && KindsMatch(a.value, b.value)
  }

  predicate SamePair(left: Match, right: Match, streams: seq<Stream>)
    requires left.streamA < |streams| && left.streamB < |streams| && right.streamA < |streams| &&
             right.streamB < |streams|
  {
    && streams[left.streamA].path == streams[right.streamA].path
    && streams[left.streamB].path == streams[right.streamB].path
  }

  /** The same two files, for streams that exist. */
  predicate Paired(streams: seq<Stream>, left: Match, right: Match) {
    && left.streamA < |streams| && left.streamB < |streams| && right.streamA < |streams| && right.streamB < |streams|
    && SamePair(left, right, streams)
  }

  predicate CanMerge(left: Match, right: Match, samePair: bool, streams: seq<Stream>) {
    && samePair
    && left.streamA == right.streamA && left.streamB == right.streamB
    && WithinGap(right.startA, left.endA, 2) && WithinGap(right.startB, left.endB, 2)
    && WithinGap(right.startIdxA, left.endIdxA, 1) && WithinGap(right.startIdxB, left.endIdxB, 1)
    && (AlignedRangesAreVerified(left, right) || MergedRangesMatch(left, right, streams))
  }

  predicate RangesOverlap(left: Match, right: Match) {
    || (left.streamA == right.streamA && right.startIdxA <= left.endIdxA && right.endIdxA >= left.startIdxA)
    || (left.streamB == right.streamB && right.startIdxB <= left.endIdxB && right.endIdxB >= left.startIdxB)
  }

  /** The start lines stay those of the left match. */
  function Merged(left: Match, right: Match): Match {
    left.(endA := Max(left.endA, right.endA), endB := Max(left.endB, right.endB),
          endIdxA := Max(left.endIdxA, right.endIdxA), endIdxB := Max(left.endIdxB, right.endIdxB),
          startIdxA := Min(left.startIdxA, right.startIdxA), startIdxB := Min(left.startIdxB, right.startIdxB))
  }

  // ---------- the arithmetic test is sound ----------

  /** Equal alignment and touching spans: the merged spans are equally long, shifted like both
      parts, and every index of theirs lies in one of the parts. */
  lemma AlignedGeometry(left: Match, right: Match, a: nat)
    requires AlignedRangesAreVerified(left, right)
    requires left.startIdxA <= left.endIdxA && right.startIdxA <= right.endIdxA
    requires left.endIdxA - left.startIdxA == left.endIdxB - left.startIdxB
    requires right.endIdxA - right.startIdxA == right.endIdxB - right.startIdxB
    ensures var m := Merged(left, right);
            && m.endIdxA - m.startIdxA == m.endIdxB - m.startIdxB
            && m.startIdxB - m.startIdxA == left.startIdxB - left.startIdxA == right.startIdxB - right.startIdxA
            && (m.startIdxA <= a <= m.endIdxA ==>
                  left.startIdxA <= a <= left.endIdxA || right.startIdxA <= a <= right.endIdxA)
  {
  }

  /** For two verified matches on the same streams, equal alignment and touching spans already say
      that the merged spans hold the same tokens. */
  lemma AlignedMergeIsVerified(streams: seq<Stream>, left: Match, right: Match)
    requires Verified(streams, left) && Verified(streams, right)
    requires left.streamA == right.streamA && left.streamB == right.streamB
    requires AlignedRangesAreVerified(left, right)
    ensures Verified(streams, Merged(left, right))
  {
    var m := Merged(left, right);
    AlignedGeometry(left, right, 0);
    forall a | m.startIdxA <= a <= m.endIdxA
      ensures SymbolAt(streams, m.streamA, a) == SymbolAt(streams, m.streamB, a - m.startIdxA + m.startIdxB)
    {
      AlignedGeometry(left, right, a);
      var part := if left.startIdxA <= a <= left.endIdxA then left else right;
      assert Verified(streams, part);
      assert a - m.startIdxA + m.startIdxB == a - part.startIdxA + part.startIdxB;
    }
  }

  /** So the arithmetic test implies the comparison that it replaces. */
  lemma AlignedImpliesComparison(streams: seq<Stream>, left: Match, right: Match)
    requires Verified(streams, left) && Verified(streams, right)
    requires left.streamA == right.streamA && left.streamB == right.streamB
    requires AlignedRangesAreVerified(left, right)
    ensures MergedRangesMatch(left, right, streams)
  {
    AlignedMergeIsVerified(streams, left, right);
    VerifiedSlicesMatch(streams, Merged(left, right));
  }

  /** A match is verified exactly when the code's recheck of its slices succeeds. */
  lemma VerifiedSlicesMatch(streams: seq<Stream>, m: Match)
    requires InRange(streams, m.streamA, m.startIdxA, m.endIdxA) && InRange(streams, m.streamB, m.startIdxB, m.endIdxB)
    ensures Verified(streams, m) <==>
            KindsMatch(TokenSlice(streams, m.streamA, m.startIdxA, m.endIdxA).value,
                       TokenSlice(streams, m.streamB, m.startIdxB, m.endIdxB).value)
  {
    var a := TokenSlice(streams, m.streamA, m.startIdxA, m.endIdxA).value;
    var b := TokenSlice(streams, m.streamB, m.startIdxB, m.endIdxB).value;
    if Verified(streams, m) {
      forall i | 0 <= i < |a|
        ensures a[i].symbol == b[i].symbol
      {
        assert SymbolAt(streams, m.streamA, m.startIdxA + i) == a[i].symbol;
        assert SymbolAt(streams, m.streamB, m.startIdxB + i) == b[i].symbol;
      }
    }
    if KindsMatch(a, b) {
      forall x | m.startIdxA <= x <= m.endIdxA
        ensures SymbolAt(streams, m.streamA, x) == SymbolAt(streams, m.streamB, x - m.startIdxA + m.startIdxB)
      {
        assert a[x - m.startIdxA].symbol == b[x - m.startIdxA].symbol;
      }
    }
  }

  /** Whatever branch of the test allowed it, a merge of verified matches is verified. */
  lemma MergeIsVerified(streams: seq<Stream>, left: Match, right: Match, samePair: bool)
    requires Verified(streams, left) && Verified(streams, right) && CanMerge(left, right, samePair, streams)
    ensures Verified(streams, Merged(left, right))
  {
    if AlignedRangesAreVerified(left, right) {
      AlignedMergeIsVerified(streams, left, right);
    } else {
      VerifiedSlicesMatch(streams, Merged(left, right));
    }
  }

  // ---------- the loop ----------

  /** The spans of `outer` contain those of `inner`, on the same files. */
  ghost predicate Contains(streams: seq<Stream>, outer: Match, inner: Match) {
    && outer.streamA == inner.streamA && outer.streamB == inner.streamB
    && outer.startIdxA <= inner.startIdxA && inner.endIdxA <= outer.endIdxA
    && outer.startIdxB <= inner.startIdxB && inner.endIdxB <= outer.endIdxB
  }

  /** A raw match lives on in a coalesced one: inside it, or overlapping it between the same two files. */
  ghost predicate Represented(streams: seq<Stream>, m: Match, coalesced: seq<Match>) {
    exists k :: 0 <= k < |coalesced| && RepresentedBy(streams, m, coalesced[k])
  }

  ghost predicate RepresentedBy(streams: seq<Stream>, m: Match, c: Match) {
    || Contains(streams, c, m)
    || (Paired(streams, c, m) && RangesOverlap(c, m))
  }

  lemma GrowingKeepsRepresented(streams: seq<Stream>, m: Match, before: seq<Match>, right: Match)
    requires before != [] && Represented(streams, m, before)
    ensures Represented(streams, m, before[|before| - 1 := Merged(before[|before| - 1], right)])
  {
    var last := |before| - 1;
    var after := before[last := Merged(before[last], right)];
    var k :| 0 <= k < |before| && RepresentedBy(streams, m, before[k]);
    assert RepresentedBy(streams, m, after[k]);
  }

  lemma AppendingKeepsRepresented(streams: seq<Stream>, m: Match, before: seq<Match>, next: Match)
    requires Represented(streams, m, before)
    ensures Represented(streams, m, before + [next])
  {
    var k :| 0 <= k < |before| && RepresentedBy(streams, m, before[k]);
    assert (before + [next])[k] == before[k];
  }

  /** A coalesced match is at least as large as some raw match that it grew from. */
  ghost predicate GrewFrom(c: Match, raw: seq<Match>) {
    exists k :: 0 <= k < |raw| && Larger(c, raw[k])
  }

  predicate Larger(c: Match, m: Match) {
    && c.startA == m.startA && c.startB == m.startB
    && c.endA >= m.endA && c.endB >= m.endB
    && c.startIdxA <= m.startIdxA && c.endIdxA >= m.endIdxA
  }

  /** What the loop keeps after `i` matches. */
  ghost predicate Coalescing(matches: seq<Match>, streams: seq<Stream>, i: nat, coalesced: seq<Match>) {
    && (forall k :: 0 <= k < |coalesced| ==> Verified(streams, coalesced[k]) && GrewFrom(coalesced[k], matches))
    && (forall k :: 0 <= k < i && k < |matches| ==> Represented(streams, matches[k], coalesced))
    && |coalesced| <= i && (i > 0 ==> coalesced != [])
  }

  lemma CoalescingMerges(matches: seq<Match>, streams: seq<Stream>, i: nat, coalesced: seq<Match>, samePair: bool)
    requires Coalescing(matches, streams, i, coalesced) && i < |matches| && coalesced != []
    requires Verified(streams, matches[i]) && CanMerge(coalesced[|coalesced| - 1], matches[i], samePair, streams)
    ensures Coalescing(matches, streams, i + 1,
                       coalesced[|coalesced| - 1 := Merged(coalesced[|coalesced| - 1], matches[i])])
  {
    var last, m := |coalesced| - 1, matches[i];
    var after := coalesced[last := Merged(coalesced[last], m)];
    MergeIsVerified(streams, coalesced[last], m, samePair);
    MergedGrewFrom(coalesced[last], m, matches);
    assert RepresentedBy(streams, m, after[last]);
    forall k | 0 <= k < |after|
      ensures Verified(streams, after[k]) && GrewFrom(after[k], matches)
    {
      assert k < last ==> after[k] == coalesced[k];
    }
    forall k | 0 <= k < i
      ensures Represented(streams, matches[k], after)
    {
      GrowingKeepsRepresented(streams, matches[k], coalesced, m);
    }
  }

  lemma CoalescingPushes(matches: seq<Match>, streams: seq<Stream>, i: nat, coalesced: seq<Match>)
    requires Coalescing(matches, streams, i, coalesced) && i < |matches| && Verified(streams, matches[i])
    ensures Coalescing(matches, streams, i + 1, coalesced + [matches[i]])
  {
    var after := coalesced + [matches[i]];
    assert RepresentedBy(streams, matches[i], after[|coalesced|]);
    assert Larger(matches[i], matches[i]);
    forall k | 0 <= k < i
      ensures Represented(streams, matches[k], after)
    {
      AppendingKeepsRepresented(streams, matches[k], coalesced, matches[i]);
    }
  }

  /** What one more match does: it grows the last match, is dropped, or starts a new one. */
  function Joined(streams: seq<Stream>, before: seq<Match>, m: Match): seq<Match> {
    if before == [] then [m]
    else
      var last := before[|before| - 1];
      var samePair := Paired(streams, last, m);
      if CanMerge(last, m, samePair, streams) then before[|before| - 1 := Merged(last, m)]
      else if samePair && RangesOverlap(last, m) then before
      else before + [m]
  }

  function Coalesced(matches: seq<Match>, streams: seq<Stream>): seq<Match> {
    if matches == [] then []
    else Joined(streams, Coalesced(matches[..|matches| - 1], streams), matches[|matches| - 1])
  }

  /** The right match neither extends the left one nor is dropped for it. */
  predicate Separate(streams: seq<Stream>, left: Match, right: Match) {
    var samePair := Paired(streams, left, right);
    !CanMerge(left, right, samePair, streams) && !(samePair && RangesOverlap(left, right))
  }

  /** A match began with a raw match that its left neighbour could not take. */
  predicate BeganApart(streams: seq<Stream>, left: Match, right: Match, m: Match) {
    Larger(right, m) && Separate(streams, left, m)
  }

  /** Nothing is left unmerged that the loop could merge: each coalesced match began apart from
      the finished match before it. */
  lemma {:induction false} NeighboursBeganApart(matches: seq<Match>, streams: seq<Stream>, k: nat) returns (i: nat)
    requires k + 1 < |Coalesced(matches, streams)|
    ensures i < |matches|
    ensures var c := Coalesced(matches, streams); BeganApart(streams, c[k], c[k + 1], matches[i])
  {
    var last := |matches| - 1;
    var before := Coalesced(matches[..last], streams);
    if k + 1 < |before| {
      i := NeighboursBeganApart(matches[..last], streams, k);
    } else {
      i := last;
    }
  }

  /** The coalescing loop, on matches in whatever order the sort put them. */
  method Coalesce(matches: seq<Match>, streams: seq<Stream>) returns (coalesced: seq<Match>)
    requires forall i :: 0 <= i < |matches| ==> Verified(streams, matches[i])
    ensures coalesced == Coalesced(matches, streams)
    ensures forall i :: 0 <= i < |coalesced| ==> Verified(streams, coalesced[i]) && GrewFrom(coalesced[i], matches)
    ensures forall i :: 0 <= i < |matches| ==> Represented(streams, matches[i], coalesced)
    ensures |coalesced| <= |matches| && (matches != [] ==> coalesced != [])
  {
    coalesced := [];
    for i := 0 to |matches|
      invariant coalesced == Coalesced(matches[..i], streams)
    {
      LastExists(matches, streams, i);
      assert Verified(streams, matches[i]);
      assert matches[..i + 1][..i] == matches[..i];
      coalesced := CoalesceOne(coalesced, matches[i], streams);
    }
    assert matches[..|matches|] == matches;
    CoalescedIsCoalescing(matches, streams, |matches|);
  }

  lemma {:induction false} CoalescedIsCoalescing(matches: seq<Match>, streams: seq<Stream>, i: nat)
    requires i <= |matches| && forall k :: 0 <= k < |matches| ==> Verified(streams, matches[k])
    ensures Coalescing(matches, streams, i, Coalesced(matches[..i], streams))
  {
    if i > 0 {
      CoalescedIsCoalescing(matches, streams, i - 1);
      assert matches[..i][..i - 1] == matches[..i - 1];
      JoinedKeepsCoalescing(matches, streams, i - 1, Coalesced(matches[..i - 1], streams));
    }
  }

  lemma LastExists(matches: seq<Match>, streams: seq<Stream>, i: nat)
    requires i <= |matches| && forall k :: 0 <= k < |matches| ==> Verified(streams, matches[k])
    ensures var c := Coalesced(matches[..i], streams);
            c != [] ==> c[|c| - 1].streamA < |streams| && c[|c| - 1].streamB < |streams|
  {
  }

  /** The body of the loop. */
  method CoalesceOne(coalesced: seq<Match>, m: Match, streams: seq<Stream>) returns (next: seq<Match>)
    requires m.streamA < |streams| && m.streamB < |streams|
    requires coalesced != [] ==>
             coalesced[|coalesced| - 1].streamA < |streams| && coalesced[|coalesced| - 1].streamB < |streams|
    ensures next == Joined(streams, coalesced, m)
  {
    next := coalesced;
    var merged := false;
    if next != [] {
      var last := |next| - 1;
      var samePair := SamePair(next[last], m, streams);
      if CanMerge(next[last], m, samePair, streams) {
        next := next[last := Merged(next[last], m)];
        merged := true;
      } else if samePair && RangesOverlap(next[last], m) {
        return;
      }
    }
    if !merged {
      next := next + [m];
    }
  }

  lemma JoinedKeepsCoalescing(matches: seq<Match>, streams: seq<Stream>, i: nat, coalesced: seq<Match>)
    requires Coalescing(matches, streams, i, coalesced) && i < |matches| && Verified(streams, matches[i])
    ensures Coalescing(matches, streams, i + 1, Joined(streams, coalesced, matches[i]))
  {
    var m := matches[i];
    if coalesced == [] {
      CoalescingPushes(matches, streams, i, coalesced);
      assert [] + [m] == [m];
    } else {
      var last := coalesced[|coalesced| - 1];
      var samePair := Paired(streams, last, m);
      if CanMerge(last, m, samePair, streams) {
        CoalescingMerges(matches, streams, i, coalesced, samePair);
      } else if samePair && RangesOverlap(last, m) {
        assert RepresentedBy(streams, m, last);
      } else {
        CoalescingPushes(matches, streams, i, coalesced);
      }
    }
  }

  lemma MergedGrewFrom(left: Match, right: Match, raw: seq<Match>)
    requires GrewFrom(left, raw)
    ensures GrewFrom(Merged(left, right), raw)
  {
  }
}
