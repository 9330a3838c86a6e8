/** The start lines that are reported for coalesced clones. */
module CloneLines {
  import opened Clones
  import opened CloneReport
  import opened PathOrder

  // ---------- reported lines ----------

  /** Tokens come in the order of their lines. */
  ghost predicate LinesAscend(streams: seq<Stream>, stream: nat) {
    stream < |streams| &&
    forall i, j :: 0 <= i <= j < |streams[stream].tokens| ==>
      streams[stream].tokens[i].line <= streams[stream].tokens[j].line
  }

  /** The reported start lines are those of the first tokens. */
  ghost predicate Anchored(streams: seq<Stream>, m: Match) {
    && InRange(streams, m.streamA, m.startIdxA, m.endIdxA) && InRange(streams, m.streamB, m.startIdxB, m.endIdxB)
    && m.startA == streams[m.streamA].tokens[m.startIdxA].line
    && m.startB == streams[m.streamB].tokens[m.startIdxB].line
  }

  /** A merge keeps the start lines of the left match; they are right exactly when the right match
      does not start on an earlier line on either side. */
  lemma MergeStaysAnchoredExactly(streams: seq<Stream>, left: Match, right: Match)
    requires Anchored(streams, left) && Anchored(streams, right)
    requires left.streamA == right.streamA && left.streamB == right.streamB
    requires LinesAscend(streams, left.streamA) && LinesAscend(streams, left.streamB)
    ensures Anchored(streams, Merged(left, right)) <==> left.startA <= right.startA && left.startB <= right.startB
  {
    var a, b := streams[left.streamA].tokens, streams[left.streamB].tokens;
    assert a[Min(left.startIdxA, right.startIdxA)].line <= a[left.startIdxA].line;
    assert b[Min(left.startIdxB, right.startIdxB)].line <= b[left.startIdxB].line;
    assert left.startIdxA <= right.startIdxA ==> a[left.startIdxA].line <= a[right.startIdxA].line;
    assert left.startIdxB <= right.startIdxB ==> b[left.startIdxB].line <= b[right.startIdxB].line;
  }

  /** The sort orders matches of one pair by their first start line, then by the second: enough
      for merges that keep the alignment. */
  lemma SortedAlignedMergeStaysAnchored(streams: seq<Stream>, left: Match, right: Match)
    requires Anchored(streams, left) && Anchored(streams, right)
    requires left.streamA == right.streamA && left.streamB == right.streamB
    requires LinesAscend(streams, left.streamA) && LinesAscend(streams, left.streamB)
    requires left.startA < right.startA || (left.startA == right.startA && left.startB <= right.startB)
    requires SameAlignment(left, right)
    ensures Anchored(streams, Merged(left, right))
  {
    MergeStaysAnchoredExactly(streams, left, right);
    var b := streams[left.streamB].tokens;
    if left.startA < right.startA {
      LaterLineIsLaterToken(streams, left.streamA, left.startIdxA, right.startIdxA);
      assert b[left.startIdxB].line <= b[right.startIdxB].line;
    }
  }

  lemma LaterLineIsLaterToken(streams: seq<Stream>, stream: nat, i: nat, j: nat)
    requires LinesAscend(streams, stream) && i < |streams[stream].tokens| && j < |streams[stream].tokens|
    requires streams[stream].tokens[i].line < streams[stream].tokens[j].line
    ensures i < j
  {
  }

  // ---------- every coalesced match ----------

  /** The raw matches that each coalesced match grew from, in the order they came. */
  function Parts(matches: seq<Match>, streams: seq<Stream>): (r: seq<seq<Match>>)
    ensures |r| == |Coalesced(matches, streams)|
  {
    if matches == [] then []
    else
      var before, m := matches[..|matches| - 1], matches[|matches| - 1];
      var c, parts := Coalesced(before, streams), Parts(before, streams);
      if c == [] then [[m]]
      else
        var last := |c| - 1;
        var samePair := Paired(streams, c[last], m);
        if CanMerge(c[last], m, samePair, streams) then parts[last := parts[last] + [m]]
        else if samePair && RangesOverlap(c[last], m) then parts
        else parts + [[m]]
  }

  /** A coalesced match begins with the lines of its first part and with the earliest tokens of any, and ends
      with the last lines and tokens of any. */
  ghost predicate Spans(c: Match, part: seq<Match>) {
    && part != [] && c.startA == part[0].startA && c.startB == part[0].startB
    && (forall i :: 0 <= i < |part| ==> SameStreams(c, part[i]))
    && (forall i :: 0 <= i < |part| ==> c.startIdxA <= part[i].startIdxA && c.startIdxB <= part[i].startIdxB)
    && (exists i :: 0 <= i < |part| && c.startIdxA == part[i].startIdxA)
    && (exists i :: 0 <= i < |part| && c.startIdxB == part[i].startIdxB)
    && Ends(c, part)
  }

  ghost predicate Ends(c: Match, part: seq<Match>) {
    && (forall i :: 0 <= i < |part| ==> part[i].endA <= c.endA && part[i].endB <= c.endB)
    && (forall i :: 0 <= i < |part| ==> part[i].endIdxA <= c.endIdxA && part[i].endIdxB <= c.endIdxB)
    && (exists i :: 0 <= i < |part| && c.endA == part[i].endA)
    && (exists i :: 0 <= i < |part| && c.endB == part[i].endB)
    && (exists i :: 0 <= i < |part| && c.endIdxA == part[i].endIdxA)
    && (exists i :: 0 <= i < |part| && c.endIdxB == part[i].endIdxB)
  }

  lemma MergedEnds(c: Match, part: seq<Match>, m: Match)
    requires Ends(c, part)
    ensures Ends(Merged(c, m), part + [m])
  {
    var merged, longer, n := Merged(c, m), part + [m], |part|;
    var i :| 0 <= i < n && c.endA == part[i].endA;
    var j :| 0 <= j < n && c.endB == part[j].endB;
    var k :| 0 <= k < n && c.endIdxA == part[k].endIdxA;
    var l :| 0 <= l < n && c.endIdxB == part[l].endIdxB;
    assert longer[i] == part[i] && longer[j] == part[j] && longer[k] == part[k] && longer[l] == part[l];
    assert longer[n] == m;
    assert merged.endA == longer[i].endA || merged.endA == longer[n].endA;
    assert merged.endB == longer[j].endB || merged.endB == longer[n].endB;
    assert merged.endIdxA == longer[k].endIdxA || merged.endIdxA == longer[n].endIdxA;
    assert merged.endIdxB == longer[l].endIdxB || merged.endIdxB == longer[n].endIdxB;
  }

  predicate SameStreams(c: Match, m: Match) {
    c.streamA == m.streamA && c.streamB == m.streamB
  }

  lemma OnePartSpans(m: Match)
    ensures Spans(m, [m])
  {
    assert [m][0] == m;
  }

  lemma MergedSpans(c: Match, part: seq<Match>, m: Match)
    requires Spans(c, part) && SameStreams(c, m)
    ensures Spans(Merged(c, m), part + [m])
  {
    MergedEnds(c, part, m);
    hide Ends;
    var merged, longer := Merged(c, m), part + [m];
    var i :| 0 <= i < |part| && c.startIdxA == part[i].startIdxA;
    var k :| 0 <= k < |part| && c.startIdxB == part[k].startIdxB;
    assert longer[i] == part[i] && longer[k] == part[k] && longer[|part|] == m;
    assert merged.startIdxA == longer[i].startIdxA || merged.startIdxA == longer[|part|].startIdxA;
    assert merged.startIdxB == longer[k].startIdxB || merged.startIdxB == longer[|part|].startIdxB;
  }

  lemma {:induction false} PartsSpan(matches: seq<Match>, streams: seq<Stream>, k: nat)
    requires k < |Coalesced(matches, streams)|
    ensures Spans(Coalesced(matches, streams)[k], Parts(matches, streams)[k])
  {
    hide Spans, CanMerge, Paired, RangesOverlap;
    var before, m := matches[..|matches| - 1], matches[|matches| - 1];
    var c, parts := Coalesced(before, streams), Parts(before, streams);
    OnePartSpans(m);
    if k < |c| {
      PartsSpan(before, streams, k);
      if k == |c| - 1 {
        LastGrows(c[k], parts[k], m, streams);
      }
    }
  }

  lemma LastGrows(c: Match, part: seq<Match>, m: Match, streams: seq<Stream>)
    requires Spans(c, part)
    ensures CanMerge(c, m, Paired(streams, c, m), streams) ==> Spans(Merged(c, m), part + [m])
  {
    if CanMerge(c, m, Paired(streams, c, m), streams) {
      MergedSpans(c, part, m);
    }
  }

  /** No part starts on an earlier line than the first part. */
  ghost predicate FirstIsEarliest(part: seq<Match>) {
    forall i :: 0 <= i < |part| ==> part[0].startA <= part[i].startA && part[0].startB <= part[i].startB
  }

  lemma SpanIsAnchoredExactly(streams: seq<Stream>, c: Match, part: seq<Match>)
    requires Spans(c, part) && forall i :: 0 <= i < |part| ==> Anchored(streams, part[i])
    requires InRange(streams, c.streamA, c.startIdxA, c.endIdxA) && InRange(streams, c.streamB, c.startIdxB, c.endIdxB)
    requires LinesAscend(streams, c.streamA) && LinesAscend(streams, c.streamB)
    ensures Anchored(streams, c) <==> FirstIsEarliest(part)
  {
    var a, b := streams[c.streamA].tokens, streams[c.streamB].tokens;
    forall i | 0 <= i < |part|
      ensures a[c.startIdxA].line <= part[i].startA && b[c.startIdxB].line <= part[i].startB
    {
      assert Anchored(streams, part[i]) && SameStreams(c, part[i]);
    }
    var i :| 0 <= i < |part| && c.startIdxA == part[i].startIdxA;
    var k :| 0 <= k < |part| && c.startIdxB == part[k].startIdxB;
    assert Anchored(streams, part[i]) && Anchored(streams, part[k]);
    assert a[c.startIdxA].line == part[i].startA && b[c.startIdxB].line == part[k].startB;
  }

  ghost predicate AllAnchored(streams: seq<Stream>, matches: seq<Match>) {
    && (forall i :: 0 <= i < |streams| ==> LinesAscend(streams, i))
    && (forall i :: 0 <= i < |matches| ==> Verified(streams, matches[i]) && Anchored(streams, matches[i]))
  }

  lemma {:induction false} PartsAreRaw(matches: seq<Match>, streams: seq<Stream>, k: nat, i: nat)
    requires k < |Parts(matches, streams)| && i < |Parts(matches, streams)[k]|
    ensures Parts(matches, streams)[k][i] in matches
  {
    hide CanMerge, Paired, RangesOverlap;
    var before := matches[..|matches| - 1];
    assert matches == before + [matches[|matches| - 1]];
    if k < |Parts(before, streams)| && i < |Parts(before, streams)[k]| {
      PartsAreRaw(before, streams, k, i);
    }
  }

  /** The start lines that are reported for a coalesced match are those of its first tokens exactly
      when its first part starts on no later line than any other part, on either side. */
  lemma CoalescedAnchoredExactly(matches: seq<Match>, streams: seq<Stream>, k: nat)
    requires AllAnchored(streams, matches) && k < |Coalesced(matches, streams)|
    ensures Anchored(streams, Coalesced(matches, streams)[k]) <==> FirstIsEarliest(Parts(matches, streams)[k])
  {
    var c, part := Coalesced(matches, streams)[k], Parts(matches, streams)[k];
    PartsSpan(matches, streams, k);
    CoalescedIsCoalescing(matches, streams, |matches|);
    assert matches[..|matches|] == matches && Verified(streams, c);
    forall i | 0 <= i < |part| ensures Anchored(streams, part[i]) {
      PartsAreRaw(matches, streams, k, i);
    }
    SpanIsAnchoredExactly(streams, c, part);
  }

  // ---------- sorted matches ----------

  lemma {:induction false} PartsInOrder(matches: seq<Match>, streams: seq<Stream>, k: nat, i: nat)
    requires Ordered(streams, matches) && k < |Parts(matches, streams)| && 0 < i < |Parts(matches, streams)[k]|
    ensures InOrder(streams, Parts(matches, streams)[k][0], Parts(matches, streams)[k][i])
  {
    hide CanMerge, Paired, RangesOverlap, InOrder;
    var last := |matches| - 1;
    var before := matches[..last];
    if k < |Parts(before, streams)| && i < |Parts(before, streams)[k]| {
      PartsInOrder(before, streams, k, i);
    } else if k < |Parts(before, streams)| {
      PartsSpan(before, streams, k);
      PartsAreRaw(before, streams, k, 0);
      var j :| 0 <= j < last && matches[j] == Parts(before, streams)[k][0];
      assert InOrder(streams, matches[j], matches[last]);
    }
  }

  /** No part starts on an earlier line on side B than the first part. */
  ghost predicate FirstIsEarliestOnB(part: seq<Match>) {
    forall i :: 0 <= i < |part| ==> part[0].startB <= part[i].startB
  }

  /** The sort takes care of side A: for sorted matches only side B can go wrong. */
  lemma SortedAnchoredExactly(matches: seq<Match>, streams: seq<Stream>, k: nat)
    requires AllAnchored(streams, matches) && Ordered(streams, matches) && k < |Coalesced(matches, streams)|
    ensures Anchored(streams, Coalesced(matches, streams)[k]) <==> FirstIsEarliestOnB(Parts(matches, streams)[k])
  {
    CoalescedAnchoredExactly(matches, streams, k);
    PartsSpan(matches, streams, k);
    var part := Parts(matches, streams)[k];
    forall i | 0 <= i < |part| ensures part[0].startA <= part[i].startA {
      if i > 0 {
        PartsInOrder(matches, streams, k, i);
        assert SameStreams(Coalesced(matches, streams)[k], part[0]) &&
               SameStreams(Coalesced(matches, streams)[k], part[i]);
      }
    }
  }
}
