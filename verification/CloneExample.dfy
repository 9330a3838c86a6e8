/** Two files whose clones the index finds in full, and whose last reported clone starts too late. */
module CloneExample {
  import opened CloneLines
  import opened CloneReport
  import opened Clones
  import opened CloneWindows
  import opened PathOrder

  const A := [Token(1, 1), Token(2, 2), Token(9, 3), Token(1, 4), Token(2, 5), Token(1, 6), Token(2, 7)]
  const B := [Token(1, 1), Token(2, 2), Token(1, 3), Token(2, 4)]
  const FILES := [Stream(["a"], A), Stream(["b"], B)]
  const TWO := Sizes(2, 2)

  /** The window that starts at this token; both files have a token a line. */
  function At(s: nat, i: nat): Location {
    Location(s, i + 1, i + 2, i, i + 1)
  }

  function Pair(s: nat, i: nat, t: nat, j: nat): Match {
    MatchOf(At(s, i), At(t, j))
  }

  const WINDOWS :=
    [At(0, 0), At(0, 1), At(0, 2), At(0, 3), At(0, 4), At(0, 5), At(1, 0), At(1, 1), At(1, 2)]

  /** The matches in the order in which the index finds them. */
  const RAW :=
    [Pair(0, 0, 0, 5), Pair(0, 0, 1, 0), Pair(0, 3, 1, 0), Pair(0, 5, 1, 0), Pair(0, 4, 1, 1),
     Pair(0, 0, 1, 2), Pair(0, 3, 1, 2), Pair(0, 5, 1, 2)]

  lemma WindowsOfA(count: nat)
    requires count <= 6
    ensures WindowsBefore(FILES, 0, count, TWO) == WINDOWS[..count]
  {
    if count > 0 {
      WindowsOfA(count - 1);
      assert WindowAt(FILES, 0, count - 1, TWO) == At(0, count - 1) == WINDOWS[count - 1];
    }
  }

  lemma WindowsOfB(count: nat)
    requires count <= 3
    ensures WindowsBefore(FILES, 1, count, TWO) == WINDOWS[6..6 + count]
  {
    if count > 0 {
      WindowsOfB(count - 1);
      assert WindowAt(FILES, 1, count - 1, TWO) == At(1, count - 1) == WINDOWS[5 + count];
    }
  }

  lemma AllWindows()
    ensures WindowsOf(FILES, 2, TWO) == WINDOWS
  {
    WindowsOfA(6);
    WindowsOfB(3);
    assert WindowsOf(FILES, 0, TWO) == [];
    assert WindowsOf(FILES, 1, TWO) == WINDOWS[..6];
  }

  /** The two symbols of each window, as one number. */
  const KEYS: seq<nat> := [12, 29, 91, 12, 21, 12, 12, 21, 12]

  lemma SliceOfTwo(s: nat, i: nat)
    requires s < 2 && i + 1 < |FILES[s].tokens|
    ensures TokenSlice(FILES, s, i, i + 1).Some?
    ensures TokenSlice(FILES, s, i, i + 1).value == [FILES[s].tokens[i], FILES[s].tokens[i + 1]]
  {
  }

  lemma KeyOf(k: nat)
    requires k < 9
    ensures var w := WINDOWS[k];
            && w.stream < 2 && w.startIdx + 1 < |FILES[w.stream].tokens| && w.endIdx == w.startIdx + 1
            && FILES[w.stream].tokens[w.startIdx].symbol <= 9 && FILES[w.stream].tokens[w.startIdx + 1].symbol <= 9
            && KEYS[k] == 10 * FILES[w.stream].tokens[w.startIdx].symbol + FILES[w.stream].tokens[w.startIdx + 1].symbol
  {
  }

  lemma SameByKey(i: nat, j: nat)
    requires i < 9 && j < 9
    ensures SameTokens(FILES, WINDOWS[i], WINDOWS[j]) <==> KEYS[i] == KEYS[j]
  {
    KeyOf(i);
    KeyOf(j);
    var v, w := WINDOWS[i], WINDOWS[j];
    SliceOfTwo(v.stream, v.startIdx);
    SliceOfTwo(w.stream, w.startIdx);
    hide TokenSlice;
    var a := TokenSlice(FILES, v.stream, v.startIdx, v.endIdx).value;
    var b := TokenSlice(FILES, w.stream, w.startIdx, w.endIdx).value;
    assert KindsMatch(a, b) <==> a[0].symbol == b[0].symbol && a[1].symbol == b[1].symbol;
  }

  lemma CloseByIndex(i: nat, j: nat)
    requires i < j < 9
    ensures WINDOWS[i].stream < 2 && WINDOWS[j].stream < 2
    ensures TooClose(FILES, WINDOWS[i], WINDOWS[j], 2) <==> (i >= 6 || j < 6) && j <= i + 3
  {
    assert FILES[0].path != FILES[1].path;
  }

  /** Which windows are equal and not too close. */
  lemma PairsByKey(i: nat, j: nat)
    requires i < j < 9
    ensures Pairs(FILES, WINDOWS[i], WINDOWS[j], 2) <==> KEYS[i] == KEYS[j] && !((i >= 6 || j < 6) && j <= i + 3)
  {
    hide SameTokens, TooClose;
    SameByKey(i, j);
    CloseByIndex(i, j);
  }

  /** The windows that each window is matched with. */
  const PARTNERS: seq<seq<nat>> := [[], [], [], [], [], [0], [0, 3, 5], [4], [0, 3, 5]]

  lemma PartnersAscend()
    ensures forall j :: 0 <= j < 9 ==> Ascending(PARTNERS[j], j)
  {
    assert [0, 3, 5][..2] == [0, 3] && [0, 3][..1] == [0] && [0][..0] == [] && [4][..0] == [];
    assert Ascending([0], 3) && Ascending([0, 3], 5);
  }

  lemma PartnersAreRight(j: nat)
    requires j < 9
    ensures PairsAt(FILES, WINDOWS[..j], WINDOWS[j], 2, PARTNERS[j])
  {
    hide Pairs;
    forall i | 0 <= i < j ensures Pairs(FILES, WINDOWS[i], WINDOWS[j], 2) <==> i in PARTNERS[j] {
      PairsByKey(i, j);
    }
  }

  lemma FoundByWindow(j: nat)
    requires j < 9
    ensures var at := PARTNERS[j];
            && (forall k :: 0 <= k < j ==> WINDOWS[k].stream < 2) && WINDOWS[j].stream < 2
            && (forall i :: 0 <= i < |at| ==> at[i] < j)
            && FoundBy(FILES, WINDOWS[..j], WINDOWS[j], 2) == MatchesAt(FILES, WINDOWS[..j], WINDOWS[j], at)
  {
    hide RawMatch, Pairs;
    PartnersAscend();
    PartnersAreRight(j);
    forall k | 0 <= k < j ensures WINDOWS[..j][k].stream < 2 {
      KeyOf(k);
    }
    KeyOf(j);
    FoundByOnly(FILES, WINDOWS[..j], WINDOWS[j], 2, PARTNERS[j]);
  }

  lemma SidesByOrder(i: nat, j: nat)
    requires i < j < 9
    ensures RawMatch(FILES, WINDOWS[i], WINDOWS[j]) == MatchOf(WINDOWS[i], WINDOWS[j])
  {
    PathOrderIsTotal(["a"], ["a"]);
    PathOrderIsTotal(["b"], ["b"]);
    assert NotAfter(["a"], ["b"]);
  }

  /** How many matches there are once these windows are read. */
  const COUNTS: seq<nat> := [0, 0, 0, 0, 0, 0, 1, 4, 5, 8]

  lemma FoundByNext(j: nat)
    requires j < 9
    ensures FoundBy(FILES, WINDOWS[..j], WINDOWS[j], 2) == RAW[COUNTS[j]..COUNTS[j + 1]]
  {
    hide RawMatch, Pairs;
    FoundByWindow(j);
    var at := PARTNERS[j];
    forall i | 0 <= i < |at|
      ensures RawMatch(FILES, WINDOWS[..j][at[i]], WINDOWS[j]) == RAW[COUNTS[j] + i]
    {
      SidesByOrder(at[i], j);
    }
  }

  lemma FoundUpTo(j: nat)
    requires j <= 9
    ensures Found(FILES, WINDOWS[..j], 2) == RAW[..COUNTS[j]]
  {
    hide RawMatch, Pairs;
    if j > 0 {
      FoundUpTo(j - 1);
      FoundByNext(j - 1);
      assert WINDOWS[..j][..j - 1] == WINDOWS[..j - 1];
      assert COUNTS[j - 1] <= COUNTS[j];
      assert RAW[..COUNTS[j - 1]] + RAW[COUNTS[j - 1]..COUNTS[j]] == RAW[..COUNTS[j]];
    }
  }

  /** The list is all that the index finds in the two files. */
  lemma ListIsComplete()
    ensures RawMatches(FILES, TWO) == RAW
  {
    AllWindows();
    FoundUpTo(9);
    assert WINDOWS[..9] == WINDOWS && RAW[..8] == RAW;
  }

  // ---------- the sort ----------

  const SORTED :=
    [Pair(0, 0, 0, 5), Pair(0, 0, 1, 0), Pair(0, 0, 1, 2), Pair(0, 3, 1, 0), Pair(0, 3, 1, 2), Pair(0, 4, 1, 1),
     Pair(0, 5, 1, 0), Pair(0, 5, 1, 2)]

  /** The place of a match in the order, as one number. */
  function Rank(m: Match): nat {
    m.streamA * 1000 + m.streamB * 100 + m.startA * 10 + m.startB
  }

  predicate Small(m: Match) {
    m.streamA < 2 && m.streamB < 2 && m.startA < 10 && m.startB < 10
  }

  lemma OrderByRank(l: Match, r: Match)
    requires Small(l) && Small(r)
    ensures InOrder(FILES, l, r) <==> Rank(l) <= Rank(r)
  {
    PathOrderIsTotal(["a"], ["a"]);
    PathOrderIsTotal(["b"], ["b"]);
    assert NotAfter(["a"], ["b"]) && !NotAfter(["b"], ["a"]);
  }

  lemma SortedRanks()
    ensures forall i :: 0 <= i < 8 ==> Small(SORTED[i]) && SORTED[i].endIdxA == SORTED[i].startIdxA + 1
    ensures forall i, j :: 0 <= i < j < 8 ==> Rank(SORTED[i]) < Rank(SORTED[j])
  {
  }

  lemma SortedIsInOrder()
    ensures Ordered(FILES, SORTED) && Apart(FILES, SORTED)
  {
    hide InOrder, Rank;
    SortedRanks();
    forall i, j | 0 <= i < j < 8 ensures InOrder(FILES, SORTED[i], SORTED[j]) {
      OrderByRank(SORTED[i], SORTED[j]);
    }
    forall l, r | l in SORTED && r in SORTED && InOrder(FILES, l, r) && InOrder(FILES, r, l) ensures l == r {
      OrderByRank(l, r);
      OrderByRank(r, l);
    }
  }

  /** Where each match of one list stands in the other. */
  lemma SameMatches()
    ensures multiset(RAW) == multiset(SORTED)
  {
    var r := RAW;
    assert r == [r[0]] + [r[1]] + [r[2]] + [r[3]] + [r[4]] + [r[5]] + [r[6]] + [r[7]];
    assert SORTED == [r[0]] + [r[1]] + [r[5]] + [r[2]] + [r[6]] + [r[4]] + [r[3]] + [r[7]];
  }

  lemma RawIsKnown()
    ensures forall i :: 0 <= i < |RAW| ==> CloneReport.Known(FILES, RAW[i])
  {
  }

  lemma SortGivesSorted()
    ensures Sorted(FILES, RAW) == SORTED
  {
    hide InOrder, CloneReport.Known;
    SameMatches();
    SortedIsInOrder();
    RawIsKnown();
    OnlySorting(FILES, RAW, SORTED);
  }

  // ---------- coalescing ----------

  const LATE := Match(0, 4, 7, 3, 6, 1, 3, 4, 0, 3)
  const RESULT := [Pair(0, 0, 0, 5), Pair(0, 0, 1, 0), LATE]

  /** What the loop holds after each match. */
  const STATES: seq<seq<Match>> :=
    [[], [SORTED[0]], [SORTED[0], SORTED[1]], [SORTED[0], SORTED[1]], [SORTED[0], SORTED[1]],
     [SORTED[0], SORTED[1], SORTED[4]], [SORTED[0], SORTED[1], SORTED[4]], RESULT, RESULT]

  lemma JoinedFirst()
    ensures Joined(FILES, STATES[0], SORTED[0]) == STATES[1] && Joined(FILES, STATES[1], SORTED[1]) == STATES[2]
    ensures Joined(FILES, STATES[2], SORTED[2]) == STATES[3] && Joined(FILES, STATES[3], SORTED[3]) == STATES[4]
    ensures Joined(FILES, STATES[4], SORTED[4]) == STATES[5] && Joined(FILES, STATES[5], SORTED[5]) == STATES[6]
  {
    assert FILES[0].path != FILES[1].path;
    NoSliceOfThree();
  }

  lemma NoSliceOfThree()
    ensures TokenSlice(FILES, 0, 3, 5).Some? && TokenSlice(FILES, 1, 1, 3).Some?
    ensures !KindsMatch(TokenSlice(FILES, 0, 3, 5).value, TokenSlice(FILES, 1, 1, 3).value)
  {
    assert TokenSlice(FILES, 0, 3, 5).value[0].symbol == 1 && TokenSlice(FILES, 1, 1, 3).value[0].symbol == 2;
  }

  lemma JoinedLast()
    ensures Joined(FILES, STATES[6], SORTED[6]) == STATES[7] && Joined(FILES, STATES[7], SORTED[7]) == STATES[8]
  {
    var left, right := SORTED[4], SORTED[6];
    SliceOfFour();
    assert MergedRangesMatch(left, right, FILES);
    assert CanMerge(left, right, true, FILES) && Merged(left, right) == LATE;
    assert STATES[6][2 := LATE] == RESULT;
    assert CanMerge(LATE, SORTED[7], true, FILES) && Merged(LATE, SORTED[7]) == LATE;
    assert RESULT[2 := LATE] == RESULT;
  }

  lemma SliceOfFour()
    ensures TokenSlice(FILES, 0, 3, 6).Some? && TokenSlice(FILES, 1, 0, 3).Some?
    ensures KindsMatch(TokenSlice(FILES, 0, 3, 6).value, TokenSlice(FILES, 1, 0, 3).value)
  {
  }

  lemma JoinedNext(k: nat)
    requires k < 8
    ensures Joined(FILES, STATES[k], SORTED[k]) == STATES[k + 1]
  {
    hide Joined;
    JoinedFirst();
    JoinedLast();
  }

  lemma CoalescedUpTo(k: nat)
    requires k <= 8
    ensures Coalesced(SORTED[..k], FILES) == STATES[k]
  {
    if k > 0 {
      CoalescedUpTo(k - 1);
      JoinedNext(k - 1);
      assert SORTED[..k][..k - 1] == SORTED[..k - 1];
    }
  }

  lemma RawIsAnchored()
    ensures AllAnchored(FILES, RawMatches(FILES, TWO))
  {
    hide RawMatches, Window;
    var raw := RawMatches(FILES, TWO);
    forall i | 0 <= i < |raw| ensures Verified(FILES, raw[i]) && Anchored(FILES, raw[i]) {
      RawMatchIsWindow(FILES, TWO, raw[i]);
      WindowIsVerified(FILES, raw[i]);
    }
  }

  lemma WindowIsVerified(streams: seq<Stream>, m: Match)
    requires Window(streams, m, 2, 2)
    ensures Verified(streams, m)
  {
  }

  /** The index finds every pair of equal windows of the two files, each with the right start lines;
      sorted and coalesced, the last clone is reported from line 3 of the second file on, although
      its tokens start on line 1. */
  lemma ShiftedMergeReportsLateLine()
    ensures RawMatches(FILES, TWO) == RAW && AllAnchored(FILES, RAW)
    ensures Coalesced(Sorted(FILES, RAW), FILES) == RESULT
    ensures LATE.startB == 3 && FILES[LATE.streamB].tokens[LATE.startIdxB].line == 1 && !Anchored(FILES, LATE)
  {
    ListIsComplete();
    RawIsAnchored();
    SortGivesSorted();
    CoalescedUpTo(8);
    assert SORTED[..8] == SORTED;
  }
}
