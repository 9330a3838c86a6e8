/** The index of token windows: a rolling hash sorts the windows into buckets, and each new window is
    compared with the earlier ones of its bucket only.  Nothing is lost by that: the matches found are
    those of every two windows with the same tokens that are not too close in one file. */
module CloneIndex {
  import opened CloneLines
  import opened CloneMeaning
  import opened CloneReport
  import opened Clones
  import opened PathOrder
  import opened CloneWindows
  import opened RollingHash
  import opened Wrappers

  const MAX_WINDOWS_PER_HASH: nat := 512
  const MAX_RAW_MATCHES: nat := 200_000

  datatype IndexError =
    | HashWindowCapacityExceeded(file: Path, line: nat)
    | RawMatchCapacityExceeded

  // ---------- buckets ----------

  function HashAt(streams: seq<Stream>, location: Location, hash: Hasher): nat {
    var slice := TokenSlice(streams, location.stream, location.startIdx, location.endIdx);
    if slice.Some? then HashOf(Symbols(slice.value), hash) else 0
  }

  function Bucket(streams: seq<Stream>, windows: seq<Location>, hash: Hasher, h: nat): seq<Location> {
    if windows == [] then []
    else
      var last := windows[|windows| - 1];
      Bucket(streams, windows[..|windows| - 1], hash, h) + if HashAt(streams, last, hash) == h then [last] else []
  }

  /** Windows with the same tokens have the same hash. */
  lemma {:induction false} SameTokensSameHash(streams: seq<Stream>, left: Location, right: Location, hash: Hasher)
    requires SameTokens(streams, left, right)
    ensures HashAt(streams, left, hash) == HashAt(streams, right, hash)
  {
    var a := TokenSlice(streams, left.stream, left.startIdx, left.endIdx);
    var b := TokenSlice(streams, right.stream, right.startIdx, right.endIdx);
    assert Symbols(a.value) == Symbols(b.value);
  }

  /** Looking in the window's own bucket finds what looking at all earlier windows finds. */
  lemma {:induction false} BucketSuffices(streams: seq<Stream>, earlier: seq<Location>, location: Location, lines: nat,
                                          hash: Hasher)
    ensures FoundBy(streams, Bucket(streams, earlier, hash, HashAt(streams, location, hash)), location, lines) ==
            FoundBy(streams, earlier, location, lines)
  {
    hide Pairs, HashAt, RawMatch;
    if earlier != [] {
      var previous, h := earlier[|earlier| - 1], HashAt(streams, location, hash);
      BucketSuffices(streams, earlier[..|earlier| - 1], location, lines, hash);
      var before := Bucket(streams, earlier[..|earlier| - 1], hash, h);
      if HashAt(streams, previous, hash) == h {
        assert (before + [previous])[..|before|] == before;
      } else {
        DifferentHashNoPair(streams, previous, location, lines, hash);
        assert before + [] == before;
        assert FoundBy(streams, before, location, lines) + [] == FoundBy(streams, before, location, lines);
      }
    }
  }

  lemma {:induction false} DifferentHashNoPair(streams: seq<Stream>, previous: Location, location: Location,
                                               lines: nat, hash: Hasher)
    requires HashAt(streams, previous, hash) != HashAt(streams, location, hash)
    ensures !Pairs(streams, previous, location, lines)
  {
    if SameTokens(streams, previous, location) {
      SameTokensSameHash(streams, previous, location, hash);
    }
  }

  /** The capacities of the index hold for these windows. */
  ghost predicate Fits(streams: seq<Stream>, windows: seq<Location>, lines: nat, hash: Hasher) {
    && (forall h :: |Bucket(streams, windows, hash, h)| <= MAX_WINDOWS_PER_HASH)
    && |Found(streams, windows, lines)| <= MAX_RAW_MATCHES
  }

  lemma {:induction false} FittingPrefix(streams: seq<Stream>, windows: seq<Location>, n: nat, lines: nat, hash: Hasher)
    requires n <= |windows| && Fits(streams, windows, lines, hash)
    ensures Fits(streams, windows[..n], lines, hash)
    decreases |windows|
  {
    hide Pairs, HashAt, RawMatch;
    if n < |windows| {
      var earlier := windows[..|windows| - 1];
      forall h ensures |Bucket(streams, earlier, hash, h)| <= MAX_WINDOWS_PER_HASH {
        assert |Bucket(streams, earlier, hash, h)| <= |Bucket(streams, windows, hash, h)|;
      }
      FittingPrefix(streams, earlier, n, lines, hash);
      assert earlier[..n] == windows[..n];
    } else {
      assert windows[..n] == windows;
    }
  }

  /** The first window that cannot be taken, and why. */
  ghost predicate Stops(streams: seq<Stream>, windows: seq<Location>, n: nat, lines: nat, hash: Hasher,
                        error: IndexError)
  {
    && n < |windows| && windows[n].stream < |streams|
    && Fits(streams, windows[..n], lines, hash) && !Fits(streams, windows[..n + 1], lines, hash)
    && var full := |Bucket(streams, windows[..n], hash, HashAt(streams, windows[n], hash))| >= MAX_WINDOWS_PER_HASH;
       error == if full
                then HashWindowCapacityExceeded(streams[windows[n].stream].path, windows[n].startLine)
                else RawMatchCapacityExceeded
  }

  /** The map holds the bucket of every hash that some window has. */
  ghost predicate Mapped(windowMap: map<nat, seq<Location>>, streams: seq<Stream>, windows: seq<Location>, hash: Hasher)
  {
    forall h :: (h in windowMap <==> Bucket(streams, windows, hash, h) != []) &&
                (h in windowMap ==> windowMap[h] == Bucket(streams, windows, hash, h))
  }

  lemma {:induction false} MappedOneMore(windowMap: map<nat, seq<Location>>, streams: seq<Stream>,
                                         windows: seq<Location>,
                      location: Location, hash: Hasher)
    requires Mapped(windowMap, streams, windows, hash)
    ensures var h := HashAt(streams, location, hash);
            var existing := if h in windowMap then windowMap[h] else [];
            Mapped(windowMap[h := existing + [location]], streams, windows + [location], hash)
  {
    hide HashAt;
    var more := windows + [location];
    assert more[..|windows|] == windows;
    forall h ensures Bucket(streams, more, hash, h) ==
                     if HashAt(streams, location, hash) == h then Bucket(streams, windows, hash, h) + [location]
                     else Bucket(streams, windows, hash, h)
    {
    }
  }

  lemma {:induction false} BucketIsKnown(streams: seq<Stream>, windows: seq<Location>, hash: Hasher, h: nat)
    requires AllKnown(streams, windows)
    ensures AllKnown(streams, Bucket(streams, windows, hash, h))
  {
    if windows != [] {
      BucketIsKnown(streams, windows[..|windows| - 1], hash, h);
    }
  }

  lemma {:induction false} FoundOneMore(streams: seq<Stream>, windows: seq<Location>, location: Location, lines: nat,
                                        hash: Hasher)
    ensures Found(streams, windows + [location], lines) ==
            Found(streams, windows, lines) +
            FoundBy(streams, Bucket(streams, windows, hash, HashAt(streams, location, hash)), location, lines)
  {
    assert (windows + [location])[..|windows|] == windows;
    BucketSuffices(streams, windows, location, lines, hash);
  }

  /** With one more window the capacities hold exactly when its bucket has room and the matches do. */
  lemma {:induction false} OneMoreFits(streams: seq<Stream>, windows: seq<Location>, location: Location, lines: nat,
                                       hash: Hasher)
    requires Fits(streams, windows, lines, hash)
    ensures var bucket := Bucket(streams, windows, hash, HashAt(streams, location, hash));
            Fits(streams, windows + [location], lines, hash) <==>
            && |bucket| < MAX_WINDOWS_PER_HASH
            && |Found(streams, windows, lines) + FoundBy(streams, bucket, location, lines)| <= MAX_RAW_MATCHES
  {
    hide HashAt, Pairs, RawMatch;
    var more, h := windows + [location], HashAt(streams, location, hash);
    assert more[..|windows|] == windows;
    assert |Bucket(streams, more, hash, h)| == |Bucket(streams, windows, hash, h)| + 1;
    forall k | k != h ensures Bucket(streams, more, hash, k) == Bucket(streams, windows, hash, k) {
    }
    FoundOneMore(streams, windows, location, lines, hash);
  }

  /** What the index holds after these windows. */
  ghost predicate Indexed(windowMap: map<nat, seq<Location>>, rawMatches: seq<Match>, streams: seq<Stream>,
                          windows: seq<Location>, lines: nat, hash: Hasher)
  {
    && Mapped(windowMap, streams, windows, hash)
    && rawMatches == Found(streams, windows, lines)
    && Fits(streams, windows, lines, hash) && AllKnown(streams, windows)
  }

  function Existing(windowMap: map<nat, seq<Location>>, h: nat): seq<Location> {
    if h in windowMap then windowMap[h] else []
  }

  lemma {:induction false} ExistingIsBucket(windowMap: map<nat, seq<Location>>, rawMatches: seq<Match>,
                                            streams: seq<Stream>,
                         windows: seq<Location>, lines: nat, hash: Hasher, h: nat)
    requires Indexed(windowMap, rawMatches, streams, windows, lines, hash)
    ensures Existing(windowMap, h) == Bucket(streams, windows, hash, h)
    ensures AllKnown(streams, Existing(windowMap, h)) && |rawMatches| <= MAX_RAW_MATCHES
  {
    BucketIsKnown(streams, windows, hash, h);
  }

  lemma {:induction false} Recorded(windowMap: map<nat, seq<Location>>, rawMatches: seq<Match>, streams: seq<Stream>,
                 windows: seq<Location>, location: Location, lines: nat, hash: Hasher, found: seq<Match>)
    requires Indexed(windowMap, rawMatches, streams, windows, lines, hash) && location.stream < |streams|
    requires var existing := Existing(windowMap, HashAt(streams, location, hash));
             && |existing| < MAX_WINDOWS_PER_HASH
             && found == rawMatches + FoundBy(streams, existing, location, lines)
    requires |found| <= MAX_RAW_MATCHES
    ensures var h := HashAt(streams, location, hash);
            Indexed(windowMap[h := Existing(windowMap, h) + [location]], found, streams, windows +
                    [location], lines, hash)
  {
    ExistingIsBucket(windowMap, rawMatches, streams, windows, lines, hash, HashAt(streams, location, hash));
    hide HashAt, Fits, Mapped, Pairs, RawMatch;
    OneMoreFits(streams, windows, location, lines, hash);
    FoundOneMore(streams, windows, location, lines, hash);
    MappedOneMore(windowMap, streams, windows, location, hash);
  }

  lemma {:induction false} NoRoom(windowMap: map<nat, seq<Location>>, rawMatches: seq<Match>, streams: seq<Stream>,
               windows: seq<Location>, location: Location, lines: nat, hash: Hasher, error: IndexError)
    requires Indexed(windowMap, rawMatches, streams, windows, lines, hash) && location.stream < |streams|
    requires var existing := Existing(windowMap, HashAt(streams, location, hash));
             if |existing| >= MAX_WINDOWS_PER_HASH
             then error == HashWindowCapacityExceeded(streams[location.stream].path, location.startLine)
             else error == RawMatchCapacityExceeded &&
                  |rawMatches + FoundBy(streams, existing, location, lines)| > MAX_RAW_MATCHES
    ensures Stops(streams, windows + [location], |windows|, lines, hash, error)
  {
    ExistingIsBucket(windowMap, rawMatches, streams, windows, lines, hash, HashAt(streams, location, hash));
    hide HashAt, Fits, Mapped, Pairs, RawMatch;
    OneMoreFits(streams, windows, location, lines, hash);
    var more := windows + [location];
    assert more[..|windows|] == windows && more[..|windows| + 1] == more;
  }

  lemma {:induction false} FoundByGrows(streams: seq<Stream>, existing: seq<Location>, i: nat, location: Location,
                                        lines: nat)
    requires i <= |existing|
    ensures |FoundBy(streams, existing[..i], location, lines)| <= |FoundBy(streams, existing, location, lines)|
    decreases |existing|
  {
    if i < |existing| {
      FoundByGrows(streams, existing[..|existing| - 1], i, location, lines);
      assert existing[..|existing| - 1][..i] == existing[..i];
    } else {
      assert existing[..i] == existing;
    }
  }

  class CloneIndexState {
    var windowMap: map<nat, seq<Location>>
    var rawMatches: seq<Match>

    ghost predicate Holds(streams: seq<Stream>, windows: seq<Location>, lines: nat, hash: Hasher)
      reads this
    {
      Indexed(windowMap, rawMatches, streams, windows, lines, hash)
    }

    constructor (streams: seq<Stream>, lines: nat, hash: Hasher)
      ensures Holds(streams, [], lines, hash)
    {
      windowMap, rawMatches := map[], [];
    }

    /** Takes one more window, or tells why the index has no room for it. */
    method CheckAndRecord(location: Location, h: nat, streams: seq<Stream>, lines: nat, ghost hash: Hasher,
                          ghost windows: seq<Location>)
      returns (error: Option<IndexError>)
      requires Holds(streams, windows, lines, hash) && location.stream < |streams|
      requires h == HashAt(streams, location, hash)
      modifies this
      ensures error.None? ==> Holds(streams, windows + [location], lines, hash)
      ensures error.Some? ==> Stops(streams, windows + [location], |windows|, lines, hash, error.value)
    {
      hide HashAt, Indexed, Stops, Pairs, RawMatch;
      ExistingIsBucket(windowMap, rawMatches, streams, windows, lines, hash, h);
      if h in windowMap {
        var existing := windowMap[h];
        if |existing| >= MAX_WINDOWS_PER_HASH {
          error := Some(HashWindowCapacityExceeded(streams[location.stream].path, location.startLine));
          NoRoom(windowMap, rawMatches, streams, windows, location, lines, hash, error.value);
          return;
        }
        ghost var before := rawMatches;
        error := CompareExistingWindows(existing, location, streams, lines);
        if error.Some? {
          NoRoom(windowMap, before, streams, windows, location, lines, hash, error.value);
          return;
        }
        Recorded(windowMap, before, streams, windows, location, lines, hash, rawMatches);
        windowMap := windowMap[h := existing + [location]];
      } else {
        Recorded(windowMap, rawMatches, streams, windows, location, lines, hash, rawMatches);
        assert [] + [location] == [location];
        windowMap := windowMap[h := [location]];
        error := None;
      }
    }

    method CompareExistingWindows(existing: seq<Location>, location: Location, streams: seq<Stream>, lines: nat)
      returns (error: Option<IndexError>)
      requires location.stream < |streams| && |rawMatches| <= MAX_RAW_MATCHES
      requires forall k :: 0 <= k < |existing| ==> existing[k].stream < |streams|
      modifies this`rawMatches
      ensures error.None? ==> rawMatches == old(rawMatches) + FoundBy(streams, existing, location, lines)
      ensures error.None? ==> |rawMatches| <= MAX_RAW_MATCHES
      ensures error.Some? ==> error.value == RawMatchCapacityExceeded
      ensures error.Some? ==> |old(rawMatches) + FoundBy(streams, existing, location, lines)| > MAX_RAW_MATCHES
    {
      for i := 0 to |existing|
        invariant rawMatches == old(rawMatches) + FoundBy(streams, existing[..i], location, lines)
        invariant |rawMatches| <= MAX_RAW_MATCHES
      {
        assert existing[..i + 1][..i] == existing[..i];
        var previous := existing[i];
        if !TooClose(streams, previous, location, lines) && SameTokens(streams, previous, location) {
          if |rawMatches| >= MAX_RAW_MATCHES {
            FoundByGrows(streams, existing, i + 1, location, lines);
            return Some(RawMatchCapacityExceeded);
          }
          rawMatches := rawMatches + [RawMatch(streams, previous, location)];
        }
      }
      assert existing[..|existing|] == existing;
      error := None;
    }

    /** The windows of one stream, with a hash that rolls along. */
    method IndexFileWindows(streams: seq<Stream>, s: nat, sizes: Sizes, hash: Hasher, ghost windows: seq<Location>)
      returns (error: Option<IndexError>)
      requires Holds(streams, windows, sizes.lines, hash) && s < |streams| && 0 < sizes.tokens
      modifies this
      ensures var all := windows + WindowsBefore(streams, s, WindowCount(streams[s].tokens, sizes), sizes);
              && (error.None? ==> Holds(streams, all, sizes.lines, hash))
              && (error.Some? ==> exists n :: |windows| <= n && Stops(streams, all, n, sizes.lines, hash, error.value))
    {
      hide HashAt, Indexed, Stops, Rolled, HashOf, Power;
      var tokens := streams[s].tokens;
      if |tokens| < sizes.tokens {
        assert windows + [] == windows;
        return None;
      }
      FirstHash(streams, s, sizes, hash);
      var h := InitRollingHash(Symbols(tokens[..sizes.tokens]), hash);
      var pow := CalcPowBase(sizes.tokens - 1);
      var i := 0;
      assert windows + WindowsBefore(streams, s, 0, sizes) == windows;
      while true
        invariant i + sizes.tokens <= |tokens| && h == HashAt(streams, WindowAt(streams, s, i, sizes), hash)
        invariant Holds(streams, windows + WindowsBefore(streams, s, i, sizes), sizes.lines, hash)
        decreases |tokens| - i
      {
        var location := WindowAt(streams, s, i, sizes);
        NextWindow(streams, s, i, sizes, windows);
        if Tall(location, sizes) {
          ghost var before := windows + WindowsBefore(streams, s, i, sizes);
          error := CheckAndRecord(location, h, streams, sizes.lines, hash, before);
          if error.Some? {
            StopsInStream(streams, s, i, sizes, windows, hash, error.value);
            return;
          }
        }
        if i + sizes.tokens >= |tokens| {
          return None;
        }
        RollOn(streams, s, i, sizes, hash);
        h := Rolled(h, hash(tokens[i].symbol), pow, hash(tokens[i + sizes.tokens].symbol));
        i := i + 1;
      }
    }
  }

  lemma {:induction false} FirstHash(streams: seq<Stream>, s: nat, sizes: Sizes, hash: Hasher)
    requires s < |streams| && 0 < sizes.tokens <= |streams[s].tokens|
    ensures HashAt(streams, WindowAt(streams, s, 0, sizes), hash) ==
            HashOf(Symbols(streams[s].tokens[..sizes.tokens]), hash)
  {
  }

  /** Rolling on from a window gives the hash of the next one. */
  lemma {:induction false} RollOn(streams: seq<Stream>, s: nat, i: nat, sizes: Sizes, hash: Hasher)
    requires s < |streams| && 0 < sizes.tokens && i + sizes.tokens < |streams[s].tokens|
    ensures var tokens := streams[s].tokens;
            HashAt(streams, WindowAt(streams, s, i + 1, sizes), hash) ==
            Rolled(HashAt(streams, WindowAt(streams, s, i, sizes), hash), hash(tokens[i].symbol),
                   Wrapped(Power(sizes.tokens - 1)), hash(tokens[i + sizes.tokens].symbol))
  {
    hide Rolled, HashOf, Wrapped, Power;
    var tokens, n := streams[s].tokens, sizes.tokens;
    var window, next := Symbols(tokens[i..i + n]), Symbols(tokens[i + 1..i + 1 + n]);
    RollingIsFresh(window, tokens[i + n].symbol, hash);
    assert next == window[1..] + [tokens[i + n].symbol];
  }

  lemma {:induction false} NextWindow(streams: seq<Stream>, s: nat, i: nat, sizes: Sizes, windows: seq<Location>)
    requires s < |streams| && 0 < sizes.tokens && i + sizes.tokens <= |streams[s].tokens|
    ensures var location := WindowAt(streams, s, i, sizes);
            windows + WindowsBefore(streams, s, i + 1, sizes) ==
            if Tall(location, sizes) then windows + WindowsBefore(streams, s, i, sizes) + [location]
            else windows + WindowsBefore(streams, s, i, sizes)
  {
  }

  lemma {:induction false} WindowsBeforePrefix(streams: seq<Stream>, s: nat, i: nat, count: nat, sizes: Sizes)
    requires s < |streams| && 0 < sizes.tokens && i <= count <= WindowCount(streams[s].tokens, sizes)
    ensures WindowsBefore(streams, s, i, sizes) <= WindowsBefore(streams, s, count, sizes)
  {
    if i < count {
      WindowsBeforePrefix(streams, s, i, count - 1, sizes);
    }
  }

  lemma {:induction false} StopsLater(streams: seq<Stream>, windows: seq<Location>, more: seq<Location>, n: nat,
                                      lines: nat, hash: Hasher,
                   error: IndexError)
    requires Stops(streams, windows, n, lines, hash, error) && windows <= more
    ensures Stops(streams, more, n, lines, hash, error)
  {
    assert more[..n] == windows[..n] && more[..n + 1] == windows[..n + 1];
  }

  lemma {:induction false} StopsInStream(streams: seq<Stream>, s: nat, i: nat, sizes: Sizes, windows: seq<Location>,
                                         hash: Hasher,
                      error: IndexError)
    requires s < |streams| && 0 < sizes.tokens && i + sizes.tokens <= |streams[s].tokens|
    requires var location := WindowAt(streams, s, i, sizes);
             var before := windows + WindowsBefore(streams, s, i, sizes);
             Tall(location, sizes) && Stops(streams, before + [location], |before|, sizes.lines, hash, error)
    ensures var all := windows + WindowsBefore(streams, s, WindowCount(streams[s].tokens, sizes), sizes);
            exists n :: |windows| <= n && Stops(streams, all, n, sizes.lines, hash, error)
  {
    hide Stops, Tall;
    var count := WindowCount(streams[s].tokens, sizes);
    var before := windows + WindowsBefore(streams, s, i, sizes);
    TakenIsPrefix(streams, s, i, sizes, windows);
    StopsLater(streams, before + [WindowAt(streams, s, i, sizes)], windows + WindowsBefore(streams, s, count, sizes),
               |before|, sizes.lines, hash, error);
  }

  lemma {:induction false} TakenIsPrefix(streams: seq<Stream>, s: nat, i: nat, sizes: Sizes, windows: seq<Location>)
    requires s < |streams| && 0 < sizes.tokens && i + sizes.tokens <= |streams[s].tokens|
    requires Tall(WindowAt(streams, s, i, sizes), sizes)
    ensures windows + WindowsBefore(streams, s, i, sizes) + [WindowAt(streams, s, i, sizes)] <=
            windows + WindowsBefore(streams, s, WindowCount(streams[s].tokens, sizes), sizes)
  {
    NextWindow(streams, s, i, sizes, windows);
    WindowsBeforePrefix(streams, s, i + 1, WindowCount(streams[s].tokens, sizes), sizes);
  }

  lemma {:induction false} WindowsOfPrefix(streams: seq<Stream>, i: nat, n: nat, sizes: Sizes)
    requires i <= n <= |streams| && 0 < sizes.tokens
    ensures WindowsOf(streams, i, sizes) <= WindowsOf(streams, n, sizes)
  {
    if i < n {
      WindowsOfPrefix(streams, i, n - 1, sizes);
    }
  }

  lemma {:induction false} StopsIsNoFit(streams: seq<Stream>, windows: seq<Location>, n: nat, lines: nat, hash: Hasher,
                                        error: IndexError)
    requires Stops(streams, windows, n, lines, hash, error)
    ensures !Fits(streams, windows, lines, hash)
  {
    if Fits(streams, windows, lines, hash) {
      FittingPrefix(streams, windows, n + 1, lines, hash);
    }
  }

  /** The whole index: every equal pair of windows, or an error exactly when a capacity does not hold,
      which then names the first window that is not taken. */
  method BuildIndex(streams: seq<Stream>, sizes: Sizes, hash: Hasher)
    returns (error: Option<IndexError>, rawMatches: seq<Match>)
    requires 0 < sizes.tokens
    ensures error.None? <==> Fits(streams, WindowsOf(streams, |streams|, sizes), sizes.lines, hash)
    ensures error.None? ==> rawMatches == RawMatches(streams, sizes)
    ensures error.Some? ==>
              exists n :: Stops(streams, WindowsOf(streams, |streams|, sizes), n, sizes.lines, hash, error.value)
  {
    hide Fits, Stops, Mapped, AllKnown;
    var state := new CloneIndexState(streams, sizes.lines, hash);
    for s := 0 to |streams|
      invariant state.Holds(streams, WindowsOf(streams, s, sizes), sizes.lines, hash)
    {
      error := state.IndexFileWindows(streams, s, sizes, hash, WindowsOf(streams, s, sizes));
      if error.Some? {
        ghost var n :| Stops(streams, WindowsOf(streams, s + 1, sizes), n, sizes.lines, hash, error.value);
        WindowsOfPrefix(streams, s + 1, |streams|, sizes);
        StopsLater(streams, WindowsOf(streams, s + 1, sizes), WindowsOf(streams, |streams|, sizes), n, sizes.lines,
                   hash, error.value);
        StopsIsNoFit(streams, WindowsOf(streams, |streams|, sizes), n, sizes.lines, hash, error.value);
        rawMatches := [];
        return;
      }
    }
    error, rawMatches := None, state.rawMatches;
  }

  // ---------- from streams to violations ----------

  lemma PartsInside(streams: seq<Stream>, matches: seq<Match>, sorted: seq<Match>, part: seq<Match>)
    requires sorted == Sorted(streams, matches) && forall k :: 0 <= k < |part| ==> part[k] in sorted
    ensures forall k :: 0 <= k < |part| ==> part[k] in matches
  {
    forall k | 0 <= k < |part| ensures part[k] in matches {
      SortedHolds(streams, matches, part[k]);
    }
  }

  lemma {:induction false} FittingTells(streams: seq<Stream>, sizes: Sizes, hash: Hasher)
    requires 0 < sizes.tokens && Fits(streams, WindowsOf(streams, |streams|, sizes), sizes.lines, hash)
    ensures |RawMatches(streams, sizes)| <= 200_000
    ensures forall h :: |Bucket(streams, WindowsOf(streams, |streams|, sizes), hash, h)| <= 512
  {
  }

  lemma {:induction false} FoundGrows(streams: seq<Stream>, windows: seq<Location>, n: nat, lines: nat, hash: Hasher,
                                      h: nat)
    requires n <= |windows|
    ensures |Found(streams, windows[..n], lines)| <= |Found(streams, windows, lines)|
    ensures |Bucket(streams, windows[..n], hash, h)| <= |Bucket(streams, windows, hash, h)|
    decreases |windows|
  {
    hide HashAt;
    if n < |windows| {
      var earlier := windows[..|windows| - 1];
      FoundGrows(streams, earlier, n, lines, hash, h);
      assert earlier[..n] == windows[..n];
    } else {
      assert windows[..n] == windows;
    }
  }

  /** What an error means: more than 200000 matches, or more than 512 windows of one hash. */
  lemma {:induction false} CapacityTells(streams: seq<Stream>, sizes: Sizes, hash: Hasher, n: nat, error: IndexError)
    requires 0 < sizes.tokens
    requires Stops(streams, WindowsOf(streams, |streams|, sizes), n, sizes.lines, hash, error)
    ensures error == RawMatchCapacityExceeded ==> |RawMatches(streams, sizes)| > 200_000
    ensures error.HashWindowCapacityExceeded? ==>
              exists h :: |Bucket(streams, WindowsOf(streams, |streams|, sizes), hash, h)| > 512
  {
    var windows := WindowsOf(streams, |streams|, sizes);
    var h := HashAt(streams, windows[n], hash);
    assert windows[..n + 1] == windows[..n] + [windows[n]] && windows[..n + 1][..n] == windows[..n];
    OneMoreFits(streams, windows[..n], windows[n], sizes.lines, hash);
    FoundOneMore(streams, windows[..n], windows[n], sizes.lines, hash);
    FoundGrows(streams, windows, n + 1, sizes.lines, hash, h);
  }

  /** The whole detection.  Unless a capacity of the index does not hold, every two windows that the
      index must join are part of what is reported, and what is reported holds the same tokens twice. */
  method DetectClonesBorrowed(streams: seq<Stream>, sizes: Sizes, hash: Hasher)
    returns (error: Option<IndexError>, coalesced: seq<Match>, violations: seq<Violation>)
    requires 0 < sizes.tokens && Addressable(streams)
    ensures error.None? <==> Fits(streams, WindowsOf(streams, |streams|, sizes), sizes.lines, hash)
    ensures error.None? ==> coalesced == Coalesced(Sorted(streams, RawMatches(streams, sizes)), streams)
    ensures error.None? ==>
              |violations| == |coalesced| &&
              forall i :: 0 <= i < |coalesced| ==>
                Verified(streams, coalesced[i]) &&
                Some(violations[i]) == BuildViolation(coalesced[i], sizes.tokens, sizes.lines, streams)
    ensures error.None? ==>
              forall l, r, m :: TwinMatch(streams, sizes, l, r, m) ==> Represented(streams, m, coalesced)
    ensures error.None? ==>
              var parts := Parts(Sorted(streams, RawMatches(streams, sizes)), streams);
              |parts| == |violations| &&
              forall i :: 0 <= i < |violations| ==>
                TellsParts(streams, parts[i], violations[i]) &&
                forall k :: 0 <= k < |parts[i]| ==> parts[i][k] in RawMatches(streams, sizes)
    ensures error.None? ==> |RawMatches(streams, sizes)| <= 200_000
    ensures error.None? ==> forall h :: |Bucket(streams, WindowsOf(streams, |streams|, sizes), hash, h)| <= 512
    ensures error == Some(RawMatchCapacityExceeded) ==> |RawMatches(streams, sizes)| > 200_000
    ensures error.Some? && error.value.HashWindowCapacityExceeded? ==>
              exists h :: |Bucket(streams, WindowsOf(streams, |streams|, sizes), hash, h)| > 512
  {
    hide Fits, Stops, TwinMatch, RawMatches, Verified, Represented, BuildViolation, Window, TellsParts;
    var rawMatches;
    error, rawMatches := BuildIndex(streams, sizes, hash);
    if error.Some? {
      coalesced, violations := [], [];
      ghost var n :| Stops(streams, WindowsOf(streams, |streams|, sizes), n, sizes.lines, hash, error.value);
      CapacityTells(streams, sizes, hash, n, error.value);
      return;
    }
    FittingTells(streams, sizes, hash);
    forall i | 0 <= i < |rawMatches| ensures Window(streams, rawMatches[i], sizes.tokens, sizes.lines) {
      RawMatchIsWindow(streams, sizes, rawMatches[i]);
    }
    coalesced, violations := DetectClones(rawMatches, sizes.tokens, sizes.lines, streams);
    ghost var sorted := Sorted(streams, rawMatches);
    forall i | 0 <= i < |violations|
      ensures TellsParts(streams, Parts(sorted, streams)[i], violations[i])
      ensures forall k :: 0 <= k < |Parts(sorted, streams)[i]| ==> Parts(sorted, streams)[i][k] in rawMatches
    {
      ReportTells(streams, sorted, i, sizes.tokens, sizes.lines, violations[i]);
      PartsInside(streams, rawMatches, sorted, Parts(sorted, streams)[i]);
    }
    forall l, r, m | TwinMatch(streams, sizes, l, r, m) ensures Represented(streams, m, coalesced) {
      RawMatchesExactly(streams, sizes, m);
    }
  }
}
