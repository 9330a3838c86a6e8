/** A whole rendered diff is read back as exactly the new-side lines of its inventory paths. */
module DiffReadBack {
  import opened UnifiedDiff
  import opened DiffRoundTrip
  import opened Wrappers

  /** One file of a diff: its title and extended header lines, its two sides, and its hunks. */
  datatype FileDiff = FileDiff(title: string, extended: seq<Line>, before: Side, after: Side, hunks: seq<Hunk>)

  /** Git names a change after its new path, or its old path when the file was deleted. */
  function Target(d: FileDiff): Path
    requires !d.before.Absent? || !d.after.Absent?
  {
    if d.after.Absent? then d.before.path else d.after.path
  }

  // ---------- well-formed diffs ----------

  /** Any content may follow the mark of a body line. */
  predicate BodyLine(line: Line) {
    line != "" && line[0] in {'+', '-', '\\', ' '}
  }

  predicate HeaderLine(line: Line) {
    !("diff --git " <= line) && !("--- " <= line) && !("+++ " <= line) && !("@@" <= line)
  }

  ghost predicate GoodHunk(h: Hunk) {
    Numbers(h) && Free(h.heading, '\n') &&
    forall i :: 0 <= i < |h.body| ==> BodyLine(h.body[i]) && Free(h.body[i], '\n')
  }

  ghost predicate GoodSides(d: FileDiff) {
    (!d.before.Absent? || !d.after.Absent?) && Renderable(d.before, "a/") && Renderable(d.after, "b/")
  }

  ghost predicate GoodFile(d: FileDiff) {
    && Free(d.title, '\n')
    && (forall i :: 0 <= i < |d.extended| ==> HeaderLine(d.extended[i]) && Free(d.extended[i], '\n'))
    && (d.hunks != [] ==> GoodSides(d))
    && (forall i :: 0 <= i < |d.hunks| ==> GoodHunk(d.hunks[i]))
  }

  ghost predicate GoodFiles(ds: seq<FileDiff>) {
    forall i :: 0 <= i < |ds| ==> GoodFile(ds[i])
  }

  // ---------- rendering ----------

  function RenderHunks(hunks: seq<Hunk>): seq<Line> {
    if hunks == [] then [] else [RenderHeader(hunks[0])] + hunks[0].body + RenderHunks(hunks[1..])
  }

  ghost function RenderSides(d: FileDiff): seq<Line>
    requires GoodSides(d)
  {
    SideBytes(d.before, "a/");
    SideBytes(d.after, "b/");
    ["--- " + RenderSide(d.before, "a/"), "+++ " + RenderSide(d.after, "b/")]
  }

  ghost function RenderFile(d: FileDiff): seq<Line>
    requires GoodFile(d)
  {
    ["diff --git " + d.title] + d.extended + if d.hunks == [] then [] else RenderSides(d) + RenderHunks(d.hunks)
  }

  ghost function RenderFiles(ds: seq<FileDiff>): seq<Line>
    requires GoodFiles(ds)
  {
    if ds == [] then [] else RenderFile(ds[0]) + RenderFiles(ds[1..])
  }

  /** Every line ends in a line feed. */
  ghost function Text(ds: seq<FileDiff>): string
    requires GoodFiles(ds)
  {
    JoinWith(RenderFiles(ds) + [""], '\n')
  }

  // ---------- the lines a diff names ----------

  /** The union of the new-side ranges. */
  function HunkLines(hunks: seq<Hunk>): set<nat> {
    if hunks == [] then {} else NumberRange(hunks[0].newStart, hunks[0].newCount) + HunkLines(hunks[1..])
  }

  predicate Concerns(d: FileDiff, path: Path, inventory: Path -> bool) {
    d.hunks != [] && (!d.before.Absent? || !d.after.Absent?) && Target(d) == path && inventory(path)
  }

  function LinesOf(ds: seq<FileDiff>, path: Path, inventory: Path -> bool): set<nat> {
    if ds == [] then {}
    else (if Concerns(ds[0], path, inventory) then HunkLines(ds[0].hunks) else {}) + LinesOf(ds[1..], path, inventory)
  }

  ghost predicate Names(d: FileDiff, k: int, n: nat) {
    0 <= k < |d.hunks| && d.hunks[k].newStart <= n < d.hunks[k].newStart + d.hunks[k].newCount
  }

  lemma {:induction false} HunkLinesExactly(d: FileDiff, n: nat)
    ensures n in HunkLines(d.hunks) <==> exists k :: Names(d, k, n)
    decreases |d.hunks|
  {
    if d.hunks != [] {
      var rest := d.(hunks := d.hunks[1..]);
      HunkLinesExactly(rest, n);
      if k :| Names(rest, k, n) {
        assert Names(d, k + 1, n);
      }
      if k :| Names(d, k, n) {
        assert k > 0 ==> Names(rest, k - 1, n);
      }
      if n in NumberRange(d.hunks[0].newStart, d.hunks[0].newCount) {
        assert Names(d, 0, n);
      }
    }
  }

  ghost predicate NamedBy(ds: seq<FileDiff>, f: int, path: Path, n: nat, inventory: Path -> bool) {
    0 <= f < |ds| && Concerns(ds[f], path, inventory) && exists k :: Names(ds[f], k, n)
  }

  lemma {:induction false} LinesOfExactly(ds: seq<FileDiff>, path: Path, n: nat, inventory: Path -> bool)
    ensures n in LinesOf(ds, path, inventory) <==> exists f :: NamedBy(ds, f, path, n, inventory)
  {
    if ds != [] {
      LinesOfExactly(ds[1..], path, n, inventory);
      HunkLinesExactly(ds[0], n);
      if f :| NamedBy(ds[1..], f, path, n, inventory) {
        assert NamedBy(ds, f + 1, path, n, inventory);
      }
      if f :| NamedBy(ds, f, path, n, inventory) {
        assert f > 0 ==> NamedBy(ds[1..], f - 1, path, n, inventory);
      }
      if Concerns(ds[0], path, inventory) && n in HunkLines(ds[0].hunks) {
        assert NamedBy(ds, 0, path, n, inventory);
      }
    }
  }

  // ---------- merging ----------

  function Lookup(lines: ChangedLines, path: Path): set<nat> {
    if path in lines then lines[path] else {}
  }

  /** The lines with more lines for a path; a path without lines stays out. */
  function Merged(lines: ChangedLines, path: Path, more: set<nat>): ChangedLines {
    if more == {} then lines else lines[path := Lookup(lines, path) + more]
  }

  lemma MergedTwice(lines: ChangedLines, path: Path, first: set<nat>, second: set<nat>)
    ensures Merged(Merged(lines, path, first), path, second) == Merged(lines, path, first + second)
  {
    assert Lookup(lines, path) + first + second == Lookup(lines, path) + (first + second);
    if first == {} {
      assert first + second == second;
    } else if second == {} {
      assert first + second == first;
    } else {
      assert first + second != {} by {
        var n :| n in first;
        assert n in first + second;
      }
    }
  }

  function MergedFile(lines: ChangedLines, d: FileDiff, inventory: Path -> bool): ChangedLines {
    if d.hunks != [] && (!d.before.Absent? || !d.after.Absent?) && inventory(Target(d)) then
      Merged(lines, Target(d), HunkLines(d.hunks))
    else lines
  }

  function MergedFiles(lines: ChangedLines, ds: seq<FileDiff>, inventory: Path -> bool): ChangedLines
    decreases |ds|
  {
    if ds == [] then lines else MergedFiles(MergedFile(lines, ds[0], inventory), ds[1..], inventory)
  }

  /** No path is recorded without lines. */
  ghost predicate NoneEmpty(lines: ChangedLines) {
    forall path :: path in lines ==> lines[path] != {}
  }

  lemma MergedKeepsNoneEmpty(lines: ChangedLines, path: Path, more: set<nat>)
    requires NoneEmpty(lines)
    ensures NoneEmpty(Merged(lines, path, more))
  {
  }

  lemma {:induction false} MergedFilesLookup(lines: ChangedLines, ds: seq<FileDiff>, path: Path,
                                             inventory: Path -> bool)
    requires NoneEmpty(lines)
    ensures Lookup(MergedFiles(lines, ds, inventory), path) == Lookup(lines, path) + LinesOf(ds, path, inventory)
    ensures NoneEmpty(MergedFiles(lines, ds, inventory))
    decreases |ds|
  {
    if ds != [] {
      var d := ds[0];
      var next := MergedFile(lines, d, inventory);
      if d.hunks != [] && (!d.before.Absent? || !d.after.Absent?) {
        MergedKeepsNoneEmpty(lines, Target(d), HunkLines(d.hunks));
      }
      MergedFilesLookup(next, ds[1..], path, inventory);
    }
  }

  // ---------- reading it back ----------

  lemma {:induction false} ConsumedConcat(p: Parser, a: seq<Line>, b: seq<Line>, inventory: Path -> bool)
    requires ConsumedAll(p, a, inventory).Ok?
    ensures ConsumedAll(p, a + b, inventory) == ConsumedAll(ConsumedAll(p, a, inventory).value, b, inventory)
    decreases |a|
  {
    if a == [] {
      assert a + b == b;
    } else {
      assert (a + b)[0] == a[0] && (a + b)[1..] == a[1..] + b;
      ConsumedConcat(Consumed(p, a[0], inventory).value, a[1..], b, inventory);
    }
  }

  lemma BodyLineIsSkipped(p: Parser, line: Line, inventory: Path -> bool)
    requires p.inHunk && BodyLine(line)
    ensures Consumed(p, line, inventory) == Ok(p)
  {
  }

  /** In a hunk no body line, whatever it holds, changes the parser. */
  lemma {:induction false} BodyIsSkipped(p: Parser, body: seq<Line>, inventory: Path -> bool)
    requires p.inHunk && forall i :: 0 <= i < |body| ==> BodyLine(body[i])
    ensures ConsumedAll(p, body, inventory) == Ok(p)
    decreases |body|
  {
    if body != [] {
      BodyLineIsSkipped(p, body[0], inventory);
      BodyIsSkipped(p, body[1..], inventory);
    }
  }

  lemma {:induction false} ExtendedIsSkipped(p: Parser, extended: seq<Line>, inventory: Path -> bool)
    requires forall i :: 0 <= i < |extended| ==> HeaderLine(extended[i])
    ensures ConsumedAll(p, extended, inventory) == Ok(p)
    decreases |extended|
  {
    if extended != [] {
      assert HeaderLine(extended[0]);
      ExtendedIsSkipped(p, extended[1..], inventory);
    }
  }

  ghost function PathIn(p: Parser): Option<Path> {
    if p.newPath.Some? then p.newPath else p.oldPath
  }

  function Recorded(p: Parser, path: Path, more: set<nat>, inventory: Path -> bool): Parser {
    p.(inHunk := true, lines := if inventory(path) then Merged(p.lines, path, more) else p.lines)
  }

  lemma AddedRange(lines: ChangedLines, path: Path, start: nat, count: nat)
    requires count > 0 ==> start > 0 && start + (count - 1) <= USIZE_MAX
    ensures AddHunkLines(lines, path, start, count) == Ok(Merged(lines, path, NumberRange(start, count)))
  {
  }

  lemma HeaderIsRecorded(p: Parser, h: Hunk, path: Path, inventory: Path -> bool)
    requires Numbers(h) && PathIn(p) == Some(path)
    ensures Consumed(p, RenderHeader(h), inventory) ==
            Ok(Recorded(p, path, NumberRange(h.newStart, h.newCount), inventory))
  {
    var line := RenderHeader(h);
    assert line[0] == '@' && line[1] == '@';
    assert "diff --git "[0] == 'd' && "--- "[0] == '-' && "+++ "[0] == '+';
    assert "@@" <= line;
    ParseRenderedHeader(h);
    AddedRange(p.lines, path, h.newStart, h.newCount);
  }

  lemma HunkIsRecorded(p: Parser, h: Hunk, path: Path, inventory: Path -> bool)
    requires GoodHunk(h) && PathIn(p) == Some(path)
    ensures ConsumedAll(p, [RenderHeader(h)] + h.body, inventory) ==
            Ok(Recorded(p, path, NumberRange(h.newStart, h.newCount), inventory))
  {
    var lines := [RenderHeader(h)] + h.body;
    var q := Recorded(p, path, NumberRange(h.newStart, h.newCount), inventory);
    HeaderIsRecorded(p, h, path, inventory);
    BodyIsSkipped(q, h.body, inventory);
    assert lines[0] == RenderHeader(h) && lines[1..] == h.body;
  }

  lemma RecordedTwice(p: Parser, path: Path, first: set<nat>, second: set<nat>, inventory: Path -> bool)
    ensures Recorded(Recorded(p, path, first, inventory), path, second, inventory) ==
            Recorded(p, path, first + second, inventory)
  {
    MergedTwice(p.lines, path, first, second);
  }

  lemma {:induction false} HunksAreRecorded(p: Parser, hunks: seq<Hunk>, path: Path, inventory: Path -> bool)
    requires PathIn(p) == Some(path) && hunks != []
    requires forall i :: 0 <= i < |hunks| ==> GoodHunk(hunks[i])
    ensures ConsumedAll(p, RenderHunks(hunks), inventory) == Ok(Recorded(p, path, HunkLines(hunks), inventory))
    decreases |hunks|
  {
    var h := hunks[0];
    var first := NumberRange(h.newStart, h.newCount);
    HunkIsRecorded(p, h, path, inventory);
    ConsumedConcat(p, [RenderHeader(h)] + h.body, RenderHunks(hunks[1..]), inventory);
    if |hunks| == 1 {
      assert HunkLines(hunks) == first;
    } else {
      HunksAreRecorded(Recorded(p, path, first, inventory), hunks[1..], path, inventory);
      RecordedTwice(p, path, first, HunkLines(hunks[1..]), inventory);
    }
  }

  lemma SideIsRead(p: Parser, side: Side, inventory: Path -> bool, new_: bool)
    requires !p.inHunk && Renderable(side, if new_ then "b/" else "a/")
    ensures (side.Absent? || side.path != []) &&
            (side.Quoted? ==> Bytes((if new_ then "b/" else "a/") + Raw(side.path)))
    ensures var line := if new_ then "+++ " + RenderSide(side, "b/") else "--- " + RenderSide(side, "a/");
            Consumed(p, line, inventory) ==
            Ok(if new_ then p.(newPath := PathOf(side)) else p.(oldPath := PathOf(side)))
  {
    ParseSide(side, if new_ then "b/" else "a/");
    if new_ {
      var line := "+++ " + RenderSide(side, "b/");
      assert line[0] == '+' && "diff --git "[0] == 'd' && "--- "[0] == '-';
      assert "+++ " <= line && line[4..] == RenderSide(side, "b/");
    } else {
      var line := "--- " + RenderSide(side, "a/");
      assert line[0] == '-' && "diff --git "[0] == 'd' && "--- " <= line && line[4..] == RenderSide(side, "a/");
    }
  }

  lemma SidesAreRead(p: Parser, d: FileDiff, inventory: Path -> bool)
    requires !p.inHunk && GoodSides(d)
    ensures ConsumedAll(p, RenderSides(d), inventory) == Ok(p.(oldPath := PathOf(d.before), newPath := PathOf(d.after)))
  {
    SideIsRead(p, d.before, inventory, false);
    var q := p.(oldPath := PathOf(d.before));
    SideIsRead(q, d.after, inventory, true);
    var lines := RenderSides(d);
    assert lines[1..] == [lines[1]] && lines[1..][1..] == [];
    assert ConsumedAll(q.(newPath := PathOf(d.after)), [], inventory) == Ok(q.(newPath := PathOf(d.after)));
  }

  lemma TitleIsRead(p: Parser, d: FileDiff, inventory: Path -> bool)
    requires GoodFile(d)
    ensures ConsumedAll(p, ["diff --git " + d.title] + d.extended, inventory) == Ok(Parser(None, None, false, p.lines))
  {
    var lines := ["diff --git " + d.title] + d.extended;
    assert "diff --git " <= "diff --git " + d.title;
    assert lines[1..] == d.extended;
    ExtendedIsSkipped(Parser(None, None, false, p.lines), d.extended, inventory);
  }

  /** After a file the parser holds that file's lines as well; its other fields do not matter. */
  lemma FileIsRead(p: Parser, d: FileDiff, inventory: Path -> bool)
    requires GoodFile(d)
    ensures var r := ConsumedAll(p, RenderFile(d), inventory);
            r.Ok? && r.value.lines == MergedFile(p.lines, d, inventory)
  {
    var start := Parser(None, None, false, p.lines);
    var title := ["diff --git " + d.title] + d.extended;
    TitleIsRead(p, d, inventory);
    if d.hunks == [] {
      assert RenderFile(d) == title;
    } else {
      var q := start.(oldPath := PathOf(d.before), newPath := PathOf(d.after));
      ConsumedConcat(p, title, RenderSides(d) + RenderHunks(d.hunks), inventory);
      SidesAreRead(start, d, inventory);
      ConsumedConcat(start, RenderSides(d), RenderHunks(d.hunks), inventory);
      HunksAreRecorded(q, d.hunks, Target(d), inventory);
    }
  }

  lemma {:induction false} FilesAreRead(p: Parser, ds: seq<FileDiff>, inventory: Path -> bool)
    requires GoodFiles(ds)
    ensures var r := ConsumedAll(p, RenderFiles(ds), inventory);
            r.Ok? && r.value.lines == MergedFiles(p.lines, ds, inventory)
    decreases |ds|
  {
    if ds != [] {
      FileIsRead(p, ds[0], inventory);
      var q := ConsumedAll(p, RenderFile(ds[0]), inventory).value;
      FilesAreRead(q, ds[1..], inventory);
      ConsumedConcat(p, RenderFile(ds[0]), RenderFiles(ds[1..]), inventory);
    }
  }

  lemma EmptyLineIsSkipped(p: Parser, inventory: Path -> bool)
    ensures ConsumedAll(p, [""], inventory) == Ok(p)
  {
  }

  // ---------- no rendered line holds a line feed ----------

  lemma FreeConcat(a: string, b: string, c: char)
    requires Free(a, c) && Free(b, c)
    ensures Free(a + b, c)
  {
  }

  lemma OneByteIsFree(b: char, keepHigh: bool)
    requires b < 256 as char
    ensures Free(EncodeByte(b, keepHigh), '\n')
  {
  }

  lemma {:induction false} EncodeIsFree(s: string, keepHigh: bool)
    requires Bytes(s)
    ensures Free(Encode(s, keepHigh), '\n')
  {
    if s != "" {
      OneByteIsFree(s[0], keepHigh);
      EncodeIsFree(s[1..], keepHigh);
      FreeConcat(EncodeByte(s[0], keepHigh), Encode(s[1..], keepHigh), '\n');
    }
  }

  lemma SideIsFree(side: Side, prefix: string)
    requires Renderable(side, prefix) && (prefix == "a/" || prefix == "b/")
    ensures (side.Absent? || side.path != []) && (side.Quoted? ==> Bytes(prefix + Raw(side.path)))
    ensures Free(RenderSide(side, prefix), '\n')
  {
    match side
    case Absent =>
    case Plain(path, tab) =>
      FreeConcat(prefix + Raw(path), if tab then "\t" else "", '\n');
    case Quoted(path, keepHigh, tab) =>
      EncodeIsFree(prefix + Raw(path), keepHigh);
  }

  ghost predicate AllFree(lines: seq<Line>) {
    forall i :: 0 <= i < |lines| ==> Free(lines[i], '\n')
  }

  lemma HeaderIsFree(h: Hunk)
    requires Free(h.heading, '\n')
    ensures Free(RenderHeader(h), '\n')
  {
  }

  lemma {:induction false} HunksAreFree(hunks: seq<Hunk>)
    requires forall i :: 0 <= i < |hunks| ==> GoodHunk(hunks[i])
    ensures AllFree(RenderHunks(hunks))
  {
    if hunks != [] {
      HeaderIsFree(hunks[0]);
      HunksAreFree(hunks[1..]);
    }
  }

  lemma SidesAreFree(d: FileDiff)
    requires GoodSides(d)
    ensures AllFree(RenderSides(d))
  {
    SideIsFree(d.before, "a/");
    SideIsFree(d.after, "b/");
    FreeConcat("--- ", RenderSide(d.before, "a/"), '\n');
    FreeConcat("+++ ", RenderSide(d.after, "b/"), '\n');
  }

  lemma FileIsFree(d: FileDiff)
    requires GoodFile(d)
    ensures AllFree(RenderFile(d))
  {
    FreeConcat("diff --git ", d.title, '\n');
    if d.hunks != [] {
      SidesAreFree(d);
      HunksAreFree(d.hunks);
    }
  }

  lemma {:induction false} FilesAreFree(ds: seq<FileDiff>)
    requires GoodFiles(ds)
    ensures AllFree(RenderFiles(ds))
  {
    if ds != [] {
      FileIsFree(ds[0]);
      FilesAreFree(ds[1..]);
    }
  }

  // ---------- the main results ----------

  lemma TextIsMerged(ds: seq<FileDiff>, inventory: Path -> bool)
    requires GoodFiles(ds) && WellFormedUtf8(Text(ds))
    ensures Parsed(Text(ds), inventory) == Ok(MergedFiles(map[], ds, inventory))
  {
    var lines := RenderFiles(ds) + [""];
    FilesAreFree(ds);
    assert forall i :: 0 <= i < |lines| ==> Free(lines[i], '\n');
    SplitUndoesJoin(lines, '\n');
    FilesAreRead(EMPTY, ds, inventory);
    var p := ConsumedAll(EMPTY, RenderFiles(ds), inventory).value;
    ConsumedConcat(EMPTY, RenderFiles(ds), [""], inventory);
    EmptyLineIsSkipped(p, inventory);
  }

  /** Reading a rendered diff gives, for every path, exactly the union of the new-side ranges of
      the files about it, whatever the body lines hold and however its paths are quoted; no path
      is listed without a line. */
  lemma DiffReadsBack(ds: seq<FileDiff>, inventory: Path -> bool)
    requires GoodFiles(ds) && WellFormedUtf8(Text(ds))
    ensures Parsed(Text(ds), inventory).Ok?
    ensures forall path :: Lookup(Parsed(Text(ds), inventory).value, path) == LinesOf(ds, path, inventory)
    ensures NoneEmpty(Parsed(Text(ds), inventory).value)
  {
    TextIsMerged(ds, inventory);
    var lines := MergedFiles(map[], ds, inventory);
    forall path: Path ensures Lookup(lines, path) == LinesOf(ds, path, inventory) {
      MergedFilesLookup(map[], ds, path, inventory);
    }
    MergedFilesLookup(map[], ds, [], inventory);
  }

  /** A line is reported for a path exactly when some hunk of some file about that inventory path
      covers it on its new side. */
  lemma ReportedExactly(ds: seq<FileDiff>, inventory: Path -> bool, path: Path, n: nat)
    requires GoodFiles(ds) && WellFormedUtf8(Text(ds))
    ensures var r := Parsed(Text(ds), inventory);
            r.Ok? && (path in r.value && n in r.value[path] <==> exists f :: NamedBy(ds, f, path, n, inventory))
  {
    DiffReadsBack(ds, inventory);
    LinesOfExactly(ds, path, n, inventory);
    assert Lookup(Parsed(Text(ds), inventory).value, path) == LinesOf(ds, path, inventory);
  }
}
