/** Splitting one Rust file between its production and its test policy: byte ranges swept with
    a moving index, lines given a role, and two masked copies that partition the source. */
module RoleViews {
  import opened RoleGraph
  import opened RustOwnership
  import opened Utf8
  import opened Wrappers

  const NEWLINE: Byte := 10
  const RETURN: Byte := 13
  const SPACE: Byte := 32

  predicate Blank(b: Byte) {
    b == SPACE || b == 9 || b == NEWLINE || b == 12 || b == RETURN
  }

  /** What `syntax::analyze` leaves: sorted starts and growing ends.  Ranges may overlap. */
  ghost predicate Swept(ranges: seq<Range>) {
    forall i, j :: 0 <= i < j < |ranges| ==> ranges[i].start <= ranges[j].start && ranges[i].end <= ranges[j].end
  }

  ghost predicate Testing(ranges: seq<Range>, index: nat) {
    exists k :: 0 <= k < |ranges| && ranges[k].start <= index < ranges[k].end
  }

  /** The sweep's index: the first range that ends after the byte. */
  ghost predicate Passed(ranges: seq<Range>, cursor: nat, index: nat) {
    cursor <= |ranges| && forall k :: 0 <= k < cursor ==> ranges[k].end <= index
  }

  /** The range under the sweep's index decides for all ranges. */
  lemma CursorDecides(ranges: seq<Range>, cursor: nat, index: nat)
    requires Swept(ranges) && Passed(ranges, cursor, index)
    requires cursor < |ranges| ==> index < ranges[cursor].end
    ensures Testing(ranges, index) <==> cursor < |ranges| && ranges[cursor].start <= index
  {
    if Testing(ranges, index) {
      var k :| 0 <= k < |ranges| && ranges[k].start <= index < ranges[k].end;
      assert k >= cursor;
      assert cursor < k ==> ranges[cursor].start <= ranges[k].start;
    }
  }

  method Advance(ranges: seq<Range>, cursor: nat, index: nat) returns (next: nat, testing: bool)
    requires Swept(ranges) && Passed(ranges, cursor, index)
    ensures Passed(ranges, next, index)
    ensures testing <==> Testing(ranges, index)
  {
    next := cursor;
    while next < |ranges| && index >= ranges[next].end
      invariant Passed(ranges, next, index)
    {
      next := next + 1;
    }
    CursorDecides(ranges, next, index);
    testing := next < |ranges| && ranges[next].start <= index < ranges[next].end;
  }

  // ---------- physical lines ----------

  function LineEnd(source: Text, from: nat): (end: nat)
    requires from < |source|
    ensures from < end <= |source|
    ensures forall i :: from <= i < end - 1 ==> source[i] != NEWLINE
    ensures end < |source| ==> source[end - 1] == NEWLINE
    decreases |source| - from
  {
    if source[from] == NEWLINE || from + 1 == |source| then from + 1 else LineEnd(source, from + 1)
  }

  /** The lines from a line start on, each with its line feed, as byte ranges. */
  function Lines(source: Text, from: nat): (lines: seq<Range>)
    requires from <= |source|
    decreases |source| - from
  {
    if from == |source| then []
    else [Range(from, LineEnd(source, from))] + Lines(source, LineEnd(source, from))
  }

  lemma {:induction false} LineEndIs(source: Text, from: nat, end: nat)
    requires from < end <= |source|
    requires forall i :: from <= i < end - 1 ==> source[i] != NEWLINE
    requires end < |source| ==> source[end - 1] == NEWLINE
    ensures LineEnd(source, from) == end
    decreases end - from
  {
    if from + 1 < end {
      LineEndIs(source, from + 1, end);
    }
  }

  /** The lines partition the source: they follow each other from `from` to the end. */
  lemma {:induction false} LinesTile(source: Text, from: nat, i: nat)
    requires from <= |source| && i < |Lines(source, from)|
    ensures Lines(source, from)[i].start == if i == 0 then from else Lines(source, from)[i - 1].end
    ensures i == |Lines(source, from)| - 1 ==> Lines(source, from)[i].end == |source|
    ensures from <= Lines(source, from)[i].start < Lines(source, from)[i].end <= |source|
    decreases |source| - from
  {
    if i > 0 {
      LinesTile(source, LineEnd(source, from), i - 1);
      if i > 1 {
        LinesTile(source, LineEnd(source, from), i - 2);
      }
    } else {
      if |Lines(source, from)| == 1 {
        assert LineEnd(source, from) == |source|;
      }
    }
  }

  // ---------- roles of lines ----------

  ghost predicate HasTest(source: Text, ranges: seq<Range>, from: nat, to: nat) {
    exists i :: from <= i < to && i < |source| && !Blank(source[i]) && Testing(ranges, i)
  }

  ghost predicate HasProduction(source: Text, ranges: seq<Range>, from: nat, to: nat) {
    exists i :: from <= i < to && i < |source| && !Blank(source[i]) && !Testing(ranges, i)
  }

  /** A line with non-blank bytes of both roles is ambiguous; else it is test code or not. */
  ghost function LineRole(source: Text, ranges: seq<Range>, line: Range): Option<bool> {
    if HasTest(source, ranges, line.start, line.end) && HasProduction(source, ranges, line.start, line.end) then None
    else Some(HasTest(source, ranges, line.start, line.end))
  }

  function RangesOf(files: Files, path: Path): seq<Range> {
    if path in files && !files[path].explicit then files[path].syntax.testRanges else []
  }

  ghost predicate SweptFiles(files: Files) {
    forall p :: p in files ==> Swept(files[p].syntax.testRanges)
  }

  method LineRoles(files: Files, file: ClassifiedFile, source: Text) returns (roles: seq<Option<bool>>)
    requires SweptFiles(files)
    ensures |roles| == |Lines(source, 0)|
    ensures forall i :: 0 <= i < |roles| ==>
              roles[i] == if FileRoleIn(files, file) == TestRole then Some(true)
                          else LineRole(source, RangesOf(files, file.path), Lines(source, 0)[i])
  {
    ghost var lines := Lines(source, 0);
    if FileRoleIn(files, file) == TestRole {
      return seq(|Lines(source, 0)|, i => Some(true));
    }
    var ranges := RangesOf(files, file.path);
    var offset, cursor := 0, 0;
    roles := [];
    while offset < |source|
      invariant offset <= |source| && |roles| <= |lines|
      invariant lines[|roles|..] == Lines(source, offset)
      invariant Passed(ranges, cursor, offset)
      invariant forall i :: 0 <= i < |roles| ==> roles[i] == LineRole(source, ranges, lines[i])
      decreases |source| - offset
    {
      NextLine(source, lines, |roles|, offset);
      var end := LineEnd(source, offset);
      var production, testing;
      cursor, production, testing := SweepLine(source, ranges, cursor, offset, end);
      roles := roles + [if production && testing then None else Some(testing)];
      offset := end;
    }
  }

  lemma NextLine(source: Text, lines: seq<Range>, count: nat, offset: nat)
    requires count <= |lines| && offset < |source| && lines[count..] == Lines(source, offset)
    ensures count < |lines| && lines[count] == Range(offset, LineEnd(source, offset))
    ensures lines[count + 1..] == Lines(source, LineEnd(source, offset))
  {
    assert lines[count..][0] == lines[count] && lines[count..][1..] == lines[count + 1..];
  }

  /** What the bytes of one line that are no white space are; the range index moves along. */
  method SweepLine(source: Text, ranges: seq<Range>, cursor: nat, offset: nat, end: nat)
    returns (next: nat, production: bool, testing: bool)
    requires Swept(ranges) && Passed(ranges, cursor, offset) && offset <= end <= |source|
    ensures Passed(ranges, next, end)
    ensures testing <==> HasTest(source, ranges, offset, end)
    ensures production <==> HasProduction(source, ranges, offset, end)
  {
    next, production, testing := cursor, false, false;
    for index := offset to end
      invariant Passed(ranges, next, index)
      invariant testing <==> HasTest(source, ranges, offset, index)
      invariant production <==> HasProduction(source, ranges, offset, index)
    {
      var inside;
      next, inside := Advance(ranges, next, index);
      if Blank(source[index]) {
        continue;
      }
      if inside {
        testing := true;
      } else {
        production := true;
      }
    }
  }

  // ---------- masks ----------

  datatype RoleView = RoleView(role: FileRole, text: Text, bytes: nat, lines: nat)

  /** Which bytes belong to the role. */
  type Selection = seq<bool>

  ghost function SelectionOf(ranges: seq<Range>, role: FileRole, count: nat): Selection {
    seq(count, i requires 0 <= i < count => Testing(ranges, i) == (role == TestRole))
  }

  function Chosen(sel: Selection): nat {
    if sel == [] then 0 else Chosen(sel[..|sel| - 1]) + if sel[|sel| - 1] then 1 else 0
  }

  ghost predicate AnyIn(sel: Selection, from: nat, to: nat) {
    exists i :: from <= i < to && i < |sel| && sel[i]
  }

  ghost predicate OccupiedIn(source: Text, sel: Selection, from: nat, to: nat) {
    exists i :: from <= i < to && i < |source| && i < |sel| && sel[i] && !Blank(source[i])
  }

  ghost predicate SubstantiveIn(source: Text, from: nat, to: nat) {
    exists i :: from <= i < to && i < |source| && !Blank(source[i])
  }

  /** A role owns a line where it has a non-blank byte, or where the whole line is blank and it has a byte. */
  ghost predicate Owns(source: Text, sel: Selection, line: Range) {
    || OccupiedIn(source, sel, line.start, line.end)
    || (!SubstantiveIn(source, line.start, line.end) && AnyIn(sel, line.start, line.end))
  }

  ghost function OwnedLines(source: Text, sel: Selection, lines: seq<Range>): nat {
    if lines == [] then 0
    else (if Owns(source, sel, lines[0]) then 1 else 0) + OwnedLines(source, sel, lines[1..])
  }

  function MaskedByte(byte: Byte, selected: bool): Byte {
    if selected || byte == NEWLINE || byte == RETURN then byte else SPACE
  }

  datatype Tally = Tally(bytes: nat, lines: nat, occupied: bool, substantive: bool, included: bool) {
    function Finished(): Tally {
      Tally(bytes, lines + if occupied || (!substantive && included) then 1 else 0, false, false, false)
    }

    function After(byte: Byte, selected: bool): Tally {
      var t := Tally(bytes + if selected then 1 else 0, lines,
                     occupied || (selected && !Blank(byte)), substantive || !Blank(byte), included || selected);
      if byte == NEWLINE then t.Finished() else t
    }
  }

  /** The size counters of one role; the three flags describe the line being read. */
  class RoleSize {
    var bytes: nat
    var lines: nat
    var occupied: bool
    var substantive: bool
    var included: bool

    ghost function Value(): Tally
      reads this
    {
      Tally(bytes, lines, occupied, substantive, included)
    }

    constructor ()
      ensures Value() == Tally(0, 0, false, false, false)
    {
      bytes, lines := 0, 0;
      occupied, substantive, included := false, false, false;
    }

    method Include(byte: Byte, selected: bool)
      modifies this
      ensures Value() == old(Value()).After(byte, selected)
    {
      if selected {
        bytes := bytes + 1;
        included := true;
        occupied := occupied || !Blank(byte);
      }
      substantive := substantive || !Blank(byte);
      if byte == NEWLINE {
        FinishLine();
      }
    }

    method FinishLine()
      modifies this
      ensures Value() == old(Value()).Finished()
    {
      lines := lines + if occupied || (!substantive && included) then 1 else 0;
      occupied, substantive, included := false, false, false;
    }
  }

  /** The counters when the bytes before `index` are read and the line in progress began at `line`. */
  ghost predicate Counting(source: Text, sel: Selection, line: nat, index: nat, t: Tally) {
    && line <= index <= |source| == |sel|
    && (forall i :: line <= i < index ==> source[i] != NEWLINE)
    && t.bytes == Chosen(sel[..index])
    && (t.occupied <==> OccupiedIn(source, sel, line, index))
    && (t.substantive <==> SubstantiveIn(source, line, index))
    && (t.included <==> AnyIn(sel, line, index))
    && t.lines + OwnedLines(source, sel, Lines(source, line)) == OwnedLines(source, sel, Lines(source, 0))
  }

  lemma OneMoreByte(source: Text, sel: Selection, from: nat, index: nat)
    requires from <= index < |source| == |sel|
    ensures OccupiedIn(source, sel, from, index + 1) <==>
            OccupiedIn(source, sel, from, index) || (sel[index] && !Blank(source[index]))
    ensures SubstantiveIn(source, from, index + 1) <==> SubstantiveIn(source, from, index) || !Blank(source[index])
    ensures AnyIn(sel, from, index + 1) <==> AnyIn(sel, from, index) || sel[index]
    ensures Chosen(sel[..index + 1]) == Chosen(sel[..index]) + if sel[index] then 1 else 0
  {
    assert sel[..index + 1][..index] == sel[..index];
  }

  lemma LineCounted(source: Text, sel: Selection, line: nat, end: nat)
    requires line < end <= |source| && LineEnd(source, line) == end
    ensures OwnedLines(source, sel, Lines(source, line)) ==
            (if Owns(source, sel, Range(line, end)) then 1 else 0) + OwnedLines(source, sel, Lines(source, end))
  {
  }

  lemma CountingInLine(source: Text, sel: Selection, line: nat, index: nat, t: Tally)
    requires Counting(source, sel, line, index, t) && index < |source| && source[index] != NEWLINE
    ensures Counting(source, sel, line, index + 1, t.After(source[index], sel[index]))
  {
    hide OccupiedIn, SubstantiveIn, AnyIn, Blank;
    OneMoreByte(source, sel, line, index);
  }

  lemma CountingAtLineEnd(source: Text, sel: Selection, line: nat, index: nat, t: Tally)
    requires Counting(source, sel, line, index, t) && index < |source| && source[index] == NEWLINE
    ensures Counting(source, sel, index + 1, index + 1, t.After(source[index], sel[index]))
  {
    OneMoreByte(source, sel, line, index);
    LineEndIs(source, line, index + 1);
    LineCounted(source, sel, line, index + 1);
  }

  lemma CountingStep(source: Text, sel: Selection, line: nat, index: nat, t: Tally) returns (next: nat)
    requires Counting(source, sel, line, index, t) && index < |source|
    ensures Counting(source, sel, next, index + 1, t.After(source[index], sel[index]))
  {
    if source[index] == NEWLINE {
      CountingAtLineEnd(source, sel, line, index, t);
      next := index + 1;
    } else {
      CountingInLine(source, sel, line, index, t);
      next := line;
    }
  }

  lemma CountingEnds(source: Text, sel: Selection, line: nat, t: Tally)
    requires Counting(source, sel, line, |source|, t)
    ensures t.Finished().bytes == Chosen(sel)
    ensures t.Finished().lines == OwnedLines(source, sel, Lines(source, 0))
  {
    assert sel[..|source|] == sel;
    if line < |source| {
      LineEndIs(source, line, |source|);
      LineCounted(source, sel, line, |source|);
    }
  }

  /** The counters after the first `count` bytes. */
  function TallyAfter(source: Text, sel: Selection, count: nat): Tally
    requires count <= |source| == |sel|
  {
    if count == 0 then Tally(0, 0, false, false, false)
    else TallyAfter(source, sel, count - 1).After(source[count - 1], sel[count - 1])
  }

  lemma {:induction false} TallyIsCounting(source: Text, sel: Selection, count: nat) returns (line: nat)
    requires count <= |source| == |sel|
    ensures Counting(source, sel, line, count, TallyAfter(source, sel, count))
  {
    if count == 0 {
      line := 0;
    } else {
      var before := TallyIsCounting(source, sel, count - 1);
      line := CountingStep(source, sel, before, count - 1, TallyAfter(source, sel, count - 1));
    }
  }

  /** At the end the counters hold the role's bytes and the lines that it owns. */
  lemma TallyCounts(source: Text, sel: Selection)
    requires |source| == |sel|
    ensures TallyAfter(source, sel, |source|).Finished().bytes == Chosen(sel)
    ensures TallyAfter(source, sel, |source|).Finished().lines == OwnedLines(source, sel, Lines(source, 0))
  {
    var line := TallyIsCounting(source, sel, |source|);
    CountingEnds(source, sel, line, TallyAfter(source, sel, |source|));
  }

  /** What the mask of one role is: absent without a byte of the role, else same length, the
      role's bytes and the line ends kept, the rest blanked, and the role's bytes and lines counted. */
  ghost predicate IsMask(source: Text, sel: Selection, role: FileRole, view: Option<RoleView>) {
    && |sel| == |source|
    && (view.None? <==> Chosen(sel) == 0)
    && (view.Some? ==>
          && view.value.role == role
          && view.value.bytes == Chosen(sel)
          && view.value.lines == OwnedLines(source, sel, Lines(source, 0))
          && |view.value.text| == |source|
          && forall i :: 0 <= i < |source| ==> view.value.text[i] == MaskedByte(source[i], sel[i]))
  }

  /** The buffer when the bytes before `index` have been masked. */
  ghost predicate MaskedUpTo(source: Text, sel: Selection, index: nat, text: Text) {
    && index <= |source| == |sel| == |text|
    && forall i :: 0 <= i < |source| ==> text[i] == if i < index then MaskedByte(source[i], sel[i]) else source[i]
  }

  lemma NothingMasked(source: Text, sel: Selection)
    requires |source| == |sel|
    ensures MaskedUpTo(source, sel, 0, source)
  {
  }

  lemma MaskedStep(source: Text, sel: Selection, index: nat, text: Text)
    requires MaskedUpTo(source, sel, index, text) && index < |source|
    ensures MaskedUpTo(source, sel, index + 1, text[index := MaskedByte(text[index], sel[index])])
  {
  }

  method BlankUnselected(text: array<Byte>, index: nat, selected: bool)
    requires index < text.Length
    modifies text
    ensures text[..] == old(text[..])[index := MaskedByte(old(text[index]), selected)]
  {
    if !selected && text[index] != NEWLINE && text[index] != RETURN {
      text[index] := SPACE;
    }
  }

  /** What the counters and the buffer give once every byte is read. */
  lemma MaskFinished(source: Text, sel: Selection, role: FileRole, text: Text, t: Tally)
    requires MaskedUpTo(source, sel, |source|, text) && t == TallyAfter(source, sel, |source|).Finished()
    ensures IsMask(source, sel, role, if t.bytes == 0 then None else Some(RoleView(role, text, t.bytes, t.lines)))
  {
    TallyCounts(source, sel);
  }

  /** The masked copy of one role, or nothing when the role has no byte. */
  method Mask(source: Text, ranges: seq<Range>, role: FileRole) returns (view: Option<RoleView>)
    requires Swept(ranges)
    ensures IsMask(source, SelectionOf(ranges, role, |source|), role, view)
  {
    hide Owns, Blank, MaskedByte, OccupiedIn, SubstantiveIn, AnyIn, IsMask, MaskedUpTo, Testing;
    ghost var sel := SelectionOf(ranges, role, |source|);
    var text := new Byte[|source|](i requires 0 <= i < |source| => source[i]);
    var size := new RoleSize();
    var cursor := 0;
    assert text[..] == source;
    NothingMasked(source, sel);
    for index := 0 to |source|
      invariant Passed(ranges, cursor, index)
      invariant size.Value() == TallyAfter(source, sel, index)
      invariant MaskedUpTo(source, sel, index, text[..])
    {
      var testing;
      cursor, testing := Advance(ranges, cursor, index);
      var selected := testing == (role == TestRole);
      assert selected == sel[index];
      size.Include(source[index], selected);
      MaskedStep(source, sel, index, text[..]);
      BlankUnselected(text, index, selected);
    }
    size.FinishLine();
    MaskFinished(source, sel, role, text[..], size.Value());
    return if size.bytes == 0 then None else Some(RoleView(role, text[..], size.bytes, size.lines));
  }

  /** The views of a file: one for its own role, or the two masks when it mixes roles. */
  method Views(files: Files, file: ClassifiedFile, source: Text) returns (views: seq<RoleView>)
    requires SweptFiles(files)
    ensures var ranges := RangesOf(files, file.path);
            var role := FileRoleIn(files, file);
            if role != Source || ranges == [] then views == [RoleView(role, source, |source|, |Lines(source, 0)|)]
            else Partition(source, ranges, views)
  {
    var role := FileRoleIn(files, file);
    var ranges := RangesOf(files, file.path);
    if role != Source || ranges == [] {
      return [RoleView(role, source, |source|, |Lines(source, 0)|)];
    }
    var production := Mask(source, ranges, Source);
    var testing := Mask(source, ranges, TestRole);
    views := Present(production) + Present(testing);
    MasksPartition(source, ranges, production, testing);
  }

  function Present(view: Option<RoleView>): seq<RoleView> {
    if view.Some? then [view.value] else []
  }

  ghost function SumBytes(views: seq<RoleView>): nat {
    if views == [] then 0 else views[0].bytes + SumBytes(views[1..])
  }

  ghost function SumLines(views: seq<RoleView>): nat {
    if views == [] then 0 else views[0].lines + SumLines(views[1..])
  }

  /** The view shows the byte: at this place it holds the source's byte although masks blank. */
  ghost predicate Shows(view: RoleView, source: Text, index: nat) {
    index < |source| && index < |view.text| && view.text[index] == source[index]
  }

  /** A view of one role keeps length and line ends, and shows a byte that is not blank already
      exactly when the byte has the view's role. */
  ghost predicate Faithful(source: Text, ranges: seq<Range>, view: RoleView) {
    && (view.role == Source || view.role == TestRole)
    && |view.text| == |source|
    && view.bytes > 0
    && view.lines <= |Lines(source, 0)|
    && (forall i :: 0 <= i < |source| && (source[i] == NEWLINE || source[i] == RETURN) ==> Shows(view, source, i))
    && (forall i :: 0 <= i < |source| && Testing(ranges, i) == (view.role == TestRole) ==> Shows(view, source, i))
    && (forall i | 0 <= i < |source| && Testing(ranges, i) != (view.role == TestRole) ::
          source[i] != NEWLINE && source[i] != RETURN ==> view.text[i] == SPACE)
  }

  /** The views split the source: one per role that has bytes, every byte shown by the view of its
      role, the byte counts adding up and no physical line lost. */
  ghost predicate Partition(source: Text, ranges: seq<Range>, views: seq<RoleView>) {
    && |views| <= 2
    && (|views| == 2 ==> views[0].role == Source && views[1].role == TestRole)
    && (forall k :: 0 <= k < |views| ==> Faithful(source, ranges, views[k]))
    && (forall i :: 0 <= i < |source| ==>
          exists k :: 0 <= k < |views| && (views[k].role == TestRole) == Testing(ranges, i))
    && SumBytes(views) == |source|
    && |Lines(source, 0)| <= SumLines(views)
  }

  ghost predicate Complementary(left: Selection, right: Selection) {
    |left| == |right| && forall i :: 0 <= i < |left| ==> left[i] != right[i]
  }

  lemma {:induction false} RolesShareBytes(left: Selection, right: Selection)
    requires Complementary(left, right)
    ensures Chosen(left) + Chosen(right) == |left|
  {
    if left != [] {
      RolesShareBytes(left[..|left| - 1], right[..|right| - 1]);
    }
  }

  lemma {:induction false} ChosenCounts(sel: Selection, index: nat)
    requires index < |sel| && sel[index]
    ensures Chosen(sel) > 0
  {
    if index < |sel| - 1 {
      ChosenCounts(sel[..|sel| - 1], index);
    }
  }

  ghost predicate LinesInside(source: Text, lines: seq<Range>) {
    forall i :: 0 <= i < |lines| ==> lines[i].start < lines[i].end <= |source|
  }

  lemma AllLinesInside(source: Text)
    ensures LinesInside(source, Lines(source, 0))
  {
    forall i | 0 <= i < |Lines(source, 0)|
      ensures Lines(source, 0)[i].start < Lines(source, 0)[i].end <= |source|
    {
      LinesTile(source, 0, i);
    }
  }

  /** Each line is owned by production or by tests; a shared line is owned by both. */
  lemma {:induction false} RolesShareLines(source: Text, left: Selection, right: Selection, lines: seq<Range>)
    requires |left| == |source| && Complementary(left, right) && LinesInside(source, lines)
    ensures OwnedLines(source, left, lines) <= |lines| && OwnedLines(source, right, lines) <= |lines|
    ensures |lines| <= OwnedLines(source, left, lines) + OwnedLines(source, right, lines)
  {
    if lines != [] {
      RolesShareLines(source, left, right, lines[1..]);
      var line := lines[0];
      if SubstantiveIn(source, line.start, line.end) {
        var i :| line.start <= i < line.end && i < |source| && !Blank(source[i]);
        assert left[i] || right[i];
      } else {
        assert left[line.start] || right[line.start];
      }
    }
  }

  lemma {:induction false} NoBytesNoLines(source: Text, sel: Selection, lines: seq<Range>)
    requires Chosen(sel) == 0
    ensures OwnedLines(source, sel, lines) == 0
  {
    if lines != [] {
      NoBytesNoLines(source, sel, lines[1..]);
      if i :| 0 <= i < |sel| && sel[i] {
        ChosenCounts(sel, i);
      }
    }
  }

  lemma MaskIsFaithful(source: Text, ranges: seq<Range>, role: FileRole, view: Option<RoleView>)
    requires role == Source || role == TestRole
    requires IsMask(source, SelectionOf(ranges, role, |source|), role, view)
    ensures view.Some? ==> Faithful(source, ranges, view.value)
    ensures view.None? ==> forall i :: 0 <= i < |source| ==> Testing(ranges, i) != (role == TestRole)
  {
    var sel := SelectionOf(ranges, role, |source|);
    AllLinesInside(source);
    RolesShareLines(source, sel, seq(|sel|, i requires 0 <= i < |sel| => !sel[i]), Lines(source, 0));
    forall i | 0 <= i < |source|
      ensures sel[i] == (Testing(ranges, i) == (role == TestRole))
      ensures sel[i] ==> Chosen(sel) > 0
    {
      if sel[i] {
        ChosenCounts(sel, i);
      }
    }
  }

  lemma SumsOfTwo(left: Option<RoleView>, right: Option<RoleView>)
    ensures SumBytes(Present(left) + Present(right)) ==
            (if left.Some? then left.value.bytes else 0) + if right.Some? then right.value.bytes else 0
    ensures SumLines(Present(left) + Present(right)) ==
            (if left.Some? then left.value.lines else 0) + if right.Some? then right.value.lines else 0
  {
    var all, tail := Present(left) + Present(right), Present(right);
    assert SumBytes([]) == 0 && SumLines([]) == 0;
    if right.Some? {
      assert tail == [right.value] && tail[1..] == [];
    }
    if left.Some? {
      assert all == [left.value] + tail && all[1..] == tail;
    } else {
      assert all == tail;
    }
  }

  /** The counts of the two masks add up to the bytes and cover the lines. */
  lemma MasksAddUp(source: Text, left: Selection, right: Selection,
                   production: Option<RoleView>, testing: Option<RoleView>)
    requires IsMask(source, left, Source, production) && IsMask(source, right, TestRole, testing)
    requires Complementary(left, right)
    ensures SumBytes(Present(production) + Present(testing)) == |source|
    ensures |Lines(source, 0)| <= SumLines(Present(production) + Present(testing))
  {
    var lines := Lines(source, 0);
    AllLinesInside(source);
    RolesShareBytes(left, right);
    RolesShareLines(source, left, right, lines);
    SumsOfTwo(production, testing);
    if production.None? {
      NoBytesNoLines(source, left, lines);
    }
    if testing.None? {
      NoBytesNoLines(source, right, lines);
    }
  }

  lemma MasksPartition(source: Text, ranges: seq<Range>, production: Option<RoleView>, testing: Option<RoleView>)
    requires IsMask(source, SelectionOf(ranges, Source, |source|), Source, production)
    requires IsMask(source, SelectionOf(ranges, TestRole, |source|), TestRole, testing)
    ensures Partition(source, ranges, Present(production) + Present(testing))
  {
    var views := Present(production) + Present(testing);
    MaskIsFaithful(source, ranges, Source, production);
    MaskIsFaithful(source, ranges, TestRole, testing);
    MasksAddUp(source, SelectionOf(ranges, Source, |source|), SelectionOf(ranges, TestRole, |source|), production,
               testing);
    forall i | 0 <= i < |source|
      ensures exists k :: 0 <= k < |views| && (views[k].role == TestRole) == Testing(ranges, i)
    {
      var k := if production.Some? && testing.Some? && Testing(ranges, i) then 1 else 0;
      assert 0 <= k < |views| && (views[k].role == TestRole) == Testing(ranges, i);
    }
  }

  // ---------- the masked text is text ----------

  /** Ranges that begin and end between characters, as byte ranges of syntax nodes do. */
  ghost predicate OnCharBoundaries(s: Text, ranges: seq<Range>) {
    forall k :: 0 <= k < |ranges| ==>
      && (ranges[k].start < |s| ==> !Continuation(s[ranges[k].start]))
      && (ranges[k].end < |s| ==> !Continuation(s[ranges[k].end]))
  }

  lemma {:induction false} SpacesAreText(s: Text, from: nat, to: nat)
    requires from <= to <= |s| && Utf8From(s, to)
    requires forall k :: from <= k < to ==> s[k] == SPACE
    ensures Utf8From(s, from)
    decreases |s| - from
  {
    if from < to {
      SpacesAreText(s, from + 1, to);
      assert CharLength(s, from) == 1;
    }
  }

  /** No character is half selected. */
  ghost predicate WholeCharacters(s: Text, sel: Selection) {
    |sel| == |s| && forall i, k :: 0 <= i < |s| && i <= k < i + CharLength(s, i) ==> sel[k] == sel[i]
  }

  lemma RangesSelectWholeCharacters(s: Text, ranges: seq<Range>, role: FileRole)
    requires OnCharBoundaries(s, ranges)
    ensures WholeCharacters(s, SelectionOf(ranges, role, |s|))
  {
  }

  /** A mask of well-formed text is well-formed text, so its conversion back never fails. */
  lemma {:induction false} MaskIsText(source: Text, sel: Selection, masked: Text, i: nat)
    requires WholeCharacters(source, sel) && i <= |source| == |masked| && Utf8From(source, i)
    requires forall k :: 0 <= k < |source| ==> masked[k] == MaskedByte(source[k], sel[k])
    ensures Utf8From(masked, i)
    decreases |source| - i
  {
    if i < |source| {
      var n := CharLength(source, i);
      MaskIsText(source, sel, masked, i + n);
      MaskedPiece(source, sel, masked, i, n);
      if sel[i] || source[i] == NEWLINE || source[i] == RETURN {
        SameCharacter(source, masked, i);
      } else {
        SpacesAreText(masked, i, i + n);
      }
    }
  }

  /** A character is kept whole or blanked whole. */
  lemma MaskedPiece(source: Text, sel: Selection, masked: Text, i: nat, n: nat)
    requires |source| == |sel| == |masked| && n > 0 && i + n <= |source|
    requires forall k :: i < k < i + n ==> Continuation(source[k])
    requires n > 1 ==> source[i] >= 0x80
    requires forall k :: i <= k < i + n ==> sel[k] == sel[i]
    requires forall k :: 0 <= k < |source| ==> masked[k] == MaskedByte(source[k], sel[k])
    ensures forall k :: i <= k < i + n ==>
              masked[k] == if sel[i] || source[i] == NEWLINE || source[i] == RETURN then source[k] else SPACE
  {
  }

  lemma SameCharacter(s: Text, t: Text, i: nat)
    requires i < |s| == |t| && CharLength(s, i) > 0
    requires forall k :: i <= k < i + CharLength(s, i) ==> t[k] == s[k]
    ensures CharLength(t, i) == CharLength(s, i)
  {
  }

  /** The text of every view that `views` returns for well-formed source is well formed. */
  lemma ViewsAreText(source: Text, ranges: seq<Range>, role: FileRole, view: Option<RoleView>)
    requires Utf8From(source, 0) && OnCharBoundaries(source, ranges)
    requires IsMask(source, SelectionOf(ranges, role, |source|), role, view) && view.Some?
    ensures Utf8From(view.value.text, 0)
  {
    RangesSelectWholeCharacters(source, ranges, role);
    MaskIsText(source, SelectionOf(ranges, role, |source|), view.value.text, 0);
  }

  /** White space: the space, the tab, the line feed, the form feed and the carriage return.  A mask keeps what
      is selected and all line feeds and carriage returns, and shows the rest as spaces. */
  lemma MaskTells(source: Text, sel: Selection, role: FileRole, view: Option<RoleView>, i: nat)
    requires IsMask(source, sel, role, view) && view.Some? && i < |source|
    ensures view.value.text[i] == if sel[i] || source[i] in {10, 13} then source[i] else 32
    ensures Blank(source[i]) <==> source[i] in {9, 10, 12, 13, 32}
  {
    hide Chosen, OwnedLines, Lines;
    assert view.value.text[i] == MaskedByte(source[i], sel[i]);
  }
}
