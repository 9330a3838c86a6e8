/** Line and column coordinates of mutants, the bytes they name, and the check that a mutant
    lies in production code. */
module SpanPosition {
  import opened RoleGraph
  import opened RustOwnership
  import opened RoleViews
  import opened Utf8
  import opened Wrappers

  /** One-based line and column. */
  datatype Point = Point(line: int, column: int)

  predicate Before(a: Point, b: Point) {
    a.line < b.line || (a.line == b.line && a.column < b.column)
  }

  /** The length of a character in UTF-8. */
  function Width(c: char): nat {
    if c < 0x80 as char then 1 else if c < 0x800 as char then 2 else if c < 0x10000 as char then 3 else 4
  }

  /** A carriage return takes no column of its own. */
  function Next(p: Point, c: char): Point {
    if c == '\n' then Point(p.line + 1, 1) else if c == '\r' then p else p.(column := p.column + 1)
  }

  /** The byte at which the character with this index starts; at the end, the text's length. */
  function Offset(text: string, i: nat): nat
    requires i <= |text|
  {
    if i == 0 then 0 else Offset(text, i - 1) + Width(text[i - 1])
  }

  function PointAt(text: string, i: nat): Point
    requires i <= |text|
  {
    if i == 0 then Point(1, 1) else Next(PointAt(text, i - 1), text[i - 1])
  }

  /** A line number counts the line feeds before a place; a column counts the characters since the last one that
      are no carriage returns. */
  lemma {:induction false} PointTells(text: string, i: nat) returns (start: nat)
    requires i <= |text|
    ensures start <= i && (start == 0 || text[start - 1] == '\n') && '\n' !in text[start..i]
    ensures PointAt(text, i).line == 1 + multiset(text[..i])['\n']
    ensures PointAt(text, i).column == 1 + (i - start) - multiset(text[start..i])['\r']
  {
    if i == 0 {
      return 0;
    }
    start := PointTells(text, i - 1);
    assert text[..i] == text[..i - 1] + [text[i - 1]];
    assert text[start..i] == text[start..i - 1] + [text[i - 1]];
    if text[i - 1] == '\n' {
      start := i;
    }
  }

  ghost predicate Valid(text: string, p: Point) {
    exists i :: 0 <= i <= |text| && PointAt(text, i) == p
  }

  ghost predicate Least(text: string, p: Point, i: nat) {
    i <= |text| && PointAt(text, i) == p && forall k :: 0 <= k < i ==> PointAt(text, k) != p
  }

  lemma {:induction false} PointsArePositive(text: string, i: nat)
    requires i <= |text|
    ensures PointAt(text, i).line > 0 && PointAt(text, i).column > 0
  {
    if i > 0 {
      PointsArePositive(text, i - 1);
    }
  }

  /** The byte of the first character boundary with these coordinates, or nothing when no
      boundary has them. */
  method Position(text: string, p: Point) returns (byte: Option<nat>)
    ensures byte.Some? <==> Valid(text, p)
    ensures byte.Some? ==> exists i: nat :: Least(text, p, i) && byte.value == Offset(text, i)
  {
    if p.line <= 0 || p.column <= 0 {
      forall i | 0 <= i <= |text| ensures PointAt(text, i) != p {
        PointsArePositive(text, i);
      }
      return None;
    }
    var current, at := Point(1, 1), 0;
    for i := 0 to |text|
      invariant current == PointAt(text, i) && at == Offset(text, i)
      invariant forall k :: 0 <= k < i ==> PointAt(text, k) != p
    {
      if current == p {
        assert Least(text, p, i);
        return Some(at);
      }
      match text[i] {
        case '\n' => current := Point(current.line + 1, 1);
        case '\r' =>
        case _ => current := current.(column := current.column + 1);
      }
      at := at + Width(text[i]);
    }
    if current != p {
      return None;
    }
    assert Least(text, p, |text|);
    return Some(at);
  }

  // ---------- bytes ----------

  lemma WidthTells(c: char)
    ensures Width(c) == |Encoded(c)|
  {
  }

  /** An offset is the length of the encoding of what lies before it. */
  lemma {:induction false} OffsetIsLength(text: string, i: nat)
    requires i <= |text|
    ensures Offset(text, i) == |Encoding(text[..i])|
  {
    if i > 0 {
      OffsetIsLength(text, i - 1);
      assert text[..i][..i - 1] == text[..i - 1];
      WidthTells(text[i - 1]);
    }
  }

  /** In the bytes of a text the character with an index starts at its offset and is as long as its width; the
      text's length is the last offset. */
  lemma OffsetsAreCharacters(text: string, i: nat)
    requires i < |text|
    ensures var bytes := Encoding(text);
            && Offset(text, i) + Width(text[i]) <= |bytes| == Offset(text, |text|)
            && bytes[Offset(text, i)..Offset(text, i) + Width(text[i])] == Encoded(text[i])
            && CharLength(bytes, Offset(text, i)) == Width(text[i])
  {
    hide Encoded, Width, CharLength, Encoding, Offset;
    OffsetIsLength(text, i);
    OffsetIsLength(text, |text|);
    assert text[..|text|] == text;
    EncodingAround(text, i);
    WidthTells(text[i]);
    EncodedIsOneCharacter(Encoding(text[..i]), text[i], Encoding(text[i + 1..]));
  }

  // ---------- order ----------

  lemma {:induction false} OffsetGrows(text: string, i: nat, j: nat)
    requires i < j <= |text|
    ensures Offset(text, i) < Offset(text, j)
  {
    if i < j - 1 {
      OffsetGrows(text, i, j - 1);
    }
  }

  ghost predicate OnlyReturns(text: string, i: nat, j: nat) {
    forall k :: i <= k < j && k < |text| ==> text[k] == '\r'
  }

  /** Coordinates never fall along the text, and they stay the same only across carriage returns. */
  lemma {:induction false} PointsGrow(text: string, i: nat, j: nat)
    requires i <= j <= |text|
    ensures PointAt(text, i) == PointAt(text, j) || Before(PointAt(text, i), PointAt(text, j))
    ensures PointAt(text, i) == PointAt(text, j) <==> OnlyReturns(text, i, j)
  {
    if i < j {
      PointsGrow(text, i, j - 1);
    }
  }

  /** Byte order is coordinate order for valid points, whatever lines, returns and wide characters
      the text holds. */
  lemma OrderAgrees(text: string, p: Point, q: Point, i: nat, j: nat)
    requires Least(text, p, i) && Least(text, q, j)
    ensures Offset(text, i) < Offset(text, j) <==> Before(p, q)
    ensures Offset(text, i) == Offset(text, j) <==> p == q
  {
    if i < j {
      PointsGrow(text, i, j);
      OffsetGrows(text, i, j);
    } else if j < i {
      PointsGrow(text, j, i);
      OffsetGrows(text, j, i);
    }
  }

  // ---------- mutants ----------

  predicate Overlaps(range: Range, start: nat, end: nat) {
    range.start < end && start < range.end
  }

  ghost predicate TestSpan(files: Files, file: ClassifiedFile, start: nat, end: nat) {
    FileRoleIn(files, file) == TestRole ||
    exists k :: 0 <= k < |RangesOf(files, file.path)| && Overlaps(RangesOf(files, file.path)[k], start, end)
  }

  /** An empty range strictly inside the span. */
  ghost predicate HollowInside(ranges: seq<Range>, start: nat, end: nat) {
    exists k :: 0 <= k < |ranges| && ranges[k].end <= ranges[k].start && Overlaps(ranges[k], start, end)
  }

  /** A span overlaps a test range exactly when one of its bytes is test code, or when an empty
      range lies strictly inside it. */
  lemma OverlapsExactly(ranges: seq<Range>, start: nat, end: nat)
    requires start < end
    ensures (exists k :: 0 <= k < |ranges| && Overlaps(ranges[k], start, end)) <==>
            (exists byte :: start <= byte < end && Testing(ranges, byte)) || HollowInside(ranges, start, end)
  {
    if k :| 0 <= k < |ranges| && Overlaps(ranges[k], start, end) && ranges[k].start < ranges[k].end {
      var byte := if start < ranges[k].start then ranges[k].start else start;
      assert Testing(ranges, byte);
    }
    if byte :| start <= byte < end && Testing(ranges, byte) {
      var k :| 0 <= k < |ranges| && ranges[k].start <= byte < ranges[k].end;
      assert Overlaps(ranges[k], start, end);
    }
  }

  ghost predicate InProduction(files: Files, file: ClassifiedFile, text: string, first: Point, last: Point) {
    exists i, j :: Least(text, first, i) && Least(text, last, j) && Before(first, last) &&
                   !TestSpan(files, file, Offset(text, i), Offset(text, j))
  }

  /** The span check of one mutant: it passes exactly when both points are coordinates of the text,
      the first lies before the second, and the bytes between them are not a test span. */
  method CheckSpan(files: Files, file: ClassifiedFile, text: string, first: Point, last: Point) returns (ok: bool)
    ensures ok <==> InProduction(files, file, text, first, last)
  {
    var start := Position(text, first);
    if start.None? {
      return false;
    }
    var end := Position(text, last);
    if end.None? {
      return false;
    }
    ghost var i :| Least(text, first, i) && start.value == Offset(text, i);
    ghost var j :| Least(text, last, j) && end.value == Offset(text, j);
    OrderAgrees(text, first, last, i, j);
    forall k, l | Least(text, first, k) && Least(text, last, l) ensures k == i && l == j {
      LeastIsUnique(text, first, i, k);
      LeastIsUnique(text, last, j, l);
    }
    if start.value >= end.value {
      return false;
    }
    var ranges := RangesOf(files, file.path);
    var inTest := FileRoleIn(files, file) == TestRole ||
                  exists k | 0 <= k < |ranges| :: Overlaps(ranges[k], start.value, end.value);
    return !inTest;
  }

  lemma LeastIsUnique(text: string, p: Point, i: nat, k: nat)
    requires Least(text, p, i) && Least(text, p, k)
    ensures i == k
  {
  }

  // ---------- a whole report ----------

  /** A mutant as the report names it; each part may be missing. */
  datatype Mutant = Mutant(file: Option<Path>, first: Option<Point>, last: Option<Point>)

  /** A bound source file and its text. */
  datatype BoundSource = BoundSource(file: ClassifiedFile, text: string)

  ghost predicate Passes(files: Files, sources: map<Path, BoundSource>, mutant: Mutant) {
    mutant.file.Some? && mutant.first.Some? && mutant.last.Some? && mutant.file.value in sources &&
    var source := sources[mutant.file.value];
    InProduction(files, source.file, source.text, mutant.first.value, mutant.last.value)
  }

  method CheckMutant(files: Files, sources: map<Path, BoundSource>, mutant: Mutant) returns (ok: bool)
    ensures ok <==> Passes(files, sources, mutant)
  {
    if mutant.file.None? || mutant.file.value !in sources || mutant.first.None? || mutant.last.None? {
      return false;
    }
    var source := sources[mutant.file.value];
    ok := CheckSpan(files, source.file, source.text, mutant.first.value, mutant.last.value);
  }

  /** A report passes exactly when it lists outcomes and every mutant among them lies in production
      code; an outcome without a mutant is skipped. */
  method ValidateRust(files: Files, sources: map<Path, BoundSource>, outcomes: Option<seq<Option<Mutant>>>)
    returns (ok: bool)
    ensures ok <==> outcomes.Some? && forall k :: 0 <= k < |outcomes.value| && outcomes.value[k].Some? ==>
                                                  Passes(files, sources, outcomes.value[k].value)
  {
    if outcomes.None? {
      return false;
    }
    for i := 0 to |outcomes.value|
      invariant forall k :: 0 <= k < i && outcomes.value[k].Some? ==>
                            Passes(files, sources, outcomes.value[k].value)
    {
      if outcomes.value[i].Some? {
        ok := CheckMutant(files, sources, outcomes.value[i].value);
        if !ok {
          return;
        }
      }
    }
    return true;
  }

  /** A passed report: no byte of a mutant's span is test code of its own source. */
  lemma PassedMutantsChangeNoTestCode(files: Files, sources: map<Path, BoundSource>, mutant: Mutant, byte: nat)
    requires Passes(files, sources, mutant)
    requires var text := sources[mutant.file.value].text;
             exists i, j :: Least(text, mutant.first.value, i) && Least(text, mutant.last.value, j) &&
                            Offset(text, i) <= byte < Offset(text, j)
    ensures !Testing(RangesOf(files, sources[mutant.file.value].file.path), byte)
    ensures FileRoleIn(files, sources[mutant.file.value].file) != TestRole
  {
    var source := sources[mutant.file.value];
    var text, first, last := source.text, mutant.first.value, mutant.last.value;
    var i, j :| Least(text, first, i) && Least(text, last, j) && Offset(text, i) <= byte < Offset(text, j);
    var k, l :| Least(text, first, k) && Least(text, last, l) && Before(first, last) &&
                !TestSpan(files, source.file, Offset(text, k), Offset(text, l));
    LeastIsUnique(text, first, i, k);
    LeastIsUnique(text, last, j, l);
    OverlapsExactly(RangesOf(files, source.file.path), Offset(text, i), Offset(text, j));
  }
}
