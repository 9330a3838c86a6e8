/** Reading the NUL-separated name and status records of a diff.  Every char stands for one byte. */
module DiffStatus {
  import opened DiffRoundTrip
  import opened RenameLineage
  import opened UnifiedDiff
  import opened Wrappers

  const NUL: char := 0 as char

  /** The paths that a diff names, as far as they belong to the inventory, and the renames among them. */
  datatype Summary = Summary(paths: set<Path>, lineage: Lineage)

  // ---------- records ----------

  function NonEmpty(parts: seq<string>): seq<string> {
    if parts == [] then [] else (if parts[0] == "" then [] else [parts[0]]) + NonEmpty(parts[1..])
  }

  function SplitNulRecords(output: string): Result<seq<string>> {
    if output == "" then Ok([])
    else if output[|output| - 1] != NUL then Err
    else Ok(NonEmpty(SplitOn(output, NUL)))
  }

  predicate TwoPaths(status: string) {
    status != "" && status[0] in {'R', 'C'}
  }

  predicate ValidStatus(status: string) {
    && status != "" && status[0] in {'A', 'C', 'D', 'M', 'R', 'T', 'U', 'X', 'B'}
    && if TwoPaths(status) then |status| == 4 && forall i :: 1 <= i < 4 ==> Digit(status[i]) else |status| == 1
  }

  function NormalizeBytes(bytes: string): Result<Path> {
    if WellFormedUtf8(bytes) then NormalizePath(bytes) else Err
  }

  /** What one record adds. */
  function Added(summary: Summary, record: DiffRecord, inventory: Path -> bool): Summary {
    match record
    case Renamed(before, after) =>
      Summary(summary.paths + Inventory({before, after}, inventory),
              if inventory(before) && inventory(after) then summary.lineage[after := before] else summary.lineage)
    case Copied(before, after) => summary.(paths := summary.paths + Inventory({before, after}, inventory))
    case Other(path) => summary.(paths := summary.paths + Inventory({path}, inventory))
  }

  function Inventory(paths: set<Path>, inventory: Path -> bool): set<Path> {
    set p | p in paths && inventory(p)
  }

  /** The record whose status has been read and whose paths begin at `index`. */
  function StatusRecord(status: string, records: seq<string>, index: nat): Result<(DiffRecord, nat)> {
    if TwoPaths(status) then
      if index + 1 >= |records| then Err
      else
        var before :- NormalizeBytes(records[index]);
        var after :- NormalizeBytes(records[index + 1]);
        Ok((if status[0] == 'R' then Renamed(before, after) else Copied(before, after), index + 2))
    else if index >= |records| then Err
    else
      var path :- NormalizeBytes(records[index]);
      Ok((Other(path), index + 1))
  }

  function ParsedFrom(records: seq<string>, index: nat, summary: Summary, inventory: Path -> bool): Result<Summary>
    decreases |records| - index
  {
    if index >= |records| then Ok(summary)
    else if !ValidStatus(records[index]) then Err
    else
      var (record, next) :- StatusRecord(records[index], records, index + 1);
      if next <= index then Err else ParsedFrom(records, next, Added(summary, record, inventory), inventory)
  }

  function Parsed(output: string, inventory: Path -> bool): Result<Summary> {
    var records :- SplitNulRecords(output);
    ParsedFrom(records, 0, Summary({}, map[]), inventory)
  }

  method ParseDiffStatus(output: string, inventory: Path -> bool) returns (r: Result<Summary>)
    ensures r == Parsed(output, inventory)
  {
    var split := SplitNulRecords(output);
    if split.Err? {
      return Err;
    }
    var records, index, summary := split.value, 0, Summary({}, map[]);
    while index < |records|
      invariant ParsedFrom(records, index, summary, inventory) == Parsed(output, inventory)
      decreases |records| - index
    {
      var status := records[index];
      if !ValidStatus(status) {
        return Err;
      }
      var record := StatusRecord(status, records, index + 1);
      if record.Err? {
        return Err;
      }
      summary := Added(summary, record.value.0, inventory);
      index := record.value.1;
    }
    return Ok(summary);
  }

  // ---------- Git's rendering ----------

  /** A record with the status that Git writes for it. */
  datatype Entry = Entry(status: string, record: DiffRecord)

  ghost predicate Writable(path: Path) {
    Relative(path) && Free(Raw(path), 0 as char) && WellFormedUtf8(Raw(path))
  }

  /** A letter and how similar the two files are, in three digits. */
  ghost predicate Scored(status: string, letter: char) {
    && |status| == 4 && status[0] == letter
    && forall i :: 1 <= i < 4 ==> status[i] in {'0', '1', '2', '3', '4', '5', '6', '7', '8', '9'}
  }

  ghost predicate FromGit(e: Entry) {
    match e.record
    case Renamed(before, after) => Scored(e.status, 'R') && Writable(before) && Writable(after)
    case Copied(before, after) => Scored(e.status, 'C') && Writable(before) && Writable(after)
    case Other(path) => e.status in {"A", "D", "M", "T", "U", "X", "B"} && Writable(path)
  }

  ghost function Fields(e: Entry): (r: seq<string>)
    requires FromGit(e)
    ensures |r| >= 2
  {
    match e.record
    case Renamed(before, after) => [e.status, Raw(before), Raw(after)]
    case Copied(before, after) => [e.status, Raw(before), Raw(after)]
    case Other(path) => [e.status, Raw(path)]
  }

  ghost function AllFields(entries: seq<Entry>): seq<string>
    requires forall i :: 0 <= i < |entries| ==> FromGit(entries[i])
  {
    if entries == [] then [] else Fields(entries[0]) + AllFields(entries[1..])
  }

  /** Each field is followed by a NUL. */
  function Terminated(fields: seq<string>): string {
    if fields == [] then "" else fields[0] + [0 as char] + Terminated(fields[1..])
  }

  function Records(entries: seq<Entry>): seq<DiffRecord> {
    seq(|entries|, i requires 0 <= i < |entries| => entries[i].record)
  }

  ghost predicate Plain(fields: seq<string>) {
    forall i :: 0 <= i < |fields| ==> fields[i] != "" && Free(fields[i], NUL)
  }

  lemma SplitFirst(field: string, rest: string)
    requires Free(field, NUL)
    ensures SplitOn(field + [NUL] + rest, NUL) == [field] + SplitOn(rest, NUL)
  {
    var s := field + [NUL] + rest;
    IndexAfterFree(field, NUL, rest);
    assert s[..|field|] == field && s[|field| + 1..] == rest;
  }

  lemma FirstNonEmpty(field: string, parts: seq<string>)
    requires field != ""
    ensures NonEmpty([field] + parts) == [field] + NonEmpty(parts)
  {
    assert ([field] + parts)[1..] == parts;
  }

  lemma TerminatedEnds(fields: seq<string>)
    requires fields != []
    ensures Terminated(fields) != "" && Terminated(fields)[|Terminated(fields)| - 1] == NUL
  {
    if |fields| > 1 {
      TerminatedEnds(fields[1..]);
    }
  }

  lemma {:induction false} SplitUndoesTerminated(fields: seq<string>)
    requires Plain(fields)
    ensures NonEmpty(SplitOn(Terminated(fields), NUL)) == fields
  {
    hide Free;
    if fields == [] {
      assert SplitOn("", NUL) == [""];
    } else {
      SplitFirst(fields[0], Terminated(fields[1..]));
      FirstNonEmpty(fields[0], SplitOn(Terminated(fields[1..]), NUL));
      SplitUndoesTerminated(fields[1..]);
    }
  }

  lemma FieldsArePlain(e: Entry)
    requires FromGit(e)
    ensures Plain(Fields(e))
  {
    match e.record
    case Renamed(before, after) =>
      RawIsNotEmpty(before);
      RawIsNotEmpty(after);
    case Copied(before, after) =>
      RawIsNotEmpty(before);
      RawIsNotEmpty(after);
    case Other(path) =>
      RawIsNotEmpty(path);
  }

  lemma {:induction false} AllFieldsArePlain(entries: seq<Entry>)
    requires forall i :: 0 <= i < |entries| ==> FromGit(entries[i])
    ensures Plain(AllFields(entries))
  {
    if entries != [] {
      FieldsArePlain(entries[0]);
      AllFieldsArePlain(entries[1..]);
    }
  }

  lemma RecordIsRead(e: Entry, records: seq<string>, index: nat)
    requires FromGit(e) && index + |Fields(e)| <= |records| && records[index..index + |Fields(e)|] == Fields(e)
    ensures records[index] == e.status && ValidStatus(e.status)
    ensures StatusRecord(e.status, records, index + 1) == Ok((e.record, index + |Fields(e)|))
  {
    var fields := records[index..index + |Fields(e)|];
    assert records[index] == fields[0] && records[index + 1] == fields[1];
    match e.record
    case Renamed(before, after) =>
      assert records[index + 2] == fields[2];
      NormalizeUndoesRaw(before);
      NormalizeUndoesRaw(after);
    case Copied(before, after) =>
      assert records[index + 2] == fields[2];
      NormalizeUndoesRaw(before);
      NormalizeUndoesRaw(after);
    case Other(path) =>
      NormalizeUndoesRaw(path);
  }

  function AllAdded(summary: Summary, records: seq<DiffRecord>, inventory: Path -> bool): Summary {
    if records == [] then summary
    else Added(AllAdded(summary, records[..|records| - 1], inventory), records[|records| - 1], inventory)
  }

  lemma {:induction false} AddedFirst(summary: Summary, records: seq<DiffRecord>, inventory: Path -> bool)
    requires records != []
    ensures AllAdded(summary, records, inventory) ==
            AllAdded(Added(summary, records[0], inventory), records[1..], inventory)
  {
    if |records| > 1 {
      AddedFirst(summary, records[..|records| - 1], inventory);
      assert records[..|records| - 1][1..] == records[1..][..|records| - 2];
    }
  }

  lemma OneIsRead(e: Entry, records: seq<string>, index: nat, summary: Summary, inventory: Path -> bool)
    requires FromGit(e) && index + |Fields(e)| <= |records| && records[index..index + |Fields(e)|] == Fields(e)
    ensures ParsedFrom(records, index, summary, inventory) ==
            ParsedFrom(records, index + |Fields(e)|, Added(summary, e.record, inventory), inventory)
  {
    RecordIsRead(e, records, index);
    hide StatusRecord, ValidStatus, Added, FromGit;
  }

  lemma FieldsInFront(entries: seq<Entry>, records: seq<string>, index: nat)
    requires entries != [] && forall i :: 0 <= i < |entries| ==> FromGit(entries[i])
    requires index <= |records| && records[index..] == AllFields(entries)
    ensures var n := |Fields(entries[0])|;
            && index + n <= |records| && records[index..index + n] == Fields(entries[0])
            && records[index + n..] == AllFields(entries[1..])
  {
    hide FromGit, Fields;
    var n := |Fields(entries[0])|;
    assert records[index..][..n] == Fields(entries[0]) && records[index..][n..] == AllFields(entries[1..]);
  }

  lemma {:induction false} EntriesAreRead(entries: seq<Entry>, records: seq<string>, index: nat, summary: Summary,
                                          inventory: Path -> bool)
    requires forall i :: 0 <= i < |entries| ==> FromGit(entries[i])
    requires index <= |records| && records[index..] == AllFields(entries)
    ensures ParsedFrom(records, index, summary, inventory) == Ok(AllAdded(summary, Records(entries), inventory))
    decreases |entries|
  {
    hide StatusRecord, ValidStatus, Added, FromGit;
    if entries != [] {
      var e, n := entries[0], |Fields(entries[0])|;
      FieldsInFront(entries, records, index);
      OneIsRead(e, records, index, summary, inventory);
      EntriesAreRead(entries[1..], records, index + n, Added(summary, e.record, inventory), inventory);
      AddedFirst(summary, Records(entries), inventory);
      assert Records(entries)[1..] == Records(entries[1..]);
    }
  }

  /** The inventory paths of all records. */
  ghost function PathsOf(records: seq<DiffRecord>, inventory: Path -> bool): set<Path> {
    set i, p | 0 <= i < |records| && p in Named(records[i]) && inventory(p) :: p
  }

  function Named(record: DiffRecord): set<Path> {
    match record
    case Renamed(before, after) => {before, after}
    case Copied(before, after) => {before, after}
    case Other(path) => {path}
  }

  lemma {:induction false} AllAddedIs(records: seq<DiffRecord>, inventory: Path -> bool)
    ensures AllAdded(Summary({}, map[]), records, inventory) ==
            Summary(PathsOf(records, inventory), LineageOf(records, inventory))
  {
    if records != [] {
      var last := |records| - 1;
      AllAddedIs(records[..last], inventory);
      assert PathsOf(records, inventory) ==
             PathsOf(records[..last], inventory) + Inventory(Named(records[last]), inventory);
    }
  }

  /** What Git writes is read back: exactly the inventory paths that its records name, and the lineage of
      its renames. */
  lemma DiffStatusReadsBack(entries: seq<Entry>, inventory: Path -> bool)
    requires forall i :: 0 <= i < |entries| ==> FromGit(entries[i])
    ensures Parsed(Terminated(AllFields(entries)), inventory) ==
            Ok(Summary(PathsOf(Records(entries), inventory), LineageOf(Records(entries), inventory)))
  {
    hide FromGit, Added, Inventory;
    var fields := AllFields(entries);
    AllFieldsArePlain(entries);
    SplitUndoesTerminated(fields);
    if fields != [] {
      TerminatedEnds(fields);
    }
    EntriesAreRead(entries, fields, 0, Summary({}, map[]), inventory);
    AllAddedIs(Records(entries), inventory);
  }

  // ---------- what is an error ----------

  /** A status is one letter of its list, or a rename or a copy with three digits. */
  lemma StatusTells(status: string)
    ensures ValidStatus(status) <==>
            status in {"A", "D", "M", "T", "U", "X", "B"} || Scored(status, 'R') || Scored(status, 'C')
    ensures ValidStatus(status) ==> (TwoPaths(status) <==> Scored(status, 'R') || Scored(status, 'C'))
  {
    if |status| == 1 {
      assert status == [status[0]];
    }
    forall c: char ensures Digit(c) <==> c in {'0', '1', '2', '3', '4', '5', '6', '7', '8', '9'} {
    }
  }

  /** A status with the paths behind it, as they stand in the output. */
  datatype Written = Written(status: string, paths: seq<string>)

  ghost predicate Readable(w: Written) {
    && (w.status in {"A", "D", "M", "T", "U", "X", "B"} || Scored(w.status, 'R') || Scored(w.status, 'C'))
    && |w.paths| == (if |w.status| == 1 then 1 else 2)
    && forall i :: 0 <= i < |w.paths| ==> NormalizeBytes(w.paths[i]).Ok?
  }

  ghost predicate AllReadable(list: seq<Written>) {
    forall i :: 0 <= i < |list| ==> Readable(list[i])
  }

  function Flat(list: seq<Written>): seq<string> {
    if list == [] then [] else [list[0].status] + list[0].paths + Flat(list[1..])
  }

  lemma ReadableIsRead(w: Written, records: seq<string>, index: nat)
    requires Readable(w) && index + 1 + |w.paths| <= |records|
    requires records[index] == w.status && records[index + 1..index + 1 + |w.paths|] == w.paths
    ensures ValidStatus(w.status)
    ensures StatusRecord(w.status, records, index + 1).Ok?
    ensures StatusRecord(w.status, records, index + 1).value.1 == index + 1 + |w.paths|
  {
    StatusTells(w.status);
    assert records[index + 1] == records[index + 1..index + 1 + |w.paths|][0];
    if |w.paths| == 2 {
      assert records[index + 2] == records[index + 1..index + 1 + |w.paths|][1];
    }
    hide NormalizeBytes;
  }

  lemma {:induction false} ReadableListIsRead(list: seq<Written>, records: seq<string>, index: nat, summary: Summary,
                                              inventory: Path -> bool)
    requires AllReadable(list) && index <= |records| && records[index..] == Flat(list)
    ensures ParsedFrom(records, index, summary, inventory).Ok?
    decreases |list|
  {
    hide Readable, StatusRecord, ValidStatus, Added;
    if list != [] {
      var w, rest := list[0], records[index..];
      assert Readable(w) && AllReadable(list[1..]);
      assert rest[0] == w.status && rest[1..1 + |w.paths|] == w.paths && rest[1 + |w.paths|..] == Flat(list[1..]);
      assert records[index + 1..index + 1 + |w.paths|] == w.paths;
      assert records[index + 1 + |w.paths|..] == Flat(list[1..]);
      ReadableIsRead(w, records, index);
      var next := StatusRecord(w.status, records, index + 1).value;
      ReadableListIsRead(list[1..], records, next.1, Added(summary, next.0, inventory), inventory);
    }
  }

  lemma ReadWasReadable(records: seq<string>, index: nat) returns (w: Written)
    requires index < |records| && ValidStatus(records[index])
    requires StatusRecord(records[index], records, index + 1).Ok?
    ensures Readable(w) && w.status == records[index] && index + 1 + |w.paths| <= |records|
    ensures w.paths == records[index + 1..index + 1 + |w.paths|]
    ensures StatusRecord(records[index], records, index + 1).value.1 == index + 1 + |w.paths|
  {
    var status := records[index];
    StatusTells(status);
    var n := if TwoPaths(status) then 2 else 1;
    w := Written(status, records[index + 1..index + 1 + n]);
    assert w.paths[0] == records[index + 1];
    if n == 2 {
      assert w.paths[1] == records[index + 2];
    }
    hide NormalizeBytes;
  }

  lemma {:induction false} ReadListWasReadable(records: seq<string>, index: nat, summary: Summary,
                                               inventory: Path -> bool) returns (list: seq<Written>)
    requires index <= |records| && ParsedFrom(records, index, summary, inventory).Ok?
    ensures AllReadable(list) && records[index..] == Flat(list)
    decreases |records| - index
  {
    hide Readable, StatusRecord, ValidStatus, Added;
    list := [];
    if index < |records| {
      var w := ReadWasReadable(records, index);
      var next := StatusRecord(records[index], records, index + 1).value;
      var rest := ReadListWasReadable(records, next.1, Added(summary, next.0, inventory), inventory);
      list := [w] + rest;
      assert list[1..] == rest;
      assert records[index..] == [w.status] + w.paths + records[next.1..];
    }
  }

  /** The records are read exactly when each is a status with one path behind it, or two for a rename or a copy, and
      each path is UTF-8 and relative; anything else is an error. */
  lemma ReadableExactly(records: seq<string>, inventory: Path -> bool)
    ensures ParsedFrom(records, 0, Summary({}, map[]), inventory).Ok? <==>
            exists list :: AllReadable(list) && Flat(list) == records
  {
    assert records[0..] == records;
    if ParsedFrom(records, 0, Summary({}, map[]), inventory).Ok? {
      var list := ReadListWasReadable(records, 0, Summary({}, map[]), inventory);
    }
    if list :| AllReadable(list) && Flat(list) == records {
      ReadableListIsRead(list, records, 0, Summary({}, map[]), inventory);
    }
  }
}
