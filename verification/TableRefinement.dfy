/** The two table writers are interchangeable: for the same rows a reader gets the same
    cell from either, in whatever order the cells were set. */
module TableRefinement {
  import opened Bytes
  import opened NodeId
  import opened Wrappers
  import opened DataTree
  import opened SubnodeTree
  import opened SubnodeAllocator
  import opened PropertyContext
  import opened RowLayout
  import opened TableFormat
  import opened TableReader
  import opened TableContext
  import opened TableContextWriter
  import RowStream
  import Ndb
  import Bth
  import Ownership
  import HeapFormat

  /** One call of a setter. */
  datatype Setting = Setting(tag: nat, cell: Cell)

  function Apply(tags: seq<nat>, row: Row, sets: seq<Setting>): (r: Row)
    ensures r.id == row.id && |r.cells| == |row.cells|
  {
    if sets == [] then row
    else
      var s := sets[|sets| - 1];
      WithCell(tags, Apply(tags, row, sets[..|sets| - 1]), s.tag, s.cell)
  }

  /** The last value a run of settings gives a column. */
  function LastSetting(sets: seq<Setting>, tag: nat): Option<Cell> {
    if sets == [] then None
    else if sets[|sets| - 1].tag == tag then Some(sets[|sets| - 1].cell)
    else LastSetting(sets[..|sets| - 1], tag)
  }

  /** A run of settings leaves in each column the last value set, or what was there. */
  lemma {:induction false} ApplyIsLast(tags: seq<nat>, row: Row, sets: seq<Setting>, k: nat)
    requires TagsFit(tags) && |row.cells| == |tags| && k < |tags|
    ensures Apply(tags, row, sets).cells[k] ==
            if LastSetting(sets, tags[k]).Some? then LastSetting(sets, tags[k]) else row.cells[k]
  {
    hide Columns;
    if sets != [] {
      var n := |sets| - 1;
      ApplyIsLast(tags, row, sets[..n], k);
      var t := FindTag(tags, sets[n].tag);
      if t.Some? && t.value != k { assert tags[t.value] != tags[k]; }
    }
  }

  /** Runs that end with the same values make the same row. */
  lemma SameRows(tags: seq<nat>, row: Row, a: seq<Setting>, b: seq<Setting>)
    requires TagsFit(tags) && |row.cells| == |tags|
    requires forall k :: 0 <= k < |tags| ==> LastSetting(a, tags[k]) == LastSetting(b, tags[k])
    ensures Apply(tags, row, a) == Apply(tags, row, b)
  {
    hide Apply, LastSetting, TagsFit;
    forall k | 0 <= k < |tags| ensures Apply(tags, row, a).cells[k] == Apply(tags, row, b).cells[k] {
      ApplyIsLast(tags, row, a, k);
      ApplyIsLast(tags, row, b, k);
    }
  }

  /** A row as each of the writers gets it. */
  datatype RowScript = RowScript(id: nat, first: seq<Setting>, second: seq<Setting>)

  predicate Typed(sets: seq<Setting>) {
    forall i :: 0 <= i < |sets| ==> CellFits(sets[i].tag, sets[i].cell)
  }

  predicate ScriptFits(tags: seq<nat>, s: RowScript) {
    && s.id < U32 && Typed(s.first) && Typed(s.second)
    && forall k :: 0 <= k < |tags| ==> LastSetting(s.first, tags[k]) == LastSetting(s.second, tags[k])
  }

  lemma ApplyNext(tags: seq<nat>, row: Row, sets: seq<Setting>, i: nat)
    requires i < |sets|
    ensures Apply(tags, row, sets[..i + 1]) == WithCell(tags, Apply(tags, row, sets[..i]), sets[i].tag, sets[i].cell)
  {
    assert sets[..i + 1][..i] == sets[..i];
  }

  /** A row in memory. */
  method FillRow(table: TableContext, id: nat, sets: seq<Setting>) returns (ok: bool)
    requires table.Valid() && id < U32 && table.columns[0] == TAG_ROW_ID && table.columns[1] == TAG_ROW_VER && Typed(sets)
    modifies table
    ensures table.Valid() && table.columns == old(table.columns)
    ensures ok <==> forall i :: 0 <= i < |sets| ==> sets[i].tag in table.columns
    ensures ok ==> table.rows == old(table.rows) + [Apply(table.columns, NewRow(table.columns, id), sets)]
  {
    hide table.Valid, CellFits, CellKind, WithCell, NewRow, Apply;
    TypedKinds(sets);
    var index := FreshRow(table, id);
    ghost var rows, base := old(table.rows), NewRow(table.columns, id);
    ApplyNone(table.columns, base);
    for i := 0 to |sets|
      invariant table.Valid() && table.columns == old(table.columns) && index == |rows|
      invariant table.rows == rows + [Apply(table.columns, base, sets[..i])]
      invariant forall j :: 0 <= j < i ==> sets[j].tag in table.columns
    {
      var r := table.Set(index, sets[i].tag, sets[i].cell);
      if r.Err? {
        return false;
      }
      ApplyNext(table.columns, base, sets, i);
    }
    assert sets[..|sets|] == sets;
    return true;
  }

  lemma TypedKinds(sets: seq<Setting>)
    requires Typed(sets)
    ensures forall i :: 0 <= i < |sets| ==> CellKind(sets[i].tag, sets[i].cell)
  {
    assert forall i :: 0 <= i < |sets| ==> CellFits(sets[i].tag, sets[i].cell);
  }

  function NewRow(tags: seq<nat>, id: nat): Row {
    Row(id, [Some(Fixed(Put32(id))), Some(Fixed(Put32(1)))] + NoCells(if |tags| >= 2 then |tags| - 2 else 0))
  }

  lemma ApplyNone(tags: seq<nat>, row: Row)
    ensures Apply(tags, row, []) == row
  {
  }

  method FreshRow(table: TableContext, id: nat) returns (index: nat)
    requires table.Valid() && id < U32 && table.columns[0] == TAG_ROW_ID && table.columns[1] == TAG_ROW_VER
    modifies table
    ensures table.Valid() && table.columns == old(table.columns) && index == |old(table.rows)|
    ensures table.rows == old(table.rows) + [NewRow(table.columns, id)]
  {
    hide Put32;
    index := table.AddRow(id);
  }

  predicate Accepted(tags: seq<nat>, sets: seq<Setting>) {
    forall i :: 0 <= i < |sets| ==> sets[i].tag in tags
  }

  /** Some setting is for a column that is not there, or too large for the file. */
  predicate Refused(tags: seq<nat>, sets: seq<Setting>) {
    exists i :: 0 <= i < |sets| && (sets[i].tag !in tags || Large(Some(sets[i].cell)))
  }

  /** The same row, streamed. */
  method StreamRow(w: TableContextWriter, id: nat, sets: seq<Setting>) returns (ok: bool)
    requires w.Valid() && !w.inRow && id < U32 && Typed(sets)
    modifies w, w.heap, w.subs, w.ndb
    ensures ok ==> w.Valid() && !w.inRow && Accepted(w.tags, sets)
    ensures ok ==> w.rows == old(w.rows) + [Apply(w.tags, NewRow(w.tags, id), sets)]
    ensures w.ndb.Valid() && w.ndb.Grown() && w.ndb.nbt == old(w.ndb.nbt)
    ensures ok && w.ndb.Fits64() ==> Ownership.Passes(old(w.Held()), w.Held())
    ensures ok ==> |w.heap.Contents()| <= |old(w.heap.Contents())| + |sets| && w.subs.nextIndex <= old(w.subs.nextIndex) + |sets|
    ensures !ok ==> Refused(w.tags, sets) || |old(w.heap.Contents())| + |sets| > HeapFormat.MAX_BLOCKS
    ensures w.subs.Kept()
  {
    hide w.Valid, CellFits, WithCell, Apply, Put32, w.ndb.Valid, Ownership.Passes, w.Held, w.HeldWith;
    SharedNdb(w);
    w.HeldPasses();
    var begun := w.BeginRow(id);
    SameHeld(w);
    ghost var rows, base := w.rows, w.row;
    ApplyNone(w.tags, base);
    for i := 0 to |sets|
      invariant w.Valid() && w.inRow && w.rows == rows && Accepted(w.tags, sets[..i])
      invariant w.row == Apply(w.tags, base, sets[..i])
      invariant w.ndb.Valid() && w.ndb.Grown() && w.ndb.nbt == old(w.ndb.nbt)
      invariant w.ndb.Fits64() ==> Ownership.Passes(old(w.Held()), w.Held())
      invariant |w.heap.Contents()| <= |old(w.heap.Contents())| + i && w.subs.nextIndex <= old(w.subs.nextIndex) + i && w.subs.Kept()
    {
      ghost var held := w.Held();
      var r := SetOne(w, sets[i]);
      if r.Err? {
        return false;
      }
      if w.ndb.Fits64() { Ownership.PassesThen(old(w.Held()), held, w.Held()); }
      ApplyNext(w.tags, base, sets, i);
    }
    assert sets[..|sets|] == sets;
    ghost var held := w.Held();
    var ended := w.EndRow();
    if w.ndb.Fits64() { Ownership.PassesThen(old(w.Held()), held, w.Held()); }
    SharedNdb(w);
    PinnedAtLeast(w);
    return true;
  }

  /** Opening a row writes nothing. */
  twostate lemma SameHeld(w: TableContextWriter)
    requires unchanged(w`rowLeaves) && unchanged(w.heap) && unchanged(w.heap.ndb) && unchanged(w.subs) && unchanged(w.subs.ndb)
    ensures w.Held() == old(w.Held())
  {
  }

  lemma PinnedAtLeast(w: TableContextWriter)
    requires w.Valid()
    ensures |w.tags| >= 2
  {
    hide w.ndb.Valid, RowStream.RowsOut, Done, Building;
  }

  method SetOne(w: TableContextWriter, s: Setting) returns (r: Result<()>)
    requires w.Valid() && w.inRow && CellFits(s.tag, s.cell)
    modifies w, w.heap, w.subs, w.ndb
    ensures r.Ok? ==> w.Valid() && w.inRow && w.rows == old(w.rows) && s.tag in w.tags
    ensures r.Ok? ==> w.row == WithCell(w.tags, old(w.row), s.tag, s.cell)
    ensures w.ndb.Valid() && w.ndb.Grown() && w.ndb.nbt == old(w.ndb.nbt)
    ensures r.Ok? && w.ndb.Fits64() ==> Ownership.Passes(old(w.Held()), w.Held())
    ensures r.Ok? ==> |w.heap.Contents()| <= |old(w.heap.Contents())| + 1 && w.subs.nextIndex <= old(w.subs.nextIndex) + 1
    ensures r.Err? ==> s.tag !in w.tags || Large(Some(s.cell)) || |old(w.heap.Contents())| >= HeapFormat.MAX_BLOCKS
    ensures w.subs.Kept()
  {
    hide w.Valid, CellFits, WithCell, w.ndb.Valid, Ownership.Passes;
    SharedNdb(w);
    w.HeldPasses();
    match s.cell
    case Fixed(data) => r := w.SetFixed(s.tag, data);
    case Var(data) => r := w.SetBinary(s.tag, data);
  }

  // --------------------------------------------------- columns and all rows

  method Declare(columns: seq<nat>) returns (table: TableContext)
    requires |columns| + 2 <= MAX_COLUMNS && forall i :: 0 <= i < |columns| ==> columns[i] < U32
    ensures fresh(table) && table.Valid() && table.rows == [] && table.columns == Declared(columns)
    ensures table.columns[0] == TAG_ROW_ID && table.columns[1] == TAG_ROW_VER
  {
    hide Declared, TagsFit;
    table := new TableContext();
    DeclaredNone();
    for i := 0 to |columns|
      invariant fresh(table) && table.Valid() && table.rows == [] && table.columns == Declared(columns[..i])
    {
      DeclaredNext(columns, i);
      table.AddColumn(columns[i]);
    }
    assert columns[..|columns|] == columns;
    DeclaredFits(columns);
  }

  predicate Scripted(tags: seq<nat>, script: seq<RowScript>) {
    && (forall i :: 0 <= i < |script| ==> ScriptFits(tags, script[i]))
    && forall i, j :: 0 <= i < j < |script| ==> script[i].id != script[j].id
  }

  /** The two tables of a script, as far as it has been played. */
  ghost predicate InStep(tags: seq<nat>, script: seq<RowScript>, rows: seq<Row>) {
    |rows| == |script| && forall i :: 0 <= i < |rows| ==> rows[i] == Apply(tags, NewRow(tags, script[i].id), script[i].first)
  }

  lemma InStepIds(tags: seq<nat>, script: seq<RowScript>, rows: seq<Row>)
    requires InStep(tags, script, rows) && Scripted(tags, script)
    ensures DistinctRowIds(Ids(rows))
  {
    hide Apply;
    forall i | 0 <= i < |rows| ensures rows[i].id < U32 {
      assert ScriptFits(tags, script[i]);
    }
  }

  lemma {:induction false} ApplyFits(tags: seq<nat>, row: Row, sets: seq<Setting>)
    requires RowFits(tags, row) && Typed(sets)
    ensures RowFits(tags, Apply(tags, row, sets))
  {
    hide CellFits;
    if sets != [] { ApplyFits(tags, row, sets[..|sets| - 1]); }
  }

  lemma NewRowFits(tags: seq<nat>, id: nat)
    requires id < U32 && |tags| >= 2 && tags[0] == TAG_ROW_ID && tags[1] == TAG_ROW_VER
    ensures RowFits(tags, NewRow(tags, id))
  {
    hide Put32;
  }

  lemma InStepFits(tags: seq<nat>, script: seq<RowScript>, rows: seq<Row>)
    requires InStep(tags, script, rows) && Scripted(tags, script) && |tags| >= 2 && tags[0] == TAG_ROW_ID && tags[1] == TAG_ROW_VER
    ensures forall i :: 0 <= i < |rows| ==> RowFits(tags, rows[i])
  {
    hide Apply, NewRow, RowFits, Typed;
    forall i | 0 <= i < |rows| ensures RowFits(tags, rows[i]) {
      assert ScriptFits(tags, script[i]);
      NewRowFits(tags, script[i].id);
      ApplyFits(tags, NewRow(tags, script[i].id), script[i].first);
    }
  }

  lemma SameAsFirst(tags: seq<nat>, s: RowScript)
    requires TagsFit(tags) && ScriptFits(tags, s)
    ensures Apply(tags, NewRow(tags, s.id), s.second) == Apply(tags, NewRow(tags, s.id), s.first)
  {
    hide Apply;
    SameRows(tags, NewRow(tags, s.id), s.first, s.second);
  }

  ghost predicate SameAnswers(a: Buf, f: nat -> Option<Buf>, b: Buf, g: nat -> Option<Buf>) {
    forall id: nat, tag: nat :: ReadCell(a, f, id, tag) == ReadCell(b, g, id, tag)
  }

  lemma InStepNext(tags: seq<nat>, script: seq<RowScript>, rows: seq<Row>, i: nat, row: Row)
    requires i < |script| && InStep(tags, script[..i], rows) && row == Apply(tags, NewRow(tags, script[i].id), script[i].first)
    ensures InStep(tags, script[..i + 1], rows + [row])
  {
    hide Apply;
  }

  lemma InStepSame(tags: seq<nat>, script: seq<RowScript>, a: seq<Row>, b: seq<Row>)
    requires InStep(tags, script, a) && InStep(tags, script, b)
    ensures a == b
  {
    hide Apply;
  }

  lemma OneScript(tags: seq<nat>, script: seq<RowScript>, i: nat)
    requires Scripted(tags, script) && i < |script|
    ensures ScriptFits(tags, script[i])
  {
  }

  /** A script the in-memory table can take: columns that are there, values under 4 GiB, a
      matrix under 4 GiB, and a heap with room if every cell took a block of its own. */
  ghost predicate TableFits(columns: seq<nat>, script: seq<RowScript>) {
    && (forall i :: 0 <= i < |script| ==> !Refused(Declared(columns), script[i].first))
    && !MatrixTooLarge(|script|, RowSize(Declared(columns)))
    && 3 + |script| * |Declared(columns)| + Bth.MostBlocks(|script|, 4, 4) <= HeapFormat.MAX_BLOCKS
  }

  /** The settings of the first `n` rows as the streaming table gets them. */
  function Settings(script: seq<RowScript>, n: nat): nat
    requires n <= |script|
  {
    if n == 0 then 0 else Settings(script, n - 1) + |script[n - 1].second|
  }

  lemma {:induction false} SettingsGrow(script: seq<RowScript>, i: nat, n: nat)
    requires i <= n <= |script|
    ensures Settings(script, i) <= Settings(script, n)
    decreases n
  {
    if i < n { SettingsGrow(script, i, n - 1); }
  }

  /** A script the streaming table can take. */
  ghost predicate StreamFits(columns: seq<nat>, script: seq<RowScript>) {
    && (forall i :: 0 <= i < |script| ==> !Refused(Declared(columns), script[i].second))
    && !MatrixTooLarge(|script|, RowSize(Declared(columns)))
    && 1 + Settings(script, |script|) + Bth.MostBlocks(|script|, 4, 4) < HeapFormat.MAX_BLOCKS
  }

  /** Only a setting brings a large cell into a row. */
  lemma LargeRefused(tags: seq<nat>, row: Row, sets: seq<Setting>)
    requires TagsFit(tags) && |row.cells| == |tags| && forall k :: 0 <= k < |tags| ==> !Large(row.cells[k])
    requires !Refused(tags, sets)
    ensures forall k :: 0 <= k < |tags| ==> !Large(Apply(tags, row, sets).cells[k])
  {
    hide Apply, TagsFit, Large, LastSetting;
    forall k | 0 <= k < |tags| ensures !Large(Apply(tags, row, sets).cells[k]) {
      ApplyIsLast(tags, row, sets, k);
      if LastSetting(sets, tags[k]).Some? { LastIsSet(sets, tags[k]); }
    }
  }

  lemma {:induction false} LastIsSet(sets: seq<Setting>, tag: nat)
    requires LastSetting(sets, tag).Some?
    ensures exists i :: 0 <= i < |sets| && LastSetting(sets, tag) == Some(sets[i].cell)
  {
    var n := |sets| - 1;
    if sets[n].tag != tag {
      LastIsSet(sets[..n], tag);
      var i :| 0 <= i < n && LastSetting(sets[..n], tag) == Some(sets[..n][i].cell);
      assert sets[..n][i] == sets[i];
    }
  }

  lemma NoneOversized(tags: seq<nat>, script: seq<RowScript>, rows: seq<Row>)
    requires InStep(tags, script, rows) && TagsFit(tags) && |tags| >= 2
    requires forall i :: 0 <= i < |script| ==> !Refused(tags, script[i].first)
    ensures !Oversized(rows)
  {
    hide Apply, TagsFit, Refused, Large, NewRow;
    forall i | 0 <= i < |rows| ensures forall k :: 0 <= k < |rows[i].cells| ==> !Large(rows[i].cells[k]) {
      NewRowSmall(tags, script[i].id);
      LargeRefused(tags, NewRow(tags, script[i].id), script[i].first);
    }
  }

  lemma NewRowSmall(tags: seq<nat>, id: nat)
    requires |tags| >= 2
    ensures |NewRow(tags, id).cells| == |tags| && forall k :: 0 <= k < |tags| ==> !Large(NewRow(tags, id).cells[k])
  {
    hide Put32;
  }

  lemma RefusedIf(tags: seq<nat>, sets: seq<Setting>, i: nat)
    requires i < |sets| && sets[i].tag !in tags
    ensures Refused(tags, sets)
  {
  }

  /** A script on the in-memory table. */
  method PlaySimple(ndb: Ndb.NdbWriter, subs: SubnodeAllocator, columns: seq<nat>, script: seq<RowScript>)
    returns (ok: bool, stream: Buf, ghost rows: seq<Row>)
    requires ndb.Valid() && subs.ndb == ndb && |columns| + 2 <= MAX_COLUMNS && forall i :: 0 <= i < |columns| ==> columns[i] < U32
    requires Scripted(Declared(columns), script) && |script| < U32
    modifies ndb, subs
    ensures ndb.Valid() && ndb.Grown() && ndb.nbt == old(ndb.nbt) && (ok ==> InStep(Declared(columns), script, rows))
    ensures ok && Sound(old(subs.Good()), subs) ==> AnswersFrom(stream, ndb.blocks, subs.entries, Declared(columns), rows)
    ensures ok && ndb.Fits64() ==> Ownership.Passes(old(subs.Held()), subs.Held())
    ensures subs.Kept() && subs.nextIndex <= old(subs.nextIndex) + |script| * |Declared(columns)| + 1
    ensures ok ==> |stream| < U32 && forall i :: 0 <= i < |script| ==> Accepted(Declared(columns), script[i].first)
    ensures !ok ==> !TableFits(columns, script)
  {
    hide Oversized, MatrixTooLarge, Bth.MostBlocks, RowFits, RowKinds, FitRow, FitRows, ndb.Valid, Declared, Scripted, Apply, NewRow,
         CellFits, AnswersFrom, DistinctRowIds, subs.Held, Ownership.Passes, InStep, Numbered, ScriptFits, TagsFit,
         Refused;
    ok, stream, rows := false, [], [];
    DeclaredFits(columns);
    AtLeastTwo(columns);
    var table := Declare(columns);
    var filled := FillRows(table, script);
    if !filled {
      return;
    }
    rows := table.rows;
    RowsOfScript(Declared(columns), script, rows);
    var r := table.Serialize(subs);
    if r.Ok? {
      ok, stream := true, r.value;
    }
  }

  /** Cells of a script's rows, by the columns asked for. */
  lemma CellCount(columns: seq<nat>, script: seq<RowScript>)
    requires |columns| + 2 <= MAX_COLUMNS && forall i :: 0 <= i < |columns| ==> columns[i] < U32
    ensures |script| * |Declared(columns)| <= |script| * (|columns| + 2)
  {
    hide Declared;
    DeclaredFits(columns);
    Bth.Scale(|Declared(columns)|, |columns| + 2, |script|);
  }

  /** What the rows of a script are. */
  lemma RowsOfScript(tags: seq<nat>, script: seq<RowScript>, rows: seq<Row>)
    requires InStep(tags, script, rows) && Scripted(tags, script) && TagsFit(tags)
    requires |tags| >= 2 && tags[0] == TAG_ROW_ID && tags[1] == TAG_ROW_VER
    ensures DistinctRowIds(Ids(rows)) && |rows| == |script| && FitRows(tags, rows) == rows
    ensures (forall i :: 0 <= i < |script| ==> !Refused(tags, script[i].first)) ==> !Oversized(rows)
  {
    hide InStep, Scripted, TagsFit, DistinctRowIds, FitRows, Oversized, Refused, RowFits;
    InStepIds(tags, script, rows);
    InStepLength(tags, script, rows);
    InStepFits(tags, script, rows);
    FitKeeps(tags, rows);
    if forall i :: 0 <= i < |script| ==> !Refused(tags, script[i].first) { NoneOversized(tags, script, rows); }
  }

  /** The rows of a script, into the in-memory table. */
  method FillRows(table: TableContext, script: seq<RowScript>) returns (ok: bool)
    requires table.Valid() && table.rows == [] && Scripted(table.columns, script)
    requires table.columns[0] == TAG_ROW_ID && table.columns[1] == TAG_ROW_VER
    modifies table
    ensures table.Valid() && table.columns == old(table.columns)
    ensures ok ==> InStep(table.columns, script, table.rows)
    ensures ok <==> forall i :: 0 <= i < |script| ==> Accepted(table.columns, script[i].first)
    ensures !ok ==> exists i :: 0 <= i < |script| && Refused(table.columns, script[i].first)
  {
    hide table.Valid, Scripted, Apply, NewRow, InStep, ScriptFits, Refused;
    ghost var tags := table.columns;
    NotStarted(tags, script);
    for i := 0 to |script|
      invariant table.Valid() && table.columns == tags && InStep(tags, script[..i], table.rows)
      invariant forall k :: 0 <= k < i ==> Accepted(tags, script[k].first)
    {
      OneScript(tags, script, i);
      ScriptTyped(tags, script[i]);
      ghost var before := table.rows;
      var done := FillRow(table, script[i].id, script[i].first);
      if !done {
        ghost var k :| 0 <= k < |script[i].first| && script[i].first[k].tag !in tags;
        RefusedIf(tags, script[i].first, k);
        return false;
      }
      InStepNext(tags, script, before, i, table.rows[|before|]);
    }
    assert script[..|script|] == script;
    return true;
  }

  lemma {:induction false} AtLeastTwo(columns: seq<nat>)
    ensures |Declared(columns)| >= 2
  {
    if columns != [] { AtLeastTwo(columns[..|columns| - 1]); }
  }

  lemma NotStarted(tags: seq<nat>, script: seq<RowScript>)
    ensures InStep(tags, script[..0], [])
  {
  }

  lemma InStepLength(tags: seq<nat>, script: seq<RowScript>, rows: seq<Row>)
    requires InStep(tags, script, rows)
    ensures |rows| == |script|
  {
  }

  lemma ScriptTyped(tags: seq<nat>, s: RowScript)
    requires ScriptFits(tags, s)
    ensures s.id < U32 && Typed(s.first) && Typed(s.second)
  {
  }

  /** The same script on the streaming table, with the other order of settings. */
  method PlayStreamed(ndb: Ndb.NdbWriter, columns: seq<nat>, script: seq<RowScript>)
    returns (ok: bool, data: nat, subs: SubnodeAllocator, ghost rows: seq<Row>)
    requires ndb.Valid() && |columns| + 2 <= MAX_COLUMNS && forall i :: 0 <= i < |columns| ==> columns[i] < U32
    requires Scripted(Declared(columns), script) && |script| < U32
    modifies ndb
    ensures fresh(subs) && subs.ndb == ndb && (ok ==> ndb.Valid() && InStep(Declared(columns), script, rows) && data in ndb.blocks)
    ensures ok && ndb.Fits64() && subs.nextIndex <= MAX_INDEX ==>
              ReadTree(ndb.blocks, data).Some? && AnswersFrom(ReadTree(ndb.blocks, data).value, ndb.blocks, subs.entries, Declared(columns), rows)
    ensures ndb.Valid() && (ok ==> subs.nextIndex <= 2 + Settings(script, |script|))
    ensures ok ==> forall i :: 0 <= i < |script| ==> Accepted(Declared(columns), script[i].second)
    ensures !ok ==> !StreamFits(columns, script)
  {
    hide ndb.Valid, Declared, Scripted, Apply, NewRow, CellFits, AnswersFrom, ReadTree, DistinctRowIds, InStep, Numbered, ScriptFits, TagsFit,
         SubnodesRead, Refused, MatrixTooLarge, Bth.MostBlocks;
    ok, data, rows := false, 0, [];
    var w := new TableContextWriter(ndb, columns);
    subs := w.subs;
    DeclaredFits(columns);
    var played := StreamRows(w, script);
    if !played {
      return;
    }
    rows := w.rows;
    InStepIds(w.tags, script, rows);
    InStepLength(w.tags, script, rows);
    var r := w.Finish();
    if r.Ok? {
      ok, data := true, r.value.0;
    }
  }

  /** The rows of a script, into the streaming table. */
  method StreamRows(w: TableContextWriter, script: seq<RowScript>) returns (ok: bool)
    requires w.Valid() && !w.inRow && w.rows == [] && Scripted(w.tags, script) && TagsFit(w.tags)
    modifies w, w.heap, w.subs, w.ndb
    ensures w.ndb.Valid() && w.ndb.Grown() && w.ndb.nbt == old(w.ndb.nbt) && w.subs.Kept()
    ensures ok ==> w.Valid() && !w.inRow && InStep(w.tags, script, w.rows)
    ensures ok ==> forall i :: 0 <= i < |script| ==> Accepted(w.tags, script[i].second)
    ensures ok ==> |w.heap.Contents()| <= |old(w.heap.Contents())| + Settings(script, |script|)
    ensures ok ==> w.subs.nextIndex <= old(w.subs.nextIndex) + Settings(script, |script|)
    ensures !ok ==> (exists i :: 0 <= i < |script| && Refused(w.tags, script[i].second))
                    || |old(w.heap.Contents())| + Settings(script, |script|) > HeapFormat.MAX_BLOCKS
  {
    hide w.Valid, w.ndb.Valid, Scripted, Apply, NewRow, InStep, ScriptFits, Refused, TagsFit, Numbered, Accepted;
    NotStarted(w.tags, script);
    SharedNdb(w);
    for i := 0 to |script|
      invariant w.Valid() && !w.inRow && InStep(w.tags, script[..i], w.rows)
      invariant w.ndb.Valid() && w.ndb.Grown() && w.ndb.nbt == old(w.ndb.nbt) && w.subs.Kept()
      invariant forall k :: 0 <= k < i ==> Accepted(w.tags, script[k].second)
      invariant |w.heap.Contents()| <= |old(w.heap.Contents())| + Settings(script, i)
      invariant w.subs.nextIndex <= old(w.subs.nextIndex) + Settings(script, i)
    {
      OneScript(w.tags, script, i);
      ScriptTyped(w.tags, script[i]);
      SameAsFirst(w.tags, script[i]);
      SettingsGrow(script, i + 1, |script|);
      ghost var before := w.rows;
      var done := StreamRow(w, script[i].id, script[i].second);
      if !done {
        return false;
      }
      InStepNext(w.tags, script, before, i, w.rows[|before|]);
    }
    assert script[..|script|] == script;
    return true;
  }

  lemma SharedNdb(w: TableContextWriter)
    requires w.Valid()
    ensures w.subs.ndb == w.ndb && w.heap.ndb == w.ndb && w.ndb.Valid()
  {
    hide w.ndb.Valid, RowStream.RowsOut, Done, Building;
  }

  /** Plays a script on both writers, each with its own order of settings, and ends both.
      Whatever a reader asks of the two outputs, it gets the same answer from both. Fails only
      when a setting is refused or too large, or a heap may run out of blocks. */
  method PlayBoth(ndb: Ndb.NdbWriter, columns: seq<nat>, script: seq<RowScript>)
    returns (ok: bool, simple: Buf, simpleSubs: SubnodeAllocator, streamed: nat, streamedSubs: SubnodeAllocator)
    requires ndb.Valid() && |columns| + 2 <= MAX_COLUMNS && forall i :: 0 <= i < |columns| ==> columns[i] < U32
    requires Scripted(Declared(columns), script) && |script| < U32
    modifies ndb
    ensures ok ==> streamed in ndb.blocks
    ensures ok && ndb.Fits64() && |script| * (|columns| + 2) + 2 <= MAX_INDEX && Settings(script, |script|) + 2 <= MAX_INDEX ==>
              (&& ReadTree(ndb.blocks, streamed).Some?
               && SameAnswers(simple, Subs(ndb.blocks, simpleSubs.entries),
                              ReadTree(ndb.blocks, streamed).value, Subs(ndb.blocks, streamedSubs.entries)))
    ensures ok ==> forall i :: 0 <= i < |script| ==> Accepted(Declared(columns), script[i].first) && Accepted(Declared(columns), script[i].second)
    ensures !ok ==> !TableFits(columns, script) || !StreamFits(columns, script)
  {
    hide ndb.Valid, Declared, Scripted, Answers, AnswersFrom, ReadTree, SameAnswers, Subs, InStep, Numbered, TableFits, StreamFits, Accepted;
    ghost var rows: seq<Row>;
    ghost var others: seq<Row>;
    ok, streamed, streamedSubs, rows := PlayStreamed(ndb, columns, script);
    simpleSubs := new SubnodeAllocator(ndb);
    simple := [];
    if !ok {
      return;
    }
    ghost var mid, entries := ndb.blocks, streamedSubs.entries;
    CellCount(columns, script);
    ok, simple, others := PlaySimple(ndb, simpleSubs, columns, script);
    if ok && ndb.Fits64() && |script| * (|columns| + 2) + 2 <= MAX_INDEX && Settings(script, |script|) + 2 <= MAX_INDEX {
      ReadTreeGrow(mid, ndb.blocks, streamed);
      InStepSame(Declared(columns), script, rows, others);
      ExtendsItself(ndb.blocks);
      AnswersAt(simple, ndb.blocks, ndb.blocks, simpleSubs.entries, Declared(columns), rows);
      AnswersAt(ReadTree(mid, streamed).value, mid, ndb.blocks, entries, Declared(columns), rows);
      BothAnswer(simple, Subs(ndb.blocks, simpleSubs.entries), ReadTree(mid, streamed).value, Subs(ndb.blocks, entries),
                 Declared(columns), rows);
    }
  }

  lemma BothAnswer(a: Buf, f: nat -> Option<Buf>, b: Buf, g: nat -> Option<Buf>, tags: seq<nat>, rows: seq<Row>)
    requires Answers(a, f, tags, rows) && Answers(b, g, tags, rows)
    ensures SameAnswers(a, f, b, g)
  {
    hide ReadCell, CellOf;
  }
}
