/** The spreadsheet import and export: the two sheets and their column
    schemas, the validation of an uploaded workbook, the normalisation of its
    cells on load, and the column layout written on export. A workbook is
    modelled by its parsed sheets, not by its file bytes. */
module Spreadsheet {
  import opened Wrappers
  import opened PyInt
  import opened Records

  const TeamsSheet: string := "Teams"
  const MatchesSheet: string := "Matches"

  const TeamsColumns: seq<string> := ["team_id", "team_name", "player1", "player2", "group", "seed"]
  const MatchesColumns: seq<string> := [
    "match_id", "group", "team1_id", "team2_id", "status",
    "set1_t1", "set1_t2", "set2_t1", "set2_t2", "set3_t1", "set3_t2"]

  const StatusValues: seq<string> := [Scheduled, InProgress, Completed]

  /** The columns read as integers on load. */
  const TeamsNumeric: seq<string> := ["team_id", "seed"]
  const MatchesNumeric: seq<string> := [
    "match_id", "team1_id", "team2_id", "set1_t1", "set1_t2", "set2_t1", "set2_t2", "set3_t1", "set3_t2"]

  const StatusColumn: string := "status"

  /** One spreadsheet cell: empty, an integer, or text. */
  datatype Cell = Blank | Number(n: int) | Text(s: string)

  /** A parsed sheet: its number of rows, its column names from left to
      right, and, per column name, that column's cells from top to bottom. */
  datatype Frame = Frame(height: nat, columns: seq<string>, data: map<string, seq<Cell>>)

  /** Every column has one cell per row. */
  predicate Rectangular(f: Frame) {
    forall c :: c in f.data ==> |f.data[c]| == f.height
  }

  predicate Distinct(names: seq<string>) {
    forall i, j :: 0 <= i < j < |names| ==> names[i] != names[j]
  }

  /** The column names list each column of the sheet once. */
  predicate Headed(f: Frame) {
    f.data.Keys == (set c | c in f.columns) && Distinct(f.columns)
  }

  /** A workbook: sheet name to parsed sheet. */
  type Workbook = map<string, Frame>

  // ------------------------------------------------------------ validation

  /** `[c for c in schema if c not in df.columns]`. */
  function Missing(schema: seq<string>, f: Frame): (r: seq<string>)
    ensures forall c :: c in r <==> c in schema && c !in f.data
    ensures |r| <= |schema|
  {
    if schema == [] then []
    else (if schema[0] in f.data then [] else [schema[0]]) + Missing(schema[1..], f)
  }

  /** The missing columns are listed in schema order: splitting the schema
      splits the list. */
  lemma {:induction false} MissingAppend(a: seq<string>, b: seq<string>, f: Frame)
    ensures Missing(a + b, f) == Missing(a, f) + Missing(b, f)
  {
    if a != [] {
      var h := if a[0] in f.data then [] else [a[0]];
      var ab := a + b;
      assert ab[0] == a[0] && ab[1..] == a[1..] + b;
      assert Missing(ab, f) == h + Missing(a[1..] + b, f);
      MissingAppend(a[1..], b, f);
    } else {
      assert a + b == b;
    }
  }

  lemma MissingNonEmpty(schema: seq<string>, f: Frame)
    ensures Missing(schema, f) != [] <==> exists c :: c in schema && c !in f.data
  {
    var r := Missing(schema, f);
    if r != [] {
      assert r[0] in r;
    }
  }

  /** Python's `repr` of a list of strings that hold no quote characters. */
  function PyList(xs: seq<string>): (r: string)
    ensures |r| >= 2 && r[0] == '[' && r[|r| - 1] == ']'
    ensures xs == [] <==> r == "[]"
  {
    "[" + JoinQuoted(xs) + "]"
  }

  function JoinQuoted(xs: seq<string>): (r: string)
    ensures xs != [] ==> |r| >= 2 && r[0] == '\''
  {
    if xs == [] then ""
    else if |xs| == 1 then "'" + xs[0] + "'"
    else "'" + xs[0] + "', " + JoinQuoted(xs[1..])
  }

  /** Both sheets exist and each has every column of its schema. */
  predicate Conforms(wb: Workbook) {
    && TeamsSheet in wb && MatchesSheet in wb
    && (forall c :: c in TeamsColumns ==> c in wb[TeamsSheet].data)
    && (forall c :: c in MatchesColumns ==> c in wb[MatchesSheet].data)
  }

  /** `validate_excel`: `None` when the workbook is usable, otherwise the
      first problem found, sheets before columns and Teams before Matches. */
  function ValidateExcel(wb: Workbook): (r: Option<string>)
    ensures r.None? <==> Conforms(wb)
  {
    if TeamsSheet !in wb then Some("Missing 'Teams' sheet")
    else if MatchesSheet !in wb then Some("Missing 'Matches' sheet")
    else
      var missingTeams := Missing(TeamsColumns, wb[TeamsSheet]);
      var missingMatches := Missing(MatchesColumns, wb[MatchesSheet]);
      if missingTeams != [] then
        assert missingTeams[0] in missingTeams;
        Some("Teams sheet missing columns: " + PyList(missingTeams))
      else if missingMatches != [] then
        assert missingMatches[0] in missingMatches;
        Some("Matches sheet missing columns: " + PyList(missingMatches))
      else None
  }

  /** Which message is reported: a missing Teams sheet first, then a missing
      Matches sheet, then Teams columns, then Matches columns; a column
      message names exactly the missing columns. */
  lemma ValidateOrder(wb: Workbook)
    ensures TeamsSheet !in wb ==> ValidateExcel(wb) == Some("Missing 'Teams' sheet")
    ensures TeamsSheet in wb && MatchesSheet !in wb ==> ValidateExcel(wb) == Some("Missing 'Matches' sheet")
    ensures TeamsSheet in wb && MatchesSheet in wb && (exists c :: c in TeamsColumns && c !in wb[TeamsSheet].data) ==>
              ValidateExcel(wb) == Some("Teams sheet missing columns: " + PyList(Missing(TeamsColumns, wb[TeamsSheet])))
    ensures TeamsSheet in wb && MatchesSheet in wb && (forall c :: c in TeamsColumns ==> c in wb[TeamsSheet].data) &&
            (exists c :: c in MatchesColumns && c !in wb[MatchesSheet].data) ==>
              ValidateExcel(wb) == Some("Matches sheet missing columns: " + PyList(Missing(MatchesColumns, wb[MatchesSheet])))
  {
    if TeamsSheet in wb && MatchesSheet in wb {
      MissingNonEmpty(TeamsColumns, wb[TeamsSheet]);
      MissingNonEmpty(MatchesColumns, wb[MatchesSheet]);
    }
  }

  // ------------------------------------------------------------ load

  /** `pd.to_numeric(errors="coerce")` followed by `astype("Int64")` on one
      cell: integers stay, integer text is read, and any other text becomes
      empty. Decimal and exponent text is blanked here too; the source reads
      "1.0" as 1 and rejects the whole load on "1.5". */
  function ToNumber(c: Cell): (r: Cell)
    ensures r.Blank? || r.Number?
    ensures c.Number? ==> r == c
    ensures c.Text? ==> (r.Number? <==> ParseInt(c.s).Some?) && (r.Number? ==> Some(r.n) == ParseInt(c.s))
  {
    match c
    case Blank => Blank
    case Number(_) => c
    case Text(s) => if ParseInt(s).Some? then Number(ParseInt(s).value) else Blank
  }

  function CoerceColumn(col: seq<Cell>): (r: seq<Cell>)
    ensures |r| == |col|
  {
    seq(|col|, k requires 0 <= k < |col| => ToNumber(col[k]))
  }

  lemma CoerceColumnIdempotent(col: seq<Cell>)
    ensures CoerceColumn(CoerceColumn(col)) == CoerceColumn(col)
  {
    var once := CoerceColumn(col);
    assert forall k :: 0 <= k < |col| ==> ToNumber(once[k]) == once[k];
  }

  /** The frame with every listed column that it has read as integers. */
  function CoerceColumns(f: Frame, cols: seq<string>): Frame {
    f.(data := map c | c in f.data :: if c in cols then CoerceColumn(f.data[c]) else f.data[c])
  }

  /** The status a loaded cell gets: a known status is kept, an empty cell
      or any other value becomes "Scheduled". */
  function NormalStatus(c: Cell): (r: Cell)
    ensures r.Text? && r.s in StatusValues
    ensures c.Text? && c.s in StatusValues ==> r == c
    ensures !(c.Text? && c.s in StatusValues) ==> r == Text(Scheduled)
  {
    if c.Text? && c.s in StatusValues then c else Text(Scheduled)
  }

  /** `fillna("Scheduled")`, then every status outside the three known ones
      set to "Scheduled"; a frame without a status column is left alone. */
  function DefaultStatus(f: Frame): Frame {
    if StatusColumn in f.data then
      var col := f.data[StatusColumn];
      f.(data := f.data[StatusColumn := seq(|col|, k requires 0 <= k < |col| => NormalStatus(col[k]))])
    else f
  }

  /** What `load_excel` returns: the validation message as an error, or the
      two sheets with their integer columns read and their statuses defaulted. */
  function Load(wb: Workbook): Result<(Frame, Frame), string> {
    match ValidateExcel(wb)
    case Some(msg) => Err(msg)
    case None =>
      Ok((CoerceColumns(wb[TeamsSheet], TeamsNumeric),
          DefaultStatus(CoerceColumns(wb[MatchesSheet], MatchesNumeric))))
  }

  /** One pass of the per-column loop: column `cols[i]`, when the sheet has
      it, is read as integers (a second time changes nothing). */
  lemma CoerceStep(f: Frame, d: map<string, seq<Cell>>, cols: seq<string>, i: nat)
    requires i < |cols| && cols[i] in d && d.Keys == f.data.Keys
    requires forall c :: c in f.data ==> d[c] == if c in cols[..i] then CoerceColumn(f.data[c]) else f.data[c]
    ensures forall c :: c in f.data ==>
              d[cols[i] := CoerceColumn(d[cols[i]])][c] ==
              if c in cols[..i + 1] then CoerceColumn(f.data[c]) else f.data[c]
  {
    assert cols[..i + 1] == cols[..i] + [cols[i]];
    if cols[i] in cols[..i] {
      CoerceColumnIdempotent(f.data[cols[i]]);
    }
  }

  /** The per-column loop of `load_excel`: each listed column the frame has is
      replaced by its integer reading. */
  method CoerceNumeric(f: Frame, cols: seq<string>) returns (g: Frame)
    ensures g == CoerceColumns(f, cols)
  {
    var data := f.data;
    for i := 0 to |cols|
      invariant data.Keys == f.data.Keys
      invariant forall c :: c in f.data ==>
                  data[c] == if c in cols[..i] then CoerceColumn(f.data[c]) else f.data[c]
    {
      var c := cols[i];
      if c in data {
        CoerceStep(f, data, cols, i);
        data := data[c := CoerceColumn(data[c])];
      } else {
        assert cols[..i + 1] == cols[..i] + [c];
      }
    }
    assert cols[..|cols|] == cols;
    assert data == CoerceColumns(f, cols).data;
    g := f.(data := data);
  }

  /** `load_excel`: validates, then normalises the two sheets. */
  method LoadExcel(wb: Workbook) returns (r: Result<(Frame, Frame), string>)
    ensures r == Load(wb)
    ensures r.Err? <==> !Conforms(wb)
  {
    var err := ValidateExcel(wb);
    if err.Some? {
      return Err(err.value);
    }
    var teams := CoerceNumeric(wb[TeamsSheet], TeamsNumeric);
    var matches := CoerceNumeric(wb[MatchesSheet], MatchesNumeric);
    matches := DefaultStatus(matches);
    r := Ok((teams, matches));
  }

  /** The integer columns belong to their schemas, and the status column is
      a text column of the Matches schema. */
  lemma SchemaFacts()
    ensures forall c :: c in TeamsNumeric ==> c in TeamsColumns
    ensures forall c :: c in MatchesNumeric ==> c in MatchesColumns && c != StatusColumn
    ensures StatusColumn in MatchesColumns
  {
    assert MatchesColumns[4] == StatusColumn;
  }

  /** After a load, every status is one of the three known ones; a known
      status is kept and any other, or none, reads "Scheduled". Every
      integer column holds only integers and empty cells; an integer stays,
      integer text is read, and other text becomes empty (see `ToNumber`
      for the decimal text this leaves out). */
  lemma LoadedCells(wb: Workbook)
    requires Load(wb).Ok?
    ensures var m := Load(wb).value.1;
            var m0 := wb[MatchesSheet];
            StatusColumn in m.data && |m.data[StatusColumn]| == |m0.data[StatusColumn]| &&
            forall k :: 0 <= k < |m.data[StatusColumn]| ==>
              m.data[StatusColumn][k].Text? && m.data[StatusColumn][k].s in StatusValues &&
              m.data[StatusColumn][k] == NormalStatus(m0.data[StatusColumn][k])
    ensures var t := Load(wb).value.0;
            var t0 := wb[TeamsSheet];
            forall c, k :: c in TeamsNumeric && 0 <= k < |t.data[c]| ==>
              |t.data[c]| == |t0.data[c]| && t.data[c][k] == ToNumber(t0.data[c][k])
    ensures var m := Load(wb).value.1;
            var m0 := wb[MatchesSheet];
            forall c, k :: c in MatchesNumeric && 0 <= k < |m.data[c]| ==>
              |m.data[c]| == |m0.data[c]| && m.data[c][k] == ToNumber(m0.data[c][k])
  {
    assert Conforms(wb);
    SchemaFacts();
    var t0, m0 := wb[TeamsSheet], wb[MatchesSheet];
    var t, m1 := CoerceColumns(t0, TeamsNumeric), CoerceColumns(m0, MatchesNumeric);
    assert Load(wb).value == (t, DefaultStatus(m1));
    assert StatusColumn in m1.data && m1.data[StatusColumn] == m0.data[StatusColumn];
  }

  /** Reading columns as integers keeps the frame's columns, rows and
      rectangular shape, and leaves the other columns alone. */
  lemma CoerceColumnsShape(f: Frame, cols: seq<string>)
    ensures CoerceColumns(f, cols).height == f.height && CoerceColumns(f, cols).columns == f.columns
    ensures CoerceColumns(f, cols).data.Keys == f.data.Keys
    ensures Rectangular(f) ==> Rectangular(CoerceColumns(f, cols))
    ensures Headed(f) ==> Headed(CoerceColumns(f, cols))
    ensures forall c :: c in f.data && c !in cols ==> CoerceColumns(f, cols).data[c] == f.data[c]
  {
  }

  /** Defaulting the statuses keeps the frame's columns, rows and
      rectangular shape, and leaves the other columns alone. */
  lemma DefaultStatusShape(f: Frame)
    ensures DefaultStatus(f).height == f.height && DefaultStatus(f).columns == f.columns
    ensures DefaultStatus(f).data.Keys == f.data.Keys
    ensures Rectangular(f) ==> Rectangular(DefaultStatus(f))
    ensures Headed(f) ==> Headed(DefaultStatus(f))
    ensures forall c :: c in f.data && c != StatusColumn ==> DefaultStatus(f).data[c] == f.data[c]
  {
  }

  /** Loading keeps every sheet's columns and rows, and leaves the text
      columns other than the status as they were. */
  lemma LoadedShape(wb: Workbook)
    requires Load(wb).Ok?
    ensures var (t, m) := Load(wb).value;
            t.height == wb[TeamsSheet].height && t.data.Keys == wb[TeamsSheet].data.Keys &&
            m.height == wb[MatchesSheet].height && m.data.Keys == wb[MatchesSheet].data.Keys &&
            t.columns == wb[TeamsSheet].columns && m.columns == wb[MatchesSheet].columns &&
            (Rectangular(wb[TeamsSheet]) ==> Rectangular(t)) &&
            (Rectangular(wb[MatchesSheet]) ==> Rectangular(m)) &&
            (forall c :: c in t.data && c !in TeamsNumeric ==> t.data[c] == wb[TeamsSheet].data[c]) &&
            (forall c :: c in m.data && c !in MatchesNumeric && c != StatusColumn ==> m.data[c] == wb[MatchesSheet].data[c])
  {
    assert Conforms(wb);
    var t0, m0 := wb[TeamsSheet], wb[MatchesSheet];
    var t, m1 := CoerceColumns(t0, TeamsNumeric), CoerceColumns(m0, MatchesNumeric);
    assert Load(wb).value == (t, DefaultStatus(m1));
    CoerceColumnsShape(t0, TeamsNumeric);
    CoerceColumnsShape(m0, MatchesNumeric);
    DefaultStatusShape(m1);
  }

  // ------------------------------------------------------------ export

  function Blanks(n: nat): (r: seq<Cell>)
    ensures |r| == n && forall k :: 0 <= k < n ==> r[k] == Blank
  {
    seq(n, _ => Blank)
  }

  /** `reindex(columns=schema)`: exactly the schema's columns, in schema
      order, an absent one empty. */
  function Reindex(f: Frame, schema: seq<string>): (r: Frame)
    ensures r.height == f.height && r.data.Keys == set c | c in schema
  {
    Frame(f.height, schema, map c | c in schema :: if c in f.data then f.data[c] else Blanks(f.height))
  }

  /** The workbook `export_excel_bytes` writes. */
  function Export(teams: Frame, matches: Frame): Workbook {
    map[TeamsSheet := Reindex(teams, TeamsColumns), MatchesSheet := Reindex(matches, MatchesColumns)]
  }

  /** An exported sheet has the schema's columns in schema order; it keeps
      the schema's columns that were present, empties the absent ones, drops
      every other column, and stays rectangular. */
  lemma ReindexSpec(f: Frame, schema: seq<string>)
    ensures Reindex(f, schema).columns == schema
    ensures Distinct(schema) ==> Headed(Reindex(f, schema))
    ensures forall c :: c in Reindex(f, schema).data <==> c in schema
    ensures forall c :: c in schema && c in f.data ==> Reindex(f, schema).data[c] == f.data[c]
    ensures forall c :: c in schema && c !in f.data ==> Reindex(f, schema).data[c] == Blanks(f.height)
    ensures Rectangular(f) ==> Rectangular(Reindex(f, schema))
  {
  }

  /** No schema names a column twice. */
  lemma SchemasDistinct()
    ensures Distinct(TeamsColumns) && Distinct(MatchesColumns)
  {
  }

  /** Every exported workbook passes validation and loads, and each sheet is
      written with its schema's columns, once each, in schema order. */
  lemma ExportValidates(teams: Frame, matches: Frame)
    ensures ValidateExcel(Export(teams, matches)) == None
    ensures Load(Export(teams, matches)).Ok?
    ensures Export(teams, matches)[TeamsSheet].columns == TeamsColumns
    ensures Export(teams, matches)[MatchesSheet].columns == MatchesColumns
    ensures Headed(Export(teams, matches)[TeamsSheet]) && Headed(Export(teams, matches)[MatchesSheet])
  {
    var wb := Export(teams, matches);
    assert wb[TeamsSheet] == Reindex(teams, TeamsColumns);
    assert wb[MatchesSheet] == Reindex(matches, MatchesColumns);
    SchemasDistinct();
    ReindexSpec(teams, TeamsColumns);
    ReindexSpec(matches, MatchesColumns);
  }

  /** Columns already read as integers are read the same again. */
  predicate CoerceFixed(f: Frame, cols: seq<string>) {
    forall c :: c in f.data && c in cols ==> CoerceColumn(f.data[c]) == f.data[c]
  }

  /** Statuses already defaulted are defaulted the same again. */
  predicate StatusFixed(f: Frame) {
    StatusColumn in f.data &&
    forall k :: 0 <= k < |f.data[StatusColumn]| ==> NormalStatus(f.data[StatusColumn][k]) == f.data[StatusColumn][k]
  }

  lemma CoerceFixedReindex(f: Frame, cols: seq<string>, schema: seq<string>)
    requires CoerceFixed(f, cols)
    ensures CoerceFixed(Reindex(f, schema), cols)
    ensures CoerceColumns(Reindex(f, schema), cols) == Reindex(f, schema)
  {
    var r := Reindex(f, schema);
    forall c | c in r.data && c in cols
      ensures CoerceColumn(r.data[c]) == r.data[c]
    {
      if c !in f.data {
        assert r.data[c] == Blanks(f.height);
      }
    }
  }

  lemma StatusFixedReindex(f: Frame, schema: seq<string>)
    requires StatusFixed(f) && StatusColumn in schema
    ensures DefaultStatus(Reindex(f, schema)) == Reindex(f, schema)
  {
    var r := Reindex(f, schema);
    var col := r.data[StatusColumn];
    assert col == f.data[StatusColumn];
    assert seq(|col|, k requires 0 <= k < |col| => NormalStatus(col[k])) == col;
    assert r.data[StatusColumn := col] == r.data;
  }

  /** A loaded workbook is fixed by another load's normalisation. */
  lemma LoadedFixed(wb: Workbook)
    requires Load(wb).Ok?
    ensures CoerceFixed(Load(wb).value.0, TeamsNumeric)
    ensures CoerceFixed(Load(wb).value.1, MatchesNumeric)
    ensures StatusFixed(Load(wb).value.1)
  {
    assert Conforms(wb);
    SchemaFacts();
    var t0, m0 := wb[TeamsSheet], wb[MatchesSheet];
    var t, m1 := CoerceColumns(t0, TeamsNumeric), CoerceColumns(m0, MatchesNumeric);
    var m := DefaultStatus(m1);
    assert Load(wb).value == (t, m);
    forall c | c in t.data && c in TeamsNumeric
      ensures CoerceColumn(t.data[c]) == t.data[c]
    {
      CoerceColumnIdempotent(t0.data[c]);
    }
    forall c | c in m.data && c in MatchesNumeric
      ensures CoerceColumn(m.data[c]) == m.data[c]
    {
      assert m.data[c] == m1.data[c];
      CoerceColumnIdempotent(m0.data[c]);
    }
    assert StatusColumn in m.data;
  }

  /** Re-importing an export of loaded sheets gives back the exported sheets. */
  lemma ReimportStable(wb: Workbook)
    requires Load(wb).Ok?
    ensures var (t, m) := Load(wb).value;
            Load(Export(t, m)) == Ok((Reindex(t, TeamsColumns), Reindex(m, MatchesColumns)))
  {
    var (t, m) := Load(wb).value;
    LoadedFixed(wb);
    SchemaFacts();
    ExportValidates(t, m);
    var rt, rm := Reindex(t, TeamsColumns), Reindex(m, MatchesColumns);
    var wb2 := Export(t, m);
    assert wb2[TeamsSheet] == rt && wb2[MatchesSheet] == rm;
    CoerceFixedReindex(t, TeamsNumeric, TeamsColumns);
    CoerceFixedReindex(m, MatchesNumeric, MatchesColumns);
    StatusFixedReindex(m, MatchesColumns);
  }
}
