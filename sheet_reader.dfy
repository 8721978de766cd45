/**
 * Reading rows from the selected worksheet. Row 0 is the header: each header
 * cell's column key (the letters of its reference) is mapped to the cell's
 * text. Every later row becomes one Row in which each cell's text is stored
 * under the header name of the cell's own column key.
 */
module SheetReader {
  import opened Wrappers
  import opened Text
  import opened Collections
  import opened Rows
  import opened Workbook

  // ---------------------------------------------------------------------
  // Column keys

  /** The leading run of letters of a cell reference: "C7" gives "C". */
  function ColumnKey(r: string): (k: string)
    ensures k <= r
    ensures forall i :: 0 <= i < |k| ==> IsAlphabetic(k[i])
    ensures |k| < |r| ==> !IsAlphabetic(r[|k|])
  {
    if r == [] || !IsAlphabetic(r[0]) then [] else [r[0]] + ColumnKey(r[1..])
  }

  /** The three properties of ColumnKey determine it: it is the longest alphabetic prefix. */
  lemma ColumnKeyIsLongestAlphabeticPrefix(r: string, p: string)
    requires p <= r
    requires forall i :: 0 <= i < |p| ==> IsAlphabetic(p[i])
    requires |p| < |r| ==> !IsAlphabetic(r[|p|])
    ensures p == ColumnKey(r)
  {
    var k := ColumnKey(r);
    assert |p| == |k|;
    assert p == r[..|p|] == k;
  }

  /** Column keys of typical references; a reference starting with a digit has the empty key. */
  lemma ColumnKeyExamples()
    ensures ColumnKey("C7") == "C"
    ensures ColumnKey("AB12") == "AB"
    ensures ColumnKey("7C") == ""
  {
    assert ColumnKey("7") == "";
    assert ColumnKey("B12") == "B" by { assert ColumnKey("12") == ""; }
  }

  /** extractColumnName: appends letters until the first non-letter. */
  method ExtractColumnName(r: string) returns (name: string)
    ensures name == ColumnKey(r)
  {
    name := "";
    var i := 0;
    while i < |r|
      invariant 0 <= i <= |r|
      invariant name == r[..i]
      invariant forall j :: 0 <= j < i ==> IsAlphabetic(r[j])
    {
      if !IsAlphabetic(r[i]) {
        break;
      }
      name := name + [r[i]];
      i := i + 1;
    }
    ColumnKeyIsLongestAlphabeticPrefix(r, name);
  }

  // ---------------------------------------------------------------------
  // Successive puts into a map

  /** The map obtained by putting the pairs into an empty map, first to last. */
  function PutAll<K>(pairs: seq<(K, string)>): map<K, string>
  {
    if pairs == [] then map[]
    else PutAll(pairs[..|pairs| - 1])[pairs[|pairs| - 1].0 := pairs[|pairs| - 1].1]
  }

  /** Some pair puts key k. */
  ghost predicate Puts<K>(pairs: seq<(K, string)>, k: K) {
    exists j :: 0 <= j < |pairs| && pairs[j].0 == k
  }

  /** After the puts, the keys present are exactly the keys put. */
  lemma {:induction false} PutAllKeys<K>(pairs: seq<(K, string)>)
    ensures forall k :: k in PutAll(pairs) <==> Puts(pairs, k)
  {
    if pairs != [] {
      var init := pairs[..|pairs| - 1];
      PutAllKeys(init);
      forall k ensures k in PutAll(pairs) <==> Puts(pairs, k) {
        if k in PutAll(pairs) && k != pairs[|pairs| - 1].0 {
          assert k in PutAll(init);
          var j :| 0 <= j < |init| && init[j].0 == k;
          assert pairs[j].0 == k;
        }
        if Puts(pairs, k) {
          var j :| 0 <= j < |pairs| && pairs[j].0 == k;
          if j < |init| {
            assert init[j].0 == k;
          }
        }
      }
    }
  }

  /** Each key holds the value of the LAST pair that put it: a later put overwrites an earlier one. */
  lemma {:induction false} PutAllLastWins<K>(pairs: seq<(K, string)>)
    ensures forall j ::
      (0 <= j < |pairs| && forall l :: j < l < |pairs| ==> pairs[l].0 != pairs[j].0)
      ==> pairs[j].0 in PutAll(pairs) && PutAll(pairs)[pairs[j].0] == pairs[j].1
  {
    if pairs != [] {
      var init := pairs[..|pairs| - 1];
      PutAllLastWins(init);
      forall j | 0 <= j < |pairs| && (forall l :: j < l < |pairs| ==> pairs[l].0 != pairs[j].0)
        ensures pairs[j].0 in PutAll(pairs) && PutAll(pairs)[pairs[j].0] == pairs[j].1
      {
        if j < |init| {
          assert init[j] == pairs[j];
          assert forall l :: j < l < |init| ==> init[l] == pairs[l];
        }
      }
    }
  }

  /** Putting one more pair extends the map of the earlier pairs. */
  lemma PutAllSnoc<K>(pairs: seq<(K, string)>, j: nat)
    requires j < |pairs|
    ensures PutAll(pairs[..j + 1]) == PutAll(pairs[..j])[pairs[j].0 := pairs[j].1]
  {
    assert pairs[..j + 1][..j] == pairs[..j];
  }

  // ---------------------------------------------------------------------
  // Header map and rows

  /** The (column key, text) pair of each header cell, in order. */
  function HeaderPairs(header: SourceRow): (ps: seq<(string, string)>)
    ensures |ps| == |header|
    ensures forall j :: 0 <= j < |header| ==> ps[j] == (ColumnKey(header[j].ref), header[j].text)
  {
    seq(|header|, j requires 0 <= j < |header| => (ColumnKey(header[j].ref), header[j].text))
  }

  /** The column-name map built from the header row. */
  function ColumnNames(header: SourceRow): map<string, string>
  {
    PutAll(HeaderPairs(header))
  }

  /** The header name a cell is stored under: the name of its column key, or null. */
  function NameOf(cell: Cell, names: map<string, string>): Key
  {
    Lookup(names, ColumnKey(cell.ref))
  }

  /** The (name, text) pair of each data cell, in order. */
  function CellPairs(cells: SourceRow, names: map<string, string>): (ps: seq<(Key, string)>)
    ensures |ps| == |cells|
    ensures forall j :: 0 <= j < |cells| ==> ps[j] == (NameOf(cells[j], names), cells[j].text)
  {
    seq(|cells|, j requires 0 <= j < |cells| => (NameOf(cells[j], names), cells[j].text))
  }

  /** The contents of the Row built from one data row. */
  function BuildRow(cells: SourceRow, names: map<string, string>): RowMap
  {
    PutAll(CellPairs(cells, names))
  }

  /** The rows built from a sheet: one per row after the header. */
  function SheetRows(sheet: Sheet): seq<RowMap>
    requires |sheet| > 0
  {
    seq(|sheet| - 1, i requires 0 <= i < |sheet| - 1 => BuildRow(sheet[i + 1], ColumnNames(sheet[0])))
  }

  /**
   * readRowsFromDataFile as a value: the rows of the selected sheet, or the
   * error that aborts the run.
   */
  function LoadRows(book: Book, sheetName: Option<string>): Result<seq<RowMap>, LoadError>
  {
    match PickSelectedSheet(book, sheetName)
    case Failure(e) => Failure(e)
    case Success(None) => Failure(SheetNotFound(sheetName.value))
    case Success(Some(i)) =>
      if |book[i].rows| == 0 then Failure(MissingHeaderRow) else Success(SheetRows(book[i].rows))
  }

  /** The header map sends each header key to the text of the last header cell with that key. */
  lemma HeaderMapping(header: SourceRow)
    ensures forall key :: key in ColumnNames(header) <==>
      exists j :: 0 <= j < |header| && ColumnKey(header[j].ref) == key
    ensures forall j ::
      (0 <= j < |header| && forall l :: j < l < |header| ==> ColumnKey(header[l].ref) != ColumnKey(header[j].ref))
      ==> ColumnKey(header[j].ref) in ColumnNames(header)
          && ColumnNames(header)[ColumnKey(header[j].ref)] == header[j].text
  {
    var ps := HeaderPairs(header);
    PutAllKeys(ps);
    PutAllLastWins(ps);
    forall key ensures key in ColumnNames(header) <==>
      exists j :: 0 <= j < |header| && ColumnKey(header[j].ref) == key
    {
      if key in ColumnNames(header) {
        var j :| 0 <= j < |ps| && ps[j].0 == key;
        assert ColumnKey(header[j].ref) == key;
      }
      if exists j :: 0 <= j < |header| && ColumnKey(header[j].ref) == key {
        var j :| 0 <= j < |header| && ColumnKey(header[j].ref) == key;
        assert ps[j].0 == key;
      }
    }
    forall j | 0 <= j < |header| &&
      (forall l :: j < l < |header| ==> ColumnKey(header[l].ref) != ColumnKey(header[j].ref))
      ensures ColumnKey(header[j].ref) in ColumnNames(header)
      ensures ColumnNames(header)[ColumnKey(header[j].ref)] == header[j].text
    {
      assert forall l :: j < l < |ps| ==> ps[l].0 != ps[j].0;
    }
  }

  /**
   * A Row holds exactly the names of the cells present in its source row,
   * null for a cell whose column has no header: no other column appears.
   */
  lemma RowColumns(cells: SourceRow, names: map<string, string>)
    ensures forall name :: name in BuildRow(cells, names) <==>
      exists j :: 0 <= j < |cells| && NameOf(cells[j], names) == name
  {
    var ps := CellPairs(cells, names);
    PutAllKeys(ps);
    forall name ensures name in BuildRow(cells, names) <==>
      exists j :: 0 <= j < |cells| && NameOf(cells[j], names) == name
    {
      if name in BuildRow(cells, names) {
        var j :| 0 <= j < |ps| && ps[j].0 == name;
        assert NameOf(cells[j], names) == name;
      }
      if exists j :: 0 <= j < |cells| && NameOf(cells[j], names) == name {
        var j :| 0 <= j < |cells| && NameOf(cells[j], names) == name;
        assert ps[j].0 == name;
      }
    }
  }

  /** Each name of a Row holds the text of the last cell of its source row with that name. */
  lemma RowValues(cells: SourceRow, names: map<string, string>)
    ensures forall j ::
      (0 <= j < |cells| && forall l :: j < l < |cells| ==> NameOf(cells[l], names) != NameOf(cells[j], names))
      ==> NameOf(cells[j], names) in BuildRow(cells, names)
          && BuildRow(cells, names)[NameOf(cells[j], names)] == cells[j].text
  {
    var ps := CellPairs(cells, names);
    PutAllLastWins(ps);
    forall j | 0 <= j < |cells| &&
      (forall l :: j < l < |cells| ==> NameOf(cells[l], names) != NameOf(cells[j], names))
      ensures NameOf(cells[j], names) in BuildRow(cells, names)
      ensures BuildRow(cells, names)[NameOf(cells[j], names)] == cells[j].text
    {
      assert forall l :: j < l < |ps| ==> ps[l].0 != ps[j].0;
    }
  }

  /** A data row without cells gives a blank Row. */
  lemma EmptySourceRowIsBlank(names: map<string, string>)
    ensures BuildRow([], names) == map[]
  {
  }

  /**
   * Header cells A1, B1, C1 reading Id, Name, Email and a data row with
   * A2 = 42 and B2 = Ann give the Row {Id: 42, Name: Ann}, without Email.
   */
  lemma HeaderResolutionExample()
    ensures SheetRows([[Cell("A1", "Id"), Cell("B1", "Name"), Cell("C1", "Email")],
                       [Cell("A2", "42"), Cell("B2", "Ann")]])
            == [map[Some("Id") := "42", Some("Name") := "Ann"]]
  {
    assert ColumnKey("A1") == "A" by { assert ColumnKey("1") == ""; }
    assert ColumnKey("B1") == "B" by { assert ColumnKey("1") == ""; }
    assert ColumnKey("C1") == "C" by { assert ColumnKey("1") == ""; }
    assert ColumnKey("A2") == "A" by { assert ColumnKey("2") == ""; }
    assert ColumnKey("B2") == "B" by { assert ColumnKey("2") == ""; }
    var header := [Cell("A1", "Id"), Cell("B1", "Name"), Cell("C1", "Email")];
    var hp := HeaderPairs(header);
    assert hp == [("A", "Id"), ("B", "Name"), ("C", "Email")];
    assert PutAll(hp[..1]) == map["A" := "Id"] by { assert hp[..1][..0] == []; }
    assert PutAll(hp[..2]) == map["A" := "Id", "B" := "Name"] by { assert hp[..2][..1] == hp[..1]; }
    assert PutAll(hp) == map["A" := "Id", "B" := "Name", "C" := "Email"] by { assert hp[..|hp| - 1] == hp[..2]; }
    var names := ColumnNames(header);
    var cells := [Cell("A2", "42"), Cell("B2", "Ann")];
    var cp := CellPairs(cells, names);
    assert cp == [(Some("Id"), "42"), (Some("Name"), "Ann")];
    assert PutAll(cp[..1]) == map[Some("Id") := "42"] by { assert cp[..1][..0] == []; }
    assert PutAll(cp) == map[Some("Id") := "42", Some("Name") := "Ann"] by { assert cp[..|cp| - 1] == cp[..1]; }
  }

  // ---------------------------------------------------------------------
  // The reader as the source runs it

  /** The contents of a list of rows. */
  ghost function RowContents(rows: seq<Row>): (s: seq<RowMap>)
    reads set i | 0 <= i < |rows| :: rows[i]
    reads set i | 0 <= i < |rows| :: rows[i].columns
    ensures |s| == |rows|
    ensures forall i :: 0 <= i < |rows| ==> s[i] == rows[i].Contents()
  {
    if rows == [] then [] else RowContents(rows[..|rows| - 1]) + [rows[|rows| - 1].Contents()]
  }

  /** Builds the Row for one data row, one setColumn per cell, in order. */
  method ReadRow(cells: SourceRow, names: map<string, string>) returns (row: Row)
    ensures fresh(row) && fresh(row.columns)
    ensures row.Contents() == BuildRow(cells, names)
  {
    row := new Row();
    for j := 0 to |cells|
      invariant fresh(row.columns)
      invariant row.Contents() == PutAll(CellPairs(cells, names)[..j])
    {
      var key := ExtractColumnName(cells[j].ref);
      row.SetColumn(Lookup(names, key), cells[j].text);
      PutAllSnoc(CellPairs(cells, names), j);
    }
    assert CellPairs(cells, names)[..|cells|] == CellPairs(cells, names);
  }

  /**
   * readRowsFromDataFile: selects the sheet, builds the header map from row 0
   * and one new Row per later row.
   */
  method ReadRowsFromDataFile(book: Book, sheetName: Option<string>) returns (r: Result<seq<Row>, LoadError>)
    ensures r.Failure? <==> LoadRows(book, sheetName).Failure?
    ensures r.Failure? ==> r.error == LoadRows(book, sheetName).error
    ensures r.Success? ==> RowContents(r.value) == LoadRows(book, sheetName).value
    ensures r.Success? ==> forall i :: 0 <= i < |r.value| ==> fresh(r.value[i]) && fresh(r.value[i].columns)
  {
    var picked := PickSelectedSheet(book, sheetName);
    if picked.Failure? {
      return Failure(picked.error);
    }
    if picked.value.None? {
      return Failure(SheetNotFound(sheetName.value));
    }
    var sourceRows := book[picked.value.value].rows;
    if |sourceRows| == 0 {
      return Failure(MissingHeaderRow);
    }

    var header := sourceRows[0];
    var columnNames: map<string, string> := map[];
    for j := 0 to |header|
      invariant columnNames == PutAll(HeaderPairs(header)[..j])
    {
      var key := ExtractColumnName(header[j].ref);
      columnNames := columnNames[key := header[j].text];
      PutAllSnoc(HeaderPairs(header), j);
    }
    assert HeaderPairs(header)[..|header|] == HeaderPairs(header);

    var rows: seq<Row> := [];
    for rowNumber := 1 to |sourceRows|
      invariant |rows| == rowNumber - 1
      invariant forall i :: 0 <= i < |rows| ==> fresh(rows[i]) && fresh(rows[i].columns)
      invariant forall i :: 0 <= i < |rows| ==> rows[i].Contents() == SheetRows(sourceRows)[i]
    {
      var row := ReadRow(sourceRows[rowNumber], columnNames);
      rows := rows + [row];
    }
    r := Success(rows);
  }
}
