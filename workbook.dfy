/**
 * The spreadsheet as the generator sees it once loaded: a workbook is an
 * ordered list of named worksheets, a worksheet an ordered list of rows, a
 * row the list of its cells, and a cell its A1-style reference together with
 * the text the cell formatter renders for it. This module also chooses the
 * worksheet to read.
 */
module Workbook {
  import opened Wrappers
  import opened Text

  /** A cell: its reference ("C7") and its displayed text. */
  datatype Cell = Cell(ref: string, text: string)

  type SourceRow = seq<Cell>
  type Sheet = seq<SourceRow>

  /** One worksheet of the workbook: its name and its rows. */
  datatype Worksheet = Worksheet(name: string, rows: Sheet)

  type Book = seq<Worksheet>

  /** Why loading rows from the data file aborts the run. */
  datatype LoadError =
    | NoWorksheetAtIndex(index: nat)   // getWorksheet(0) on a workbook without sheets
    | SheetNotFound(name: string)      // findsheetByName returned null; the reader dereferences it
    | MissingHeaderRow                 // the selected sheet has no row 0

  /** The request selects a sheet by name: the name was given and is not blank. */
  predicate Named(sheetName: Option<string>) {
    sheetName.Some? && !IsBlank(sheetName.value)
  }

  /** The sheet at index i answers to the requested name, ignoring case. */
  predicate Matches(book: Book, i: int, name: string)
    requires 0 <= i < |book|
  {
    EqualsIgnoreCase(name, book[i].name)
  }

  /**
   * findsheetByName: the index of the first sheet whose name equals the
   * request ignoring case, or None (Java's null) when no sheet does.
   */
  function FindSheetByName(book: Book, name: string): (r: Option<nat>)
    ensures r.Some? ==> r.value < |book| && Matches(book, r.value, name)
    ensures r.Some? ==> forall j :: 0 <= j < r.value ==> !Matches(book, j, name)
    ensures r.None? <==> forall j :: 0 <= j < |book| ==> !Matches(book, j, name)
    decreases |book|
  {
    if book == [] then None
    else if EqualsIgnoreCase(name, book[0].name) then assert Matches(book, 0, name); Some(0)
    else
      assert !Matches(book, 0, name);
      assert forall j :: 1 <= j < |book| ==> (Matches(book, j, name) <==> Matches(book[1..], j - 1, name));
      match FindSheetByName(book[1..], name)
      case None =>
        assert forall j :: 0 <= j < |book| ==> !Matches(book, j, name) by {
          forall j | 1 <= j < |book| ensures !Matches(book, j, name) {
            assert !Matches(book[1..], j - 1, name);
          }
        }
        None
      case Some(i) =>
        assert Matches(book[1..], i, name) && Matches(book, i + 1, name);
        Some(i + 1)
  }

  /**
   * pickSelectedSheet: with no name or a blank one, worksheet 0, which
   * throws when the workbook has none; otherwise the result of
   * findsheetByName, which may be None.
   */
  function PickSelectedSheet(book: Book, sheetName: Option<string>): (r: Result<Option<nat>, LoadError>)
    ensures !Named(sheetName) ==> (r.Failure? <==> |book| == 0)
    ensures !Named(sheetName) && r.Success? ==> r.value == Some(0)
    ensures Named(sheetName) ==> r.Success?
    ensures r.Success? && r.value.Some? ==> r.value.value < |book|
    ensures Named(sheetName) && r.Success? && r.value.Some? ==>
      Matches(book, r.value.value, sheetName.value)
      && forall j :: 0 <= j < r.value.value ==> !Matches(book, j, sheetName.value)
    ensures r.Success? && r.value.None? <==>
      Named(sheetName) && forall j :: 0 <= j < |book| ==> !Matches(book, j, sheetName.value)
  {
    if !Named(sheetName) then
      if |book| == 0 then Failure(NoWorksheetAtIndex(0)) else Success(Some(0))
    else Success(FindSheetByName(book, sheetName.value))
  }

  /** Requests that differ only in letter case select the same sheet. */
  lemma {:induction false} FindSheetIgnoresCase(book: Book, a: string, b: string)
    requires EqualsIgnoreCase(a, b)
    ensures FindSheetByName(book, a) == FindSheetByName(book, b)
    decreases |book|
  {
    if book != [] {
      EqualsIgnoreCaseIsEquivalence(a, b, book[0].name);
      EqualsIgnoreCaseIsEquivalence(b, a, book[0].name);
      FindSheetIgnoresCase(book[1..], a, b);
    }
  }

  /** Asking for "data" in a workbook with sheets "Data" and "Summary" selects "Data". */
  lemma SelectDataIgnoringCase(data: Sheet, summary: Sheet)
    ensures PickSelectedSheet([Worksheet("Data", data), Worksheet("Summary", summary)], Some("data"))
            == Success(Some(0))
  {
    var book := [Worksheet("Data", data), Worksheet("Summary", summary)];
    assert !IsWhitespace("data"[0]);
    assert CharEqualsIgnoreCase('d', 'D');
    assert EqualsIgnoreCase("data", book[0].name);
  }
}
