# docx-generator, modelled in Dafny

docx-generator is a command-line tool. It reads a spreadsheet and produces one
Word document per data row by stamping a `.docx` template with that row.

How rows are read:
- Row 0 of the selected worksheet is the header. Each header cell's column
  letters ("C" for "C1") are mapped to the cell's text.
- Every later row becomes a `Row`: a map from header name to cell text.

How rows are written:
- A row is skipped when it has no columns, or when its entity column is
  missing or blank.
- For any other row, the output directory is created and the output path is
  `outputDir/<entity value>.docx`.
- With `--replace`, an existing output file is deleted first. Without it, an
  existing output file makes the row be skipped.
- The template is then stamped into the output, which is opened with
  CREATE_NEW.
- With `--first-row-only`, the walk stops after the first document written.

Besides these, the tool turns the `-v` flags into logger levels.

The model has these modules, one per file:

- `Wrappers` (wrappers.dfy): `Option` and `Result`.
- `Text` (text.dfy): `Character.isAlphabetic`, `Character.isWhitespace`,
  `String.isBlank` and `String.equalsIgnoreCase`.
- `Collections` (collections.dfy): `java.util.HashMap<String,String>` as a
  mutable class. Its keys are `Option<string>`, because the source can put a
  `null` key.
- `Rows` (row.dfy): the `Row` class. It owns a `HashMap` object that
  `getColumns`/`getColumn` hand out by reference and `setColumns` replaces by
  a copy.
- `Workbook` (workbook.dfy): a workbook as a list of named worksheets of
  cells, plus sheet selection (`pickSelectedSheet`, `findsheetByName`).
- `SheetReader` (sheet_reader.dfy):
  - `extractColumnName` as a loop;
  - the header map and row construction as functions (`ColumnNames`,
    `BuildRow`, `SheetRows`, `LoadRows`);
  - `readRowsFromDataFile` as a method proved against `LoadRows`.
- `FileSystem` (file_system.dfy):
  - the disk as a class with files and directories;
  - `Path.resolve`;
  - the `Files` operations the tool uses: `createDirectories`,
    `deleteIfExists`, `exists`, reading, and `newOutputStream` with
    CREATE_NEW.
- `Logging` (logging.dfy): `updateLogging` as a loop plus thresholds, proved
  against the level table `LevelsFor`.
- `Generator` (generator.dfy):
  - the loop of `call()` as the pure functions `Decide` (the checks for one
    row), `Step` (one row's effect) and `RunFrom`/`RunAll` (the whole loop);
  - the same loop as methods (`GenerateDocForRow`, `ProcessRow`,
    `GenerateAll`, `Call`), proved to agree with those functions;
  - lemmas on what a run does and does not do to the file system.

Errors that end the run with an exception are modelled as the `Failure` side
of a `Result`:
- `NoWorksheetAtIndex`: no sheet name was given and the workbook has no
  worksheet.
- `SheetNotFound`: a sheet was named but none matches. The source goes on with
  `null` and fails with a `NullPointerException`.
- `MissingHeaderRow`: the selected sheet has no rows, which is an index error
  in the source.
- `NoSuchFile`: the template does not exist.
- `FileAlreadyExists`: the output exists at the time of the CREATE_NEW open.

## Model

| member | source | states |
|---|---|---|
| Text.CharEqualsIgnoreCaseIff | src/main/java/com/controplex/docxgenerator/DocxGenerator.java:215 | two characters match ignoring case exactly when their upper-case forms are equal |
| Text.EqualsIgnoreCaseIsEquivalence | src/main/java/com/controplex/docxgenerator/DocxGenerator.java:215 | the sheet-name comparison is reflexive, symmetric and transitive |
| Collections.Lookup | src/main/java/com/controplex/docxgenerator/Row.java:28-30 | `get` yields a value exactly when the key is present, and that value is the one stored |
| Collections.HashMap.Get | src/main/java/com/controplex/docxgenerator/Row.java:28-30 | `get` returns the stored value when the key is present, and null otherwise |
| Collections.HashMap.Put | src/main/java/com/controplex/docxgenerator/Row.java:32-34 | after `put`, the key maps to the new value and every other key is unchanged; the size grows by one only for a new key |
| Collections.HashMap.IsEmpty | src/main/java/com/controplex/docxgenerator/Row.java:36-38 | `isEmpty` holds exactly when no entry is present |
| Collections.HashMap.Copy | src/main/java/com/controplex/docxgenerator/Row.java:17-19 | the copy constructor holds the argument's current entries |
| Rows.Row.constructor | src/main/java/com/controplex/docxgenerator/Row.java:8 | a new row owns a fresh, empty map |
| Rows.Row.GetColumns | src/main/java/com/controplex/docxgenerator/Row.java:10-12 | returns the row's own map object, not a copy |
| Rows.Row.GetColumn | src/main/java/com/controplex/docxgenerator/Row.java:14-16 | returns the same map object as getColumns |
| Rows.Row.SetColumns | src/main/java/com/controplex/docxgenerator/Row.java:17-19 | the row holds a fresh copy whose contents equal the argument's at the time of the call |
| Rows.Row.Column | src/main/java/com/controplex/docxgenerator/Row.java:28-30 | the value under the key, or null when the key is absent |
| Rows.Row.SetColumn | src/main/java/com/controplex/docxgenerator/Row.java:32-34 | sets one column; all other columns are unchanged; the column count grows only for a new name |
| Rows.Row.IsBlank | src/main/java/com/controplex/docxgenerator/Row.java:36-38 | true exactly when the row has no column |
| Rows.NewRowIsBlank | src/main/java/com/controplex/docxgenerator/Row.java:8-38 | a new row is blank; after one setColumn it is no longer blank and returns the value set |
| Rows.OverwriteKeepsSize | src/main/java/com/controplex/docxgenerator/Row.java:28-34 | a second setColumn on a name wins, does not add a column, and leaves other names alone |
| Rows.SetColumnsCopies | src/main/java/com/controplex/docxgenerator/Row.java:17-19 | a put into the argument after setColumns is not seen by the row |
| Rows.GetColumnsIsLive | src/main/java/com/controplex/docxgenerator/Row.java:10-12 | a put through the map from getColumns is seen by column and isBlank |
| Workbook.FindSheetByName | src/main/java/com/controplex/docxgenerator/DocxGenerator.java:212-221 | the index of the first sheet whose name equals the request ignoring case; null exactly when no sheet matches |
| Workbook.PickSelectedSheet | src/main/java/com/controplex/docxgenerator/DocxGenerator.java:204-210 | with no name or a blank one: sheet 0, or a failure exactly when the workbook is empty; with a name: the first case-insensitive match, or none exactly when no sheet matches |
| Workbook.FindSheetIgnoresCase | src/main/java/com/controplex/docxgenerator/DocxGenerator.java:215 | requests that differ only in letter case select the same sheet |
| Workbook.SelectDataIgnoringCase | src/main/java/com/controplex/docxgenerator/DocxGenerator.java:204-221 | requesting "data" from sheets "Data" and "Summary" selects "Data" |
| SheetReader.ColumnKey | src/main/java/com/controplex/docxgenerator/DocxGenerator.java:187-194 | the result is a prefix of the reference, made only of letters, and followed by a non-letter or the end |
| SheetReader.ColumnKeyIsLongestAlphabeticPrefix | src/main/java/com/controplex/docxgenerator/DocxGenerator.java:187-194 | the longest alphabetic prefix is unique: any prefix with those properties is the column key |
| SheetReader.ColumnKeyExamples | src/main/java/com/controplex/docxgenerator/DocxGenerator.java:187-194 | "C7" gives "C", "AB12" gives "AB", "7C" gives "" |
| SheetReader.ExtractColumnName | src/main/java/com/controplex/docxgenerator/DocxGenerator.java:187-194 | the append-until-non-letter loop computes the column key |
| SheetReader.PutAllKeys | src/main/java/com/controplex/docxgenerator/DocxGenerator.java:171 | after a series of puts, the keys present are exactly the keys put |
| SheetReader.PutAllLastWins | src/main/java/com/controplex/docxgenerator/DocxGenerator.java:171 | each key holds the value of the last put for it |
| SheetReader.HeaderMapping | src/main/java/com/controplex/docxgenerator/DocxGenerator.java:168-171 | the header map has exactly the header cells' column keys; a key maps to the text of the last header cell with that key |
| SheetReader.RowColumns | src/main/java/com/controplex/docxgenerator/DocxGenerator.java:175-177 | a row has exactly the header names of its cells' columns, and null for a column without a header |
| SheetReader.RowValues | src/main/java/com/controplex/docxgenerator/DocxGenerator.java:175-177 | each name holds the text of the row's last cell with that name |
| SheetReader.EmptySourceRowIsBlank | src/main/java/com/controplex/docxgenerator/DocxGenerator.java:176-178 | a data row without cells gives a blank Row |
| SheetReader.HeaderResolutionExample | src/main/java/com/controplex/docxgenerator/DocxGenerator.java:168-179 | header Id/Name/Email with data A2=42, B2=Ann gives the single row {Id: 42, Name: Ann} |
| SheetReader.RowContents | src/main/java/com/controplex/docxgenerator/DocxGenerator.java:159 | the contents of a list of rows, position by position |
| SheetReader.ReadRow | src/main/java/com/controplex/docxgenerator/DocxGenerator.java:175-178 | a fresh Row whose contents are the map built from the data row's cells |
| SheetReader.ReadRowsFromDataFile | src/main/java/com/controplex/docxgenerator/DocxGenerator.java:158-185 | fails exactly when and as LoadRows does (no worksheet, sheet not found, no header row); otherwise returns fresh rows whose contents are LoadRows' rows |
| FileSystem.OutputPath | src/main/java/com/controplex/docxgenerator/DocxGenerator.java:87 | for a relative name and a non-root directory, the path is dir + "/" + name + ".docx" |
| FileSystem.OutputPathInjective | src/main/java/com/controplex/docxgenerator/DocxGenerator.java:87 | two relative names give the same output path only when they are equal; this holds for the program only for names without redundant separators or `.`/`..` segments, which Path would normalise |
| FileSystem.AbsoluteNameEscapes | src/main/java/com/controplex/docxgenerator/DocxGenerator.java:87 | an absolute entity value resolves outside the output directory, to name + ".docx" |
| FileSystem.Ancestry | src/main/java/com/controplex/docxgenerator/DocxGenerator.java:138 | the directories createDirectories ensures: the directory itself, and every prefix of it that ends just before a separator |
| FileSystem.AncestryOfAncestor | src/main/java/com/controplex/docxgenerator/DocxGenerator.java:138 | creating an ancestor of the directory adds nothing that creating the directory itself does not |
| FileSystem.FileSystem.CreateDirectories | src/main/java/com/controplex/docxgenerator/DocxGenerator.java:136-142 | the directory and all its ancestors exist afterwards; files are unchanged |
| FileSystem.FileSystem.DeleteIfExists | src/main/java/com/controplex/docxgenerator/DocxGenerator.java:196-202 | no file at the path afterwards; no error when it was missing; nothing else changes |
| FileSystem.FileSystem.Exists | src/main/java/com/controplex/docxgenerator/DocxGenerator.java:91 | true exactly when a file is at the path |
| FileSystem.FileSystem.ReadAll | src/main/java/com/controplex/docxgenerator/DocxGenerator.java:146 | the template's contents, or NoSuchFile |
| FileSystem.FileSystem.CreateNew | src/main/java/com/controplex/docxgenerator/DocxGenerator.java:147 | writes a new file; fails with FileAlreadyExists, changing nothing, when the path is taken |
| Logging.LevelsMonotonic | src/main/java/com/controplex/docxgenerator/DocxGenerator.java:120-132 | a higher counter never makes any of the three loggers quieter |
| Logging.VerbosityBounds | src/main/java/com/controplex/docxgenerator/DocxGenerator.java:114-118 | the counter lies between minus and plus the number of flags; true and false flags together are all the flags |
| Logging.UpdateLogging | src/main/java/com/controplex/docxgenerator/DocxGenerator.java:108-134 | the counter loop followed by the overriding thresholds gives the level table's entry for (true flags minus false flags) |
| Logging.ThreeFlags | src/main/java/com/controplex/docxgenerator/DocxGenerator.java:108-134 | three -v flags: generator at DEBUG, docx4j at INFO, xlsx4j at ERROR |
| Generator.Decide | src/main/java/com/controplex/docxgenerator/DocxGenerator.java:77-95 | a row is skipped as blank iff it has no column; as unnamed iff its entity column is absent or blank; as existing iff replace is off and its target exists; otherwise it is generated at its target |
| Generator.Step | src/main/java/com/controplex/docxgenerator/DocxGenerator.java:77-97 | a skipped unnamed row changes nothing; an eligible row creates the output directory with its ancestors and touches no path but its target; a row is written iff it passes the checks, the template exists, and the template is not its own target under replace; a written target holds the template stamped with the row; an abort is NoSuchFile on the template and leaves the files as they were, except that with replace on the target is already deleted |
| Generator.NoEligibleRowNoEffect | src/main/java/com/controplex/docxgenerator/DocxGenerator.java:76-85 | with no eligible row, the run changes no file or directory and writes nothing |
| Generator.UntargetedFilesUntouched | src/main/java/com/controplex/docxgenerator/DocxGenerator.java:76-98 | a file that no eligible row targets is unchanged; the only directories created are the output directory and its ancestors, and all of them exist once any row is eligible |
| Generator.ExistingFilesKept | src/main/java/com/controplex/docxgenerator/DocxGenerator.java:88-95 | with replace off, every pre-existing file keeps its contents |
| Generator.GeneratedExtends | src/main/java/com/controplex/docxgenerator/DocxGenerator.java:76-98 | the list of written rows only grows |
| Generator.GeneratedRows | src/main/java/com/controplex/docxgenerator/DocxGenerator.java:76-96 | every written row is eligible; with replace off its target did not exist before the run |
| Generator.FirstRowOnly | src/main/java/com/controplex/docxgenerator/DocxGenerator.java:97 | first-row-only writes at most one document, for the first row that passes the checks; if nothing is written and no error occurs, no row passes |
| Generator.EligibleRowsCovered | src/main/java/com/controplex/docxgenerator/DocxGenerator.java:76-98 | a run that completes without error leaves a file at every eligible row's target and removes no file |
| Generator.ReplaceLastRowWins | src/main/java/com/controplex/docxgenerator/DocxGenerator.java:88-89 | with replace on, a target ends up stamped from the last eligible row that names it |
| Generator.NoReplaceFirstRowWins | src/main/java/com/controplex/docxgenerator/DocxGenerator.java:90-94 | with replace off, a target absent at the start ends up stamped from the first eligible row that names it |
| Generator.AllPresentIsNoOp | src/main/java/com/controplex/docxgenerator/DocxGenerator.java:90-94 | with replace off, when every eligible row's file, the output directory and its ancestors exist, the run only skips |
| Generator.SecondRunIsNoOp | src/main/java/com/controplex/docxgenerator/DocxGenerator.java:76-98 | with replace off and without first-row-only, repeating a completed run changes nothing and writes nothing |
| Generator.GenerateDocForRow | src/main/java/com/controplex/docxgenerator/DocxGenerator.java:144-156 | a missing template gives NoSuchFile; an existing output gives FileAlreadyExists; in both cases nothing changes; otherwise the output holds the template stamped with the row |
| Generator.ProcessRow | src/main/java/com/controplex/docxgenerator/DocxGenerator.java:77-96 | the loop body on one row has the effect and outcome that Step gives |
| Generator.GenerateAll | src/main/java/com/controplex/docxgenerator/DocxGenerator.java:76-99 | the loop leaves the disk RunAll gives; it returns 0, or the error that aborted it |
| Generator.Call | src/main/java/com/controplex/docxgenerator/DocxGenerator.java:67-100 | the logger levels are the level table's entry for the -v flags; a load failure changes nothing and is returned; otherwise the result and the new disk are those of RunAll on the loaded rows |

## Left out

- Text.IsAlphabetic: only ASCII letters, whereas `Character.isAlphabetic` accepts every Unicode letter. Cell references contain only ASCII letters.
- Text.ToUpper, Text.ToLower: case mapping covers only ASCII, so `equalsIgnoreCase` on sheet names with non-ASCII letters is modelled as exact comparison for those letters.
- Cell text is given as a string on each cell. What `DataFormatter.formatCellValue` does with numbers, dates and shared strings is not part of this model.
- Loading the spreadsheet package (docx4j/xlsx4j parsing, shared strings, relationship parts) is not modelled. A workbook is a list of named worksheets of cells.
- Cells without a reference (`getR()` returning null, which throws in the source) are not modelled. Every cell has a reference string.
- The document stamper is a foreign library. Its output is the symbolic `Stamped(template, row)`, and its failures, other than opening the files, are not modelled.
- Partial writes are not modelled: an output opened with CREATE_NEW and then abandoned by a stamper failure is out of scope.
- Input/output exceptions other than a missing template and an existing output are not modelled. This covers permissions, a full disk, and `createDirectories` failing because a file is at the output-directory path.
- Directories and files share no namespace in the model, so a directory at an output path is not modelled.
- Paths are POSIX strings taken as already normalised. Windows paths, `..` and redundant separators are not modelled.
- FileSystem.OutputPathInjective: holds about the model's `Resolve`, which does not normalise. For the program it holds only for entity values without `//`, `.` or `..` segments; for example, `a//b` and `a/b` name the same file.
- The command-line parsing (picocli), `main`, `configureDocx4j` and the log messages are not modelled.
- Logging.UpdateLogging: returns the three levels rather than setting them on a logback context. The `instanceof` check for a logback logger is not modelled.
- `Row.toString` is only used in log messages and is not modelled.
- Generator.SecondRunIsNoOp: idempotence is stated only with replace off and without first-row-only. With replace on, every document is regenerated.
