/**
 * DocxGenerator.call: reads the rows of the data file, then walks them in
 * order. A blank row, or one whose entity column is missing or blank, is
 * skipped. Otherwise the output directory is created and the output path is
 * outputDir/(name + ".docx"); with replace on an existing file there is
 * deleted, with replace off an existing file makes the row be skipped. The
 * document is then stamped from the template with the row as context, and
 * in first-row-only mode the walk stops after that first document.
 */
module Generator {
  import opened Wrappers
  import opened Text
  import opened Collections
  import opened Rows
  import opened Workbook
  import opened SheetReader
  import opened FileSystem
  import opened Logging

  /** The command-line options the run depends on. */
  datatype Options = Options(
    template: Path,
    replace: bool,
    firstRowOnly: bool,
    sheetName: Option<string>,
    entityColumn: string,
    outputDir: Path,
    verbose: seq<bool>)

  /** What the loop does with one row. */
  datatype Decision =
    | SkipBlank                 // the row has no column at all
    | SkipUnnamed               // the entity column is absent or blank
    | SkipExisting(path: Path)  // replace is off and the output file exists
    | Generate(path: Path)      // the document is (re)generated at path

  /** The row names an output file: its entity column holds a non-blank value. */
  predicate Eligible(row: RowMap, o: Options) {
    Some(o.entityColumn) in row && !IsBlank(row[Some(o.entityColumn)])
  }

  /** The output path of an eligible row. */
  function Target(row: RowMap, o: Options): Path
    requires Eligible(row, o)
  {
    OutputPath(o.outputDir, row[Some(o.entityColumn)])
  }

  /** The checks of the loop body, in the order the source makes them. */
  function Decide(row: RowMap, o: Options, existing: set<Path>): (d: Decision)
    ensures d.SkipBlank? <==> |row| == 0
    ensures d.SkipUnnamed? <==> |row| != 0 && !Eligible(row, o)
    ensures d.SkipExisting? <==> Eligible(row, o) && !o.replace && Target(row, o) in existing
    ensures d.Generate? <==> Eligible(row, o) && (o.replace || Target(row, o) !in existing)
    ensures (d.SkipExisting? || d.Generate?) ==> d.path == Target(row, o)
  {
    if |row| == 0 then SkipBlank
    else match Lookup(row, Some(o.entityColumn))
      case None => SkipUnnamed
      case Some(name) =>
        if IsBlank(name) then SkipUnnamed
        else
          var output := OutputPath(o.outputDir, name);
          if !o.replace && output in existing then SkipExisting(output) else Generate(output)
  }

  /** How the loop body ended for one row. */
  datatype Outcome = Skipped | Written | Aborted(error: IoError)

  /** The disk after one row, and how the row ended. */
  datatype StepResult = StepResult(disk: Disk, outcome: Outcome)

  /**
   * The loop body on one row: the checks, the directory creation, the delete
   * (replace on) or the existence check (replace off), the template read
   * and the CREATE_NEW write of the stamped document.
   */
  function Step(row: RowMap, o: Options, d: Disk): (s: StepResult)
    ensures !Eligible(row, o) ==> s == StepResult(d, Skipped)
    ensures Eligible(row, o) ==> s.disk.dirs == d.dirs + Ancestry(o.outputDir)
    ensures Eligible(row, o) ==> forall p :: p != Target(row, o) ==>
      (p in s.disk.files <==> p in d.files) && (p in d.files ==> s.disk.files[p] == d.files[p])
    ensures s.outcome.Skipped? <==> !Decide(row, o, d.files.Keys).Generate?
    ensures Eligible(row, o) && s.outcome.Skipped? ==> s.disk.files == d.files
    ensures s.outcome.Written? ==>
      o.template in d.files && Target(row, o) in s.disk.files
      && s.disk.files[Target(row, o)] == Stamped(d.files[o.template], row)
    ensures s.outcome.Written? <==>
      Decide(row, o, d.files.Keys).Generate? && o.template in d.files
      && !(o.replace && o.template == Target(row, o))
    ensures s.outcome.Aborted? ==> s.outcome.error == NoSuchFile(o.template)
    ensures s.outcome.Aborted? ==>
      Eligible(row, o) && s.disk.files == if o.replace then d.files - {Target(row, o)} else d.files
  {
    match Decide(row, o, d.files.Keys)
    case SkipBlank => StepResult(d, Skipped)
    case SkipUnnamed => StepResult(d, Skipped)
    case SkipExisting(_) => StepResult(d.(dirs := d.dirs + Ancestry(o.outputDir)), Skipped)
    case Generate(output) =>
      var cleared := Disk(if o.replace then d.files - {output} else d.files, d.dirs + Ancestry(o.outputDir));
      if o.template !in cleared.files then
        StepResult(cleared, Aborted(NoSuchFile(o.template)))
      else if output in cleared.files then
        StepResult(cleared, Aborted(FileAlreadyExists(output)))
      else
        StepResult(cleared.(files := cleared.files[output := Stamped(cleared.files[o.template], row)]), Written)
  }

  /** The state a run ends in, the indices of the rows it stamped, and the error that stopped it. */
  datatype Run = Run(disk: Disk, generated: seq<nat>, error: Option<IoError>)

  /**
   * The loop from row i on, starting from disk d, having stamped the rows in
   * gen so far; first-row-only mode leaves the loop after the first write.
   */
  function RunFrom(rows: seq<RowMap>, i: nat, o: Options, d: Disk, gen: seq<nat>): Run
    requires i <= |rows|
    decreases |rows| - i
  {
    if i == |rows| then Run(d, gen, None)
    else
      var s := Step(rows[i], o, d);
      match s.outcome
      case Skipped => RunFrom(rows, i + 1, o, s.disk, gen)
      case Aborted(e) => Run(s.disk, gen, Some(e))
      case Written =>
        if o.firstRowOnly then Run(s.disk, gen + [i], None)
        else RunFrom(rows, i + 1, o, s.disk, gen + [i])
  }

  /** The whole loop over the rows. */
  function RunAll(rows: seq<RowMap>, o: Options, d: Disk): Run {
    RunFrom(rows, 0, o, d, [])
  }

  // ---------------------------------------------------------------------
  // Properties of a run

  /** Some row in [lo, hi) is eligible and targets p. */
  ghost predicate Targeted(rows: seq<RowMap>, lo: nat, hi: nat, o: Options, p: Path) {
    exists j :: lo <= j < hi && j < |rows| && Eligible(rows[j], o) && Target(rows[j], o) == p
  }

  /** Some row from i on is eligible. */
  ghost predicate AnyEligible(rows: seq<RowMap>, i: nat, o: Options) {
    exists j :: i <= j < |rows| && Eligible(rows[j], o)
  }

  /** The decision on row j, against the given existing files, is to stamp it. */
  predicate Passes(rows: seq<RowMap>, j: nat, o: Options, existing: set<Path>)
    requires j < |rows|
  {
    Decide(rows[j], o, existing).Generate?
  }

  /**
   * Rows that are blank or have a blank entity column produce nothing: when
   * no row is eligible the run stamps nothing, creates no directory and
   * changes no file.
   */
  lemma {:induction false} NoEligibleRowNoEffect(rows: seq<RowMap>, i: nat, o: Options, d: Disk, gen: seq<nat>)
    requires i <= |rows|
    requires !AnyEligible(rows, i, o)
    ensures RunFrom(rows, i, o, d, gen) == Run(d, gen, None)
    decreases |rows| - i
  {
    if i < |rows| {
      assert !Eligible(rows[i], o);
      NoEligibleRowNoEffect(rows, i + 1, o, d, gen);
    }
  }

  /**
   * A file that no eligible row targets is left exactly as it was, whatever
   * the options and however the run ends; the only directories the run may
   * create are the output directory and its ancestors, and it does create
   * them once some row is eligible.
   */
  lemma {:induction false} UntargetedFilesUntouched(rows: seq<RowMap>, i: nat, o: Options, d: Disk, gen: seq<nat>)
    requires i <= |rows|
    ensures var r := RunFrom(rows, i, o, d, gen);
      forall p :: !Targeted(rows, i, |rows|, o, p) ==>
        (p in r.disk.files <==> p in d.files) && (p in d.files ==> r.disk.files[p] == d.files[p])
    ensures d.dirs <= RunFrom(rows, i, o, d, gen).disk.dirs <= d.dirs + Ancestry(o.outputDir)
    ensures AnyEligible(rows, i, o) ==> Ancestry(o.outputDir) <= RunFrom(rows, i, o, d, gen).disk.dirs
    decreases |rows| - i
  {
    if i < |rows| {
      var s := Step(rows[i], o, d);
      assert forall p :: Targeted(rows, i + 1, |rows|, o, p) ==> Targeted(rows, i, |rows|, o, p);
      assert Eligible(rows[i], o) ==> Targeted(rows, i, |rows|, o, Target(rows[i], o));
      match s.outcome
      case Skipped =>
        UntargetedFilesUntouched(rows, i + 1, o, s.disk, gen);
        assert AnyEligible(rows, i, o) && !Eligible(rows[i], o) ==> AnyEligible(rows, i + 1, o);
      case Written =>
        if !o.firstRowOnly {
          UntargetedFilesUntouched(rows, i + 1, o, s.disk, gen + [i]);
        }
      case Aborted(_) =>
    }
  }

  /** With replace off, every file that existed before the run keeps its contents. */
  lemma {:induction false} ExistingFilesKept(rows: seq<RowMap>, i: nat, o: Options, d: Disk, gen: seq<nat>)
    requires i <= |rows|
    requires !o.replace
    ensures var r := RunFrom(rows, i, o, d, gen);
      forall p :: p in d.files ==> p in r.disk.files && r.disk.files[p] == d.files[p]
    decreases |rows| - i
  {
    if i < |rows| {
      var s := Step(rows[i], o, d);
      match s.outcome
      case Skipped => ExistingFilesKept(rows, i + 1, o, s.disk, gen);
      case Written =>
        if !o.firstRowOnly {
          ExistingFilesKept(rows, i + 1, o, s.disk, gen + [i]);
        }
      case Aborted(_) =>
    }
  }

  /** A run only appends to the list of stamped rows it was given. */
  lemma {:induction false} GeneratedExtends(rows: seq<RowMap>, i: nat, o: Options, d: Disk, gen: seq<nat>)
    requires i <= |rows|
    ensures var r := RunFrom(rows, i, o, d, gen);
      |gen| <= |r.generated| && r.generated[..|gen|] == gen
    decreases |rows| - i
  {
    if i < |rows| {
      var s := Step(rows[i], o, d);
      match s.outcome
      case Skipped => GeneratedExtends(rows, i + 1, o, s.disk, gen);
      case Written =>
        if !o.firstRowOnly {
          GeneratedExtends(rows, i + 1, o, s.disk, gen + [i]);
          var r := RunFrom(rows, i + 1, o, s.disk, gen + [i]);
          assert r.generated[..|gen|] == r.generated[..|gen| + 1][..|gen|];
        }
      case Aborted(_) =>
    }
  }

  /**
   * Every row a run stamps is eligible and lies at or after the start; with
   * replace off, none of them targets a file that existed when the run
   * started, so the stamper is never called for an existing file.
   */
  lemma {:induction false} GeneratedRows(rows: seq<RowMap>, i: nat, o: Options, d: Disk, gen: seq<nat>)
    requires i <= |rows|
    ensures var r := RunFrom(rows, i, o, d, gen);
      forall k :: k in r.generated && k !in gen ==>
        i <= k < |rows| && Eligible(rows[k], o) && (!o.replace ==> Target(rows[k], o) !in d.files)
    decreases |rows| - i
  {
    if i < |rows| {
      var s := Step(rows[i], o, d);
      match s.outcome
      case Skipped => GeneratedRows(rows, i + 1, o, s.disk, gen);
      case Written =>
        if !o.firstRowOnly {
          GeneratedRows(rows, i + 1, o, s.disk, gen + [i]);
        }
      case Aborted(_) =>
    }
  }

  /**
   * First-row-only mode stamps at most one document, for the first row that
   * passes every check against the files present at the start; skipped rows
   * do not count. If it stamps nothing and ends normally, no row passed.
   */
  lemma {:induction false} FirstRowOnly(rows: seq<RowMap>, i: nat, o: Options, d: Disk)
    requires i <= |rows|
    requires o.firstRowOnly
    ensures var r := RunFrom(rows, i, o, d, []);
      |r.generated| <= 1
      && (r.generated != [] ==>
            var k := r.generated[0];
            i <= k < |rows| && Passes(rows, k, o, d.files.Keys)
            && forall j :: i <= j < k ==> !Passes(rows, j, o, d.files.Keys))
      && (r.generated == [] && r.error.None? ==>
            forall j :: i <= j < |rows| ==> !Passes(rows, j, o, d.files.Keys))
    decreases |rows| - i
  {
    if i < |rows| {
      var s := Step(rows[i], o, d);
      match s.outcome
      case Skipped =>
        assert !Passes(rows, i, o, d.files.Keys);
        assert s.disk.files == d.files;
        FirstRowOnly(rows, i + 1, o, s.disk);
      case Written =>
        assert RunFrom(rows, i, o, d, []).generated == [i];
      case Aborted(_) =>
        assert RunFrom(rows, i, o, d, []) == Run(s.disk, [], Some(s.outcome.error));
    }
  }

  /**
   * Unless the run stops early or fails, every eligible row's output file
   * exists at the end, and no file that existed before disappears.
   */
  lemma {:induction false} EligibleRowsCovered(rows: seq<RowMap>, i: nat, o: Options, d: Disk, gen: seq<nat>)
    requires i <= |rows|
    requires !o.firstRowOnly
    ensures var r := RunFrom(rows, i, o, d, gen);
      r.error.None? ==>
        (forall p :: p in d.files ==> p in r.disk.files)
        && forall j :: i <= j < |rows| && Eligible(rows[j], o) ==> Target(rows[j], o) in r.disk.files
    decreases |rows| - i
  {
    if i < |rows| {
      var s := Step(rows[i], o, d);
      match s.outcome
      case Skipped => EligibleRowsCovered(rows, i + 1, o, s.disk, gen);
      case Written => EligibleRowsCovered(rows, i + 1, o, s.disk, gen + [i]);
      case Aborted(_) =>
    }
  }

  /**
   * With replace on, the file of every eligible row that no later row
   * targets ends up stamped from that row: the last row with a given name wins.
   */
  lemma {:induction false} ReplaceLastRowWins(rows: seq<RowMap>, i: nat, o: Options, d: Disk, gen: seq<nat>)
    requires i <= |rows|
    requires o.replace && !o.firstRowOnly
    ensures var r := RunFrom(rows, i, o, d, gen);
      r.error.None? ==>
        forall j :: i <= j < |rows| && Eligible(rows[j], o) && !Targeted(rows, j + 1, |rows|, o, Target(rows[j], o)) ==>
          Target(rows[j], o) in r.disk.files
          && r.disk.files[Target(rows[j], o)].Stamped?
          && r.disk.files[Target(rows[j], o)].context == rows[j]
    decreases |rows| - i
  {
    if i < |rows| {
      var s := Step(rows[i], o, d);
      match s.outcome
      case Skipped => ReplaceLastRowWins(rows, i + 1, o, s.disk, gen);
      case Written =>
        ReplaceLastRowWins(rows, i + 1, o, s.disk, gen + [i]);
        UntargetedFilesUntouched(rows, i + 1, o, s.disk, gen + [i]);
      case Aborted(_) =>
    }
  }

  /**
   * With replace off, a file absent at the start ends up stamped from the
   * FIRST eligible row that targets it; later rows with the same name are
   * skipped because the file then exists.
   */
  lemma {:induction false} NoReplaceFirstRowWins(rows: seq<RowMap>, i: nat, o: Options, d: Disk, gen: seq<nat>)
    requires i <= |rows|
    requires !o.replace && !o.firstRowOnly
    ensures var r := RunFrom(rows, i, o, d, gen);
      r.error.None? ==>
        forall j :: i <= j < |rows| && Eligible(rows[j], o) && Target(rows[j], o) !in d.files
                    && !Targeted(rows, i, j, o, Target(rows[j], o)) ==>
          Target(rows[j], o) in r.disk.files
          && r.disk.files[Target(rows[j], o)].Stamped?
          && r.disk.files[Target(rows[j], o)].context == rows[j]
    decreases |rows| - i
  {
    if i < |rows| {
      var s := Step(rows[i], o, d);
      forall j | i < j < |rows| && Eligible(rows[j], o) && !Targeted(rows, i, j, o, Target(rows[j], o))
        ensures !Targeted(rows, i + 1, j, o, Target(rows[j], o))
        ensures Eligible(rows[i], o) ==> Target(rows[j], o) != Target(rows[i], o)
      {
        if Eligible(rows[i], o) {
          assert !(Target(rows[i], o) == Target(rows[j], o));
        }
      }
      match s.outcome
      case Skipped => NoReplaceFirstRowWins(rows, i + 1, o, s.disk, gen);
      case Written =>
        NoReplaceFirstRowWins(rows, i + 1, o, s.disk, gen + [i]);
        ExistingFilesKept(rows, i + 1, o, s.disk, gen + [i]);
      case Aborted(_) =>
    }
  }

  /**
   * Idempotence: with replace off and without first-row-only, running again
   * on the state a completed run left behind changes nothing and stamps nothing.
   */
  lemma SecondRunIsNoOp(rows: seq<RowMap>, o: Options, d: Disk)
    requires !o.replace && !o.firstRowOnly
    requires RunAll(rows, o, d).error.None?
    ensures var first := RunAll(rows, o, d).disk;
      RunAll(rows, o, first) == Run(first, [], None)
  {
    var first := RunAll(rows, o, d).disk;
    EligibleRowsCovered(rows, 0, o, d, []);
    UntargetedFilesUntouched(rows, 0, o, d, []);
    AllPresentIsNoOp(rows, 0, o, first, []);
  }

  /** When every eligible row's file already exists and replace is off, the loop only skips. */
  lemma {:induction false} AllPresentIsNoOp(rows: seq<RowMap>, i: nat, o: Options, d: Disk, gen: seq<nat>)
    requires i <= |rows|
    requires !o.replace
    requires forall j :: i <= j < |rows| && Eligible(rows[j], o) ==> Target(rows[j], o) in d.files
    requires AnyEligible(rows, i, o) ==> Ancestry(o.outputDir) <= d.dirs
    ensures RunFrom(rows, i, o, d, gen) == Run(d, gen, None)
    decreases |rows| - i
  {
    if i < |rows| {
      if Eligible(rows[i], o) {
        assert AnyEligible(rows, i, o);
        assert Step(rows[i], o, d).disk == d;
      }
      AllPresentIsNoOp(rows, i + 1, o, d, gen);
    }
  }

  // ---------------------------------------------------------------------
  // The loop as the source runs it

  /**
   * generateDocForRow: opens the template, then the output with CREATE_NEW,
   * and writes the template stamped with the row.
   */
  method GenerateDocForRow(row: Row, template: Path, output: Path, fs: FileSystem) returns (r: Option<IoError>)
    modifies fs
    ensures template !in old(fs.files) ==> r == Some(NoSuchFile(template)) && fs.State() == old(fs.State())
    ensures template in old(fs.files) && output in old(fs.files) ==>
      r == Some(FileAlreadyExists(output)) && fs.State() == old(fs.State())
    ensures template in old(fs.files) && output !in old(fs.files) ==>
      r == None && fs.State() == old(fs.State()).(files := old(fs.files)[output := Stamped(old(fs.files)[template], row.Contents())])
  {
    var t := fs.ReadAll(template);
    if t.Failure? {
      return Some(t.error);
    }
    r := fs.CreateNew(output, Stamped(t.value, row.Contents()));
  }

  /** The body of the for-loop of call, on one row: the new state and outcome are those of Step. */
  method ProcessRow(row: Row, o: Options, fs: FileSystem) returns (outcome: Outcome)
    modifies fs
    ensures var s := Step(row.Contents(), o, old(fs.State()));
      fs.State() == s.disk && outcome == s.outcome
  {
    var blank := row.IsBlank();
    if blank {
      return Skipped;
    }
    var outputName := row.Column(Some(o.entityColumn));
    if outputName.None? || IsBlank(outputName.value) {
      return Skipped;
    }
    fs.CreateDirectories(o.outputDir);
    var output := OutputPath(o.outputDir, outputName.value);
    if o.replace {
      var deleted := fs.DeleteIfExists(output);
    } else {
      var present := fs.Exists(output);
      if present {
        return Skipped;
      }
    }
    var failed := GenerateDocForRow(row, o.template, output, fs);
    if failed.Some? {
      return Aborted(failed.value);
    }
    outcome := Written;
  }

  /**
   * The for-loop of call: the new file-system state is the one RunAll
   * describes, and the result is 0 when the loop completes or stops early,
   * or the error that aborts it.
   */
  method GenerateAll(rows: seq<Row>, o: Options, fs: FileSystem) returns (r: Result<int, IoError>)
    modifies fs
    ensures var run := RunAll(old(RowContents(rows)), o, old(fs.State()));
      fs.State() == run.disk && r == (if run.error.None? then Success(0) else Failure(run.error.value))
  {
    ghost var maps := RowContents(rows);
    ghost var gen: seq<nat> := [];
    var i := 0;
    while i < |rows|
      invariant 0 <= i <= |rows|
      invariant |maps| == |rows|
      invariant forall k :: 0 <= k < |rows| ==> maps[k] == rows[k].Contents()
      invariant RunAll(maps, o, old(fs.State())) == RunFrom(maps, i, o, fs.State(), gen)
    {
      var outcome := ProcessRow(rows[i], o, fs);
      match outcome {
        case Aborted(e) =>
          return Failure(e);
        case Written =>
          gen := gen + [i];
          if o.firstRowOnly {
            break;
          }
        case Skipped =>
      }
      i := i + 1;
    }
    r := Success(0);
  }

  /** Why call() ends with an exception instead of returning. */
  datatype CallError = Load(load: LoadError) | Io(io: IoError)

  /**
   * call(): sets the logger levels from the -v flags, reads the rows of the
   * data file, then generates one document per passing row.
   */
  method Call(book: Book, o: Options, fs: FileSystem) returns (levels: Levels, r: Result<int, CallError>)
    modifies fs
    ensures levels == LevelsFor(Verbosity(o.verbose))
    ensures LoadRows(book, o.sheetName).Failure? ==>
      r == Failure(Load(LoadRows(book, o.sheetName).error)) && fs.State() == old(fs.State())
    ensures LoadRows(book, o.sheetName).Success? ==>
      var run := RunAll(LoadRows(book, o.sheetName).value, o, old(fs.State()));
      fs.State() == run.disk && r == (if run.error.None? then Success(0) else Failure(Io(run.error.value)))
  {
    levels := UpdateLogging(o.verbose);
    var loaded := ReadRowsFromDataFile(book, o.sheetName);
    if loaded.Failure? {
      r := Failure(Load(loaded.error));
      return;
    }
    var status := GenerateAll(loaded.value, o, fs);
    if status.Failure? {
      r := Failure(Io(status.error));
      return;
    }
    r := Success(status.value);
  }
}
