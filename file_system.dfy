/**
 * The file system as the generator touches it: regular files with their
 * contents, and the directories created for output. Paths are POSIX path
 * strings, already normalised (no trailing or doubled separators).
 */
module FileSystem {
  import opened Wrappers
  import opened Rows

  type Path = string

  /**
   * What a file holds: bytes written by someone else, or a document the
   * stamper produced from a template's contents and a row used as context.
   */
  datatype Content =
    | Bytes(data: seq<bv8>)
    | Stamped(template: Content, context: RowMap)

  /** The observable state: file contents by path, and the directories that exist. */
  datatype Disk = Disk(files: map<Path, Content>, dirs: set<Path>)

  /** Why a file operation throws. */
  datatype IoError =
    | NoSuchFile(path: Path)          // opening a missing file for reading
    | FileAlreadyExists(path: Path)   // opening an existing file with CREATE_NEW

  /** The path is absolute. */
  predicate Absolute(p: Path) {
    |p| > 0 && p[0] == '/'
  }

  /**
   * Path.resolve: an absolute argument replaces the base, an empty one
   * leaves it, an empty base gives the argument, and otherwise the two are
   * joined with one separator.
   */
  function Resolve(dir: Path, other: Path): Path {
    if Absolute(other) then other
    else if other == "" then dir
    else if dir == "" then other
    else if dir == "/" then "/" + other
    else dir + "/" + other
  }

  /** outputDir.resolve(name + ".docx"). */
  function OutputPath(dir: Path, name: string): (p: Path)
    ensures !Absolute(name) && dir != "" && dir != "/" ==> p == dir + "/" + name + ".docx"
  {
    Resolve(dir, name + ".docx")
  }

  /**
   * Relative names give distinct output paths: two rows write the same file
   * only when their names are equal.
   */
  lemma OutputPathInjective(dir: Path, a: string, b: string)
    requires !Absolute(a) && !Absolute(b)
    requires OutputPath(dir, a) == OutputPath(dir, b)
    ensures a == b
  {
    var ea, eb := a + ".docx", b + ".docx";
    assert !Absolute(ea) && !Absolute(eb) by {
      if |a| > 0 { assert ea[0] == a[0]; }
      if |b| > 0 { assert eb[0] == b[0]; }
    }
    var prefix := if dir == "" then "" else if dir == "/" then "/" else dir + "/";
    assert OutputPath(dir, a) == prefix + ea;
    assert OutputPath(dir, b) == prefix + eb;
    assert ea == (prefix + ea)[|prefix|..];
    assert eb == (prefix + eb)[|prefix|..];
    assert a == ea[..|ea| - 5];
    assert b == eb[..|eb| - 5];
  }

  /** An absolute name escapes the output directory. */
  lemma AbsoluteNameEscapes(dir: Path, name: string)
    requires Absolute(name)
    ensures OutputPath(dir, name) == name + ".docx"
  {
  }

  /**
   * The directories Files.createDirectories(dir) makes sure of: dir itself
   * and every ancestor of it, that is every prefix of dir that ends just
   * before a separator (the root needs no creating).
   */
  function Ancestry(dir: Path): (r: set<Path>)
    ensures dir in r
    ensures forall p :: p in r ==> p <= dir && (p == dir || dir[|p|] == '/')
    ensures forall k :: 0 < k < |dir| && dir[k] == '/' ==> dir[..k] in r
  {
    {dir} + set k | 0 < k < |dir| && dir[k] == '/' :: dir[..k]
  }

  /** An ancestor of a directory lies inside it: the relation is transitive along the path. */
  lemma {:induction false} AncestryOfAncestor(dir: Path, p: Path)
    requires p in Ancestry(dir)
    ensures Ancestry(p) <= Ancestry(dir)
  {
    forall q | q in Ancestry(p) ensures q in Ancestry(dir) {
      if q != p && q != dir {
        assert q <= p <= dir;
        assert dir[..|q|] == q;
        assert dir[|q|] == p[|q|] == '/';
      }
    }
  }

  class FileSystem {
    var files: map<Path, Content>
    var dirs: set<Path>

    /** The current state as a value. */
    function State(): Disk
      reads this
    {
      Disk(files, dirs)
    }

    constructor (initial: Disk)
      ensures State() == initial
    {
      files, dirs := initial.files, initial.dirs;
    }

    /**
     * Files.createDirectories: the directory and every missing ancestor exist
     * afterwards; doing it again changes nothing.
     */
    method CreateDirectories(dir: Path)
      modifies this
      ensures files == old(files)
      ensures dirs == old(dirs) + Ancestry(dir)
    {
      dirs := dirs + Ancestry(dir);
    }

    /** Files.deleteIfExists: no file at p afterwards; a missing file is not an error. */
    method DeleteIfExists(p: Path) returns (deleted: bool)
      modifies this
      ensures deleted == (p in old(files))
      ensures files == old(files) - {p}
      ensures dirs == old(dirs)
    {
      deleted := p in files;
      files := files - {p};
    }

    /** Files.exists for a file path. */
    method Exists(p: Path) returns (b: bool)
      ensures b == (p in files)
    {
      b := p in files;
    }

    /** Files.newInputStream(p, READ) read to the end: the contents, or NoSuchFile. */
    method ReadAll(p: Path) returns (r: Result<Content, IoError>)
      ensures p in files ==> r == Success(files[p])
      ensures p !in files ==> r == Failure(NoSuchFile(p))
    {
      if p in files {
        r := Success(files[p]);
      } else {
        r := Failure(NoSuchFile(p));
      }
    }

    /** Files.newOutputStream(p, CREATE_NEW) then written: fails when p already exists. */
    method CreateNew(p: Path, c: Content) returns (r: Option<IoError>)
      modifies this
      ensures r == (if p in old(files) then Some(FileAlreadyExists(p)) else None)
      ensures files == if p in old(files) then old(files) else old(files)[p := c]
      ensures dirs == old(dirs)
    {
      if p in files {
        r := Some(FileAlreadyExists(p));
      } else {
        files := files[p := c];
        r := None;
      }
    }
  }
}
