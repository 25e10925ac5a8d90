/**
 * The snapshot of a data directory the tests compare before and after a
 * restore (tests/helpers/ptrack_helpers.py, pgdata_content). The directory
 * walk is an input: the (root, dirs, files) triples os.walk yields, top
 * down, each root a path relative to the data directory. Every file carries
 * its bytes and the further segment files of the same relation, which the
 * page checksums read; md5 and the modes os.stat reports are parameters.
 */
module Snapshot {
  import opened Common
  import opened Pages

  /** A path relative to the data directory, as its components; [] is the directory itself. */
  type Path = seq<string>

  /** os.path.dirname of a relative path. */
  function Parent(p: Path): Path {
    if p == [] then [] else p[..|p| - 1]
  }

  function Last(p: Path): string
    requires p != []
  {
    p[|p| - 1]
  }

  /** A file of a walk step: its name, its bytes, and the segment files "<name>.1", "<name>.2", … by number. */
  datatype FileEntry = FileEntry(name: string, content: Bytes, segments: map<nat, Bytes>)

  /** One triple of os.walk: the directory, the names of its subdirectories, its files. */
  datatype WalkStep = WalkStep(root: Path, dirs: seq<string>, files: seq<FileEntry>)

  /** A file as recorded during the walk, before its mode is read. */
  datatype FileRecord = FileRecord(isDatafile: bool, md5: string, md5PerPage: Option<map<int, string>>)

  /** ContentFile: md5_per_page exists only for data files. */
  datatype ContentFile = ContentFile(isDatafile: bool, md5: string, md5PerPage: Option<map<int, string>>, mode: int)

  /** The snapshot: every file kept, and the directories kept that have no kept subdirectory, with modes. */
  datatype Content = Content(files: map<Path, ContentFile>, dirs: map<Path, int>)

  const DIRS_TO_IGNORE: seq<string> :=
    ["pg_xlog", "pg_wal", "pg_log", "pg_stat_tmp", "pg_subtrans", "pg_notify"]

  const FILES_TO_IGNORE: seq<string> :=
    ["postmaster.pid", "postmaster.opts", "pg_internal.init", "postgresql.auto.conf",
     "backup_label", "tablespace_map", "recovery.conf", "ptrack_control", "ptrack_init",
     "pg_control", "probackup_recovery.conf", "recovery.signal", "standby.signal",
     "ptrack.map", "ptrack.map.mmap", "ptrack.map.tmp"]

  /** str.isdigit over ASCII: a non-empty run of decimal digits. */
  predicate IsDigitName(s: string) {
    |s| > 0 && AllDigits(s)
  }

  predicate EndsWith(s: string, suffix: string) {
    |suffix| <= |s| && s[|s| - |suffix|..] == suffix
  }

  /** Files the snapshot skips: the fixed list, and change maps when asked to. */
  predicate SkipFile(name: string, ignorePtrack: bool) {
    name in FILES_TO_IGNORE || (ignorePtrack && EndsWith(name, "_ptrack"))
  }

  /** dirs[:] = [d for d in dirs if d not in dirs_to_ignore] */
  function Retained(dirs: seq<string>, ignore: seq<string>): (kept: seq<string>)
    ensures forall d :: d in kept <==> d in dirs && d !in ignore
  {
    if dirs == [] then []
    else if dirs[0] in ignore then Retained(dirs[1..], ignore)
    else [dirs[0]] + Retained(dirs[1..], ignore)
  }

  /** The directory names pruned: the fixed list, then the caller's. */
  function IgnoredDirs(excludeDirs: seq<string>): seq<string> {
    DIRS_TO_IGNORE + excludeDirs
  }

  // ---------------------------------------------------------------------
  // The walk, step by step
  // ---------------------------------------------------------------------

  /** The record of one file: a data file also gets the checksum of each of its pages. */
  function FileRecordOf(f: FileEntry, md5: Bytes -> string): Result<FileRecord, ReadError> {
    if IsDigitName(f.name) then
      match PageDigests(f.segments[0 := f.content], (|f.content| as real) / (BLCKSZ as real), md5)
      case Err(e) => Err(e)
      case Ok(pages) => Ok(FileRecord(true, md5(f.content), Some(pages)))
    else Ok(FileRecord(false, md5(f.content), None))
  }

  /** The files dict after the first |fs| files of the step with the given root. */
  function StepFiles(files: map<Path, FileRecord>, root: Path, fs: seq<FileEntry>, ignorePtrack: bool,
                     md5: Bytes -> string): Result<map<Path, FileRecord>, ReadError>
  {
    if fs == [] then Ok(files)
    else
      match StepFiles(files, root, fs[..|fs| - 1], ignorePtrack, md5)
      case Err(e) => Err(e)
      case Ok(before) =>
        var f := fs[|fs| - 1];
        if SkipFile(f.name, ignorePtrack) then Ok(before)
        else match FileRecordOf(f, md5)
          case Err(e) => Err(e)
          case Ok(rec) => Ok(before[root + [f.name] := rec])
  }

  /** The dirs dict after the first |ds| subdirectories of a step: each replaces its parent. */
  function StepDirs(dirs: set<Path>, root: Path, ds: seq<string>): set<Path> {
    if ds == [] then dirs
    else (StepDirs(dirs, root, ds[..|ds| - 1]) - {root}) + {root + [ds[|ds| - 1]]}
  }

  /** The files dict after the first k steps of the walk; the first failing read ends it. */
  function FilesAfter(walk: seq<WalkStep>, k: nat, ignorePtrack: bool, md5: Bytes -> string)
    : Result<map<Path, FileRecord>, ReadError>
    requires k <= |walk|
  {
    if k == 0 then Ok(map[])
    else
      match FilesAfter(walk, k - 1, ignorePtrack, md5)
      case Err(e) => Err(e)
      case Ok(files) => StepFiles(files, walk[k - 1].root, walk[k - 1].files, ignorePtrack, md5)
  }

  /** The directories dict after the first k steps of the walk. */
  function DirsAfter(walk: seq<WalkStep>, k: nat, ignore: seq<string>): set<Path>
    requires k <= |walk|
  {
    if k == 0 then {}
    else StepDirs(DirsAfter(walk, k - 1, ignore), walk[k - 1].root, Retained(walk[k - 1].dirs, ignore))
  }

  /** What pgdata_content returns: the walk's records, each completed with its mode. */
  function PgdataContentSpec(walk: seq<WalkStep>, ignorePtrack: bool, excludeDirs: seq<string>,
                             md5: Bytes -> string, mode: Path -> int): Result<Content, ReadError>
  {
    match FilesAfter(walk, |walk|, ignorePtrack, md5)
    case Err(e) => Err(e)
    case Ok(files) =>
      var dirs := DirsAfter(walk, |walk|, IgnoredDirs(excludeDirs));
      Ok(Content(map p | p in files :: WithMode(files[p], mode(p)), map p | p in dirs :: mode(p)))
  }

  function WithMode(rec: FileRecord, mode: int): ContentFile {
    ContentFile(rec.isDatafile, rec.md5, rec.md5PerPage, mode)
  }

  // ---------------------------------------------------------------------
  // pgdata_content
  // ---------------------------------------------------------------------

  /** pgdata_content over a walk. */
  method PgdataContent(walk: seq<WalkStep>, ignorePtrack: bool, excludeDirs: seq<string>,
                       md5: Bytes -> string, mode: Path -> int) returns (r: Result<Content, ReadError>)
    ensures r == PgdataContentSpec(walk, ignorePtrack, excludeDirs, md5, mode)
  {
    var dirsToIgnore := DIRS_TO_IGNORE;
    if |excludeDirs| > 0 {
      dirsToIgnore := dirsToIgnore + excludeDirs;
    }
    assert dirsToIgnore == IgnoredDirs(excludeDirs);
    var files: map<Path, FileRecord> := map[];
    var dirs: set<Path> := {};
    for i := 0 to |walk|
      invariant FilesAfter(walk, i, ignorePtrack, md5) == Ok(files)
      invariant DirsAfter(walk, i, dirsToIgnore) == dirs
    {
      var step := walk[i];
      var kept := Retained(step.dirs, dirsToIgnore);
      var stepFiles := RecordFiles(files, step.root, step.files, ignorePtrack, md5);
      if stepFiles.Err? {
        assert FilesAfter(walk, |walk|, ignorePtrack, md5) == Err(stepFiles.error) by {
          FilesAfterErrSticks(walk, i + 1, |walk|, ignorePtrack, md5);
        }
        return Err(stepFiles.error);
      }
      files := stepFiles.value;
      dirs := RecordDirs(dirs, step.root, kept);
    }
    // The modes, read once the walk is over.
    return Ok(Content(map p | p in files :: WithMode(files[p], mode(p)), map p | p in dirs :: mode(p)));
  }

  /** Once the walk has failed, it stays failed with the same error. */
  lemma {:induction false} FilesAfterErrSticks(walk: seq<WalkStep>, k: nat, n: nat, ignorePtrack: bool,
                                               md5: Bytes -> string)
    requires k <= n <= |walk|
    requires FilesAfter(walk, k, ignorePtrack, md5).Err?
    ensures FilesAfter(walk, n, ignorePtrack, md5) == FilesAfter(walk, k, ignorePtrack, md5)
    decreases n - k
  {
    if k < n {
      FilesAfterErrSticks(walk, k, n - 1, ignorePtrack, md5);
    }
  }

  /** The loop over the files of one step. */
  method RecordFiles(files: map<Path, FileRecord>, root: Path, fs: seq<FileEntry>, ignorePtrack: bool,
                     md5: Bytes -> string) returns (r: Result<map<Path, FileRecord>, ReadError>)
    ensures r == StepFiles(files, root, fs, ignorePtrack, md5)
  {
    var cur := files;
    for j := 0 to |fs|
      invariant StepFiles(files, root, fs[..j], ignorePtrack, md5) == Ok(cur)
    {
      assert fs[..j + 1][..j] == fs[..j];
      var f := fs[j];
      if SkipFile(f.name, ignorePtrack) {
        continue;
      }
      var rec := RecordFile(f, md5);
      if rec.Err? {
        StepFilesErrSticks(files, root, fs, j + 1, ignorePtrack, md5);
        return Err(rec.error);
      }
      cur := cur[root + [f.name] := rec.value];
    }
    assert fs[..|fs|] == fs;
    return Ok(cur);
  }

  lemma {:induction false} StepFilesErrSticks(files: map<Path, FileRecord>, root: Path, fs: seq<FileEntry>,
                                              k: nat, ignorePtrack: bool, md5: Bytes -> string)
    requires k <= |fs|
    requires StepFiles(files, root, fs[..k], ignorePtrack, md5).Err?
    ensures StepFiles(files, root, fs, ignorePtrack, md5) == StepFiles(files, root, fs[..k], ignorePtrack, md5)
    decreases |fs| - k
  {
    if k < |fs| {
      assert fs[..k + 1][..k] == fs[..k];
      StepFilesErrStep(files, root, fs[..k + 1], ignorePtrack, md5);
      StepFilesErrSticks(files, root, fs, k + 1, ignorePtrack, md5);
    } else {
      assert fs[..k] == fs;
    }
  }

  lemma StepFilesErrStep(files: map<Path, FileRecord>, root: Path, fs: seq<FileEntry>, ignorePtrack: bool,
                         md5: Bytes -> string)
    requires fs != [] && StepFiles(files, root, fs[..|fs| - 1], ignorePtrack, md5).Err?
    ensures StepFiles(files, root, fs, ignorePtrack, md5) == StepFiles(files, root, fs[..|fs| - 1], ignorePtrack, md5)
  {
  }

  /** One file: its checksum, and for a data file the checksums of its pages. */
  method RecordFile(f: FileEntry, md5: Bytes -> string) returns (r: Result<FileRecord, ReadError>)
    ensures r == FileRecordOf(f, md5)
  {
    var isDatafile := IsDigitName(f.name);
    var digest := md5(f.content);
    if isDatafile {
      var sizeInPages := (|f.content| as real) / (BLCKSZ as real);
      var pages := Md5PerPageForFork(f.segments[0 := f.content], sizeInPages, md5);
      if pages.Err? {
        return Err(pages.error);
      }
      return Ok(FileRecord(true, digest, Some(pages.value)));
    }
    return Ok(FileRecord(false, digest, None));
  }

  /** The loop over the kept subdirectories of one step: recording a directory deletes its parent. */
  method RecordDirs(dirs: set<Path>, root: Path, ds: seq<string>) returns (dirs': set<Path>)
    ensures dirs' == StepDirs(dirs, root, ds)
  {
    dirs' := dirs;
    for j := 0 to |ds|
      invariant dirs' == StepDirs(dirs, root, ds[..j])
    {
      assert ds[..j + 1][..j] == ds[..j];
      var path := root + [ds[j]];
      var parent := Parent(path);
      assert parent == root by {
        assert path[..|path| - 1] == root;
      }
      if parent in dirs' {
        dirs' := dirs' - {parent};
      }
      dirs' := dirs' + {path};
    }
    assert ds[..|ds|] == ds;
  }

  // ---------------------------------------------------------------------
  // Which directories end up in the snapshot
  // ---------------------------------------------------------------------

  /** The walk is top down: the step of a directory comes after the step of its parent. */
  ghost predicate TopDown(walk: seq<WalkStep>) {
    forall i, j :: 0 <= i < |walk| && 0 <= j < |walk| && walk[i].root != [] && walk[j].root == Parent(walk[i].root) ==> j < i
  }

  /** p was recorded as a kept subdirectory in one of the first k steps. */
  ghost predicate RecordedDir(walk: seq<WalkStep>, k: nat, ignore: seq<string>, p: Path)
    requires k <= |walk|
  {
    p != [] && exists i :: 0 <= i < k && walk[i].root == Parent(p) && Last(p) in Retained(walk[i].dirs, ignore)
  }

  /** One of the first k steps recorded a subdirectory of p. */
  ghost predicate HasRecordedChild(walk: seq<WalkStep>, k: nat, ignore: seq<string>, p: Path)
    requires k <= |walk|
  {
    exists i :: 0 <= i < k && walk[i].root == p && |Retained(walk[i].dirs, ignore)| > 0
  }

  /** StepDirs closed form: the root goes once a subdirectory is recorded, and the subdirectories come in. */
  lemma {:induction false} StepDirsMembers(dirs: set<Path>, root: Path, ds: seq<string>, p: Path)
    ensures p in StepDirs(dirs, root, ds) <==>
              (p in dirs && !(p == root && |ds| > 0)) || (p != [] && Parent(p) == root && Last(p) in ds)
  {
    if ds != [] {
      var init := ds[..|ds| - 1];
      StepDirsMembers(dirs, root, init, p);
      assert ds == init + [ds[|ds| - 1]];
      if p != [] && Parent(p) == root {
        assert p == root + [Last(p)];
      }
      if p == root + [ds[|ds| - 1]] {
        assert Parent(p) == root && Last(p) == ds[|ds| - 1];
      }
    }
  }

  lemma RecordedDirStep(walk: seq<WalkStep>, k: nat, ignore: seq<string>, p: Path)
    requires 0 < k <= |walk|
    ensures RecordedDir(walk, k, ignore, p) <==>
              RecordedDir(walk, k - 1, ignore, p)
              || (p != [] && walk[k - 1].root == Parent(p) && Last(p) in Retained(walk[k - 1].dirs, ignore))
  {
    if RecordedDir(walk, k, ignore, p) {
      var i :| 0 <= i < k && walk[i].root == Parent(p) && Last(p) in Retained(walk[i].dirs, ignore);
      if i < k - 1 {
        assert RecordedDir(walk, k - 1, ignore, p);
      }
    }
  }

  lemma HasRecordedChildStep(walk: seq<WalkStep>, k: nat, ignore: seq<string>, p: Path)
    requires 0 < k <= |walk|
    ensures HasRecordedChild(walk, k, ignore, p) <==>
              HasRecordedChild(walk, k - 1, ignore, p) || (walk[k - 1].root == p && |Retained(walk[k - 1].dirs, ignore)| > 0)
  {
    if HasRecordedChild(walk, k, ignore, p) {
      var i :| 0 <= i < k && walk[i].root == p && |Retained(walk[i].dirs, ignore)| > 0;
      if i < k - 1 {
        assert HasRecordedChild(walk, k - 1, ignore, p);
      }
    }
  }

  /** In a top-down walk, no step before the one recording p lists p's children. */
  lemma NoChildBeforeParent(walk: seq<WalkStep>, k: nat, ignore: seq<string>, p: Path)
    requires 0 < k <= |walk| && TopDown(walk)
    requires p != [] && walk[k - 1].root == Parent(p)
    ensures !HasRecordedChild(walk, k - 1, ignore, p)
    ensures walk[k - 1].root != p
  {
    assert |walk[k - 1].root| < |p|;
  }

  /**
   * After a top-down walk, the snapshot's directories are exactly the kept
   * directories that have no kept subdirectory: recording a child deletes
   * its parent, and no directory is recorded after its children.
   */
  lemma {:induction false} DirsAreLeaves(walk: seq<WalkStep>, k: nat, ignore: seq<string>, p: Path)
    requires k <= |walk| && TopDown(walk)
    ensures p in DirsAfter(walk, k, ignore) <==>
              RecordedDir(walk, k, ignore, p) && !HasRecordedChild(walk, k, ignore, p)
  {
    if k > 0 {
      DirsAreLeaves(walk, k - 1, ignore, p);
      var step := walk[k - 1];
      var kept := Retained(step.dirs, ignore);
      StepDirsMembers(DirsAfter(walk, k - 1, ignore), step.root, kept, p);
      RecordedDirStep(walk, k, ignore, p);
      HasRecordedChildStep(walk, k, ignore, p);
      if p != [] && Parent(p) == step.root && Last(p) in kept {
        NoChildBeforeParent(walk, k, ignore, p);
      }
    }
  }

  // ---------------------------------------------------------------------
  // Which files end up in the snapshot
  // ---------------------------------------------------------------------

  /** The files of one step, fs under root, record p unless its name is skipped. */
  ghost predicate InStep(root: Path, fs: seq<FileEntry>, ignorePtrack: bool, p: Path) {
    exists j :: 0 <= j < |fs| && !SkipFile(fs[j].name, ignorePtrack) && p == root + [fs[j].name]
  }

  /** One of the first k steps records p. */
  ghost predicate RecordedFile(walk: seq<WalkStep>, k: nat, ignorePtrack: bool, p: Path)
    requires k <= |walk|
  {
    exists i :: 0 <= i < k && InStep(walk[i].root, walk[i].files, ignorePtrack, p)
  }

  lemma InStepLast(root: Path, fs: seq<FileEntry>, ignorePtrack: bool, p: Path)
    requires fs != []
    ensures InStep(root, fs, ignorePtrack, p) <==>
              InStep(root, fs[..|fs| - 1], ignorePtrack, p)
              || (!SkipFile(fs[|fs| - 1].name, ignorePtrack) && p == root + [fs[|fs| - 1].name])
  {
    var init := fs[..|fs| - 1];
    if InStep(root, fs, ignorePtrack, p) {
      InStepSplit(root, fs, ignorePtrack, p);
    }
    if InStep(root, init, ignorePtrack, p) {
      var j :| 0 <= j < |init| && !SkipFile(init[j].name, ignorePtrack) && p == root + [init[j].name];
      assert fs[j] == init[j];
    }
  }

  lemma InStepSplit(root: Path, fs: seq<FileEntry>, ignorePtrack: bool, p: Path)
    requires fs != [] && InStep(root, fs, ignorePtrack, p)
    ensures InStep(root, fs[..|fs| - 1], ignorePtrack, p)
            || (!SkipFile(fs[|fs| - 1].name, ignorePtrack) && p == root + [fs[|fs| - 1].name])
  {
    var j :| 0 <= j < |fs| && !SkipFile(fs[j].name, ignorePtrack) && p == root + [fs[j].name];
    if j < |fs| - 1 {
      assert fs[..|fs| - 1][j] == fs[j];
    }
  }

  lemma {:induction false} StepFilesMembers(files: map<Path, FileRecord>, root: Path, fs: seq<FileEntry>,
                                            ignorePtrack: bool, md5: Bytes -> string, p: Path)
    requires StepFiles(files, root, fs, ignorePtrack, md5).Ok?
    ensures p in StepFiles(files, root, fs, ignorePtrack, md5).value <==>
              p in files || InStep(root, fs, ignorePtrack, p)
  {
    if fs != [] {
      StepFilesMembers(files, root, fs[..|fs| - 1], ignorePtrack, md5, p);
      InStepLast(root, fs, ignorePtrack, p);
    }
  }

  lemma RecordedFileStep(walk: seq<WalkStep>, k: nat, ignorePtrack: bool, p: Path)
    requires 0 < k <= |walk|
    ensures RecordedFile(walk, k, ignorePtrack, p) <==>
              RecordedFile(walk, k - 1, ignorePtrack, p) || InStep(walk[k - 1].root, walk[k - 1].files, ignorePtrack, p)
  {
    if RecordedFile(walk, k, ignorePtrack, p) {
      var i :| 0 <= i < k && InStep(walk[i].root, walk[i].files, ignorePtrack, p);
      if i < k - 1 {
        assert RecordedFile(walk, k - 1, ignorePtrack, p);
      }
    }
  }

  /**
   * When the walk succeeds, the snapshot's files are exactly the files of
   * the walk whose names are not skipped, each under its root.
   */
  lemma {:induction false} FilesAreWalkFiles(walk: seq<WalkStep>, k: nat, ignorePtrack: bool,
                                             md5: Bytes -> string, p: Path)
    requires k <= |walk|
    requires FilesAfter(walk, k, ignorePtrack, md5).Ok?
    ensures p in FilesAfter(walk, k, ignorePtrack, md5).value <==> RecordedFile(walk, k, ignorePtrack, p)
  {
    if k > 0 {
      var step := walk[k - 1];
      FilesAfterErrFirst(walk, k, ignorePtrack, md5);
      FilesAreWalkFiles(walk, k - 1, ignorePtrack, md5, p);
      StepFilesMembers(FilesAfter(walk, k - 1, ignorePtrack, md5).value, step.root, step.files, ignorePtrack, md5, p);
      RecordedFileStep(walk, k, ignorePtrack, p);
    }
  }

  lemma FilesAfterErrFirst(walk: seq<WalkStep>, k: nat, ignorePtrack: bool, md5: Bytes -> string)
    requires 0 < k <= |walk|
    requires FilesAfter(walk, k, ignorePtrack, md5).Ok?
    ensures FilesAfter(walk, k - 1, ignorePtrack, md5).Ok?
  {
  }

  /** The record of a file kept by a step: whether it is a data file, and its checksums. */
  lemma {:induction false} StepFileRecord(files: map<Path, FileRecord>, root: Path, fs: seq<FileEntry>,
                                          ignorePtrack: bool, md5: Bytes -> string, j: nat)
    requires StepFiles(files, root, fs, ignorePtrack, md5).Ok?
    requires j < |fs| && !SkipFile(fs[j].name, ignorePtrack)
    requires forall j' :: j < j' < |fs| ==> fs[j'].name != fs[j].name
    ensures FileRecordOf(fs[j], md5).Ok?
    ensures root + [fs[j].name] in StepFiles(files, root, fs, ignorePtrack, md5).value
    ensures StepFiles(files, root, fs, ignorePtrack, md5).value[root + [fs[j].name]] == FileRecordOf(fs[j], md5).value
  {
    var init := fs[..|fs| - 1];
    if j < |fs| - 1 {
      assert init[j] == fs[j];
      StepFileRecord(files, root, init, ignorePtrack, md5, j);
      var f := fs[|fs| - 1];
      if !SkipFile(f.name, ignorePtrack) {
        assert root + [f.name] != root + [fs[j].name] by {
          assert (root + [f.name])[|root|] == f.name;
        }
      }
    }
  }

  /**
   * In a walk whose directories appear once and whose steps list each name
   * once, a kept file is recorded as a data file exactly when its name is
   * all digits, with the checksum of its bytes.
   */
  lemma FileRecordOfWalk(walk: seq<WalkStep>, k: nat, ignorePtrack: bool, md5: Bytes -> string,
                                            i: nat, j: nat)
    requires k <= |walk| && i < k && j < |walk[i].files|
    requires !SkipFile(walk[i].files[j].name, ignorePtrack)
    requires forall i', j' :: 0 <= i' < j' < |walk| ==> walk[i'].root != walk[j'].root
    requires forall j' :: 0 <= j' < |walk[i].files| && j' != j ==> walk[i].files[j'].name != walk[i].files[j].name
    requires FilesAfter(walk, k, ignorePtrack, md5).Ok?
    ensures walk[i].root + [walk[i].files[j].name] in FilesAfter(walk, k, ignorePtrack, md5).value
    ensures var f := walk[i].files[j];
            var rec := FilesAfter(walk, k, ignorePtrack, md5).value[walk[i].root + [f.name]];
            && rec.isDatafile == IsDigitName(f.name)
            && rec.md5 == md5(f.content)
            && (rec.isDatafile ==> rec.md5PerPage.Some?
                                   && PageDigests(f.segments[0 := f.content], (|f.content| as real) / (BLCKSZ as real), md5)
                                      == Ok(rec.md5PerPage.value))
  {
    WalkRecordIsFileRecord(walk, k, ignorePtrack, md5, i, j);
    FileRecordContents(walk[i].files[j], md5);
  }

  /** What FileRecordOf records about a file. */
  lemma FileRecordContents(f: FileEntry, md5: Bytes -> string)
    requires FileRecordOf(f, md5).Ok?
    ensures var rec := FileRecordOf(f, md5).value;
            && rec.isDatafile == IsDigitName(f.name)
            && rec.md5 == md5(f.content)
            && (rec.isDatafile ==> rec.md5PerPage.Some?
                                   && PageDigests(f.segments[0 := f.content], (|f.content| as real) / (BLCKSZ as real), md5)
                                      == Ok(rec.md5PerPage.value))
  {
  }

  lemma {:induction false} WalkRecordIsFileRecord(walk: seq<WalkStep>, k: nat, ignorePtrack: bool, md5: Bytes -> string,
                                                  i: nat, j: nat)
    requires k <= |walk| && i < k && j < |walk[i].files|
    requires !SkipFile(walk[i].files[j].name, ignorePtrack)
    requires forall i', j' :: 0 <= i' < j' < |walk| ==> walk[i'].root != walk[j'].root
    requires forall j' :: 0 <= j' < |walk[i].files| && j' != j ==> walk[i].files[j'].name != walk[i].files[j].name
    requires FilesAfter(walk, k, ignorePtrack, md5).Ok?
    ensures FileRecordOf(walk[i].files[j], md5).Ok?
    ensures walk[i].root + [walk[i].files[j].name] in FilesAfter(walk, k, ignorePtrack, md5).value
    ensures FilesAfter(walk, k, ignorePtrack, md5).value[walk[i].root + [walk[i].files[j].name]]
            == FileRecordOf(walk[i].files[j], md5).value
  {
    FilesAfterErrFirst(walk, k, ignorePtrack, md5);
    if i == k - 1 {
      var step := walk[k - 1];
      StepFileRecord(FilesAfter(walk, k - 1, ignorePtrack, md5).value, step.root, step.files, ignorePtrack, md5, j);
    } else {
      WalkRecordIsFileRecord(walk, k - 1, ignorePtrack, md5, i, j);
      var p := walk[i].root + [walk[i].files[j].name];
      assert Parent(p) == walk[i].root;
      // The last step has another root, so it records nothing under p.
      LaterStepKeeps(walk, k, ignorePtrack, md5, p);
    }
  }

  /** The last of k steps leaves alone what the steps before it recorded outside its directory. */
  lemma LaterStepKeeps(walk: seq<WalkStep>, k: nat, ignorePtrack: bool, md5: Bytes -> string, p: Path)
    requires 0 < k <= |walk| && FilesAfter(walk, k, ignorePtrack, md5).Ok?
    requires FilesAfter(walk, k - 1, ignorePtrack, md5).Ok?
    requires p in FilesAfter(walk, k - 1, ignorePtrack, md5).value && Parent(p) != walk[k - 1].root
    ensures p in FilesAfter(walk, k, ignorePtrack, md5).value
    ensures FilesAfter(walk, k, ignorePtrack, md5).value[p] == FilesAfter(walk, k - 1, ignorePtrack, md5).value[p]
  {
    var step := walk[k - 1];
    StepFilesKeeps(FilesAfter(walk, k - 1, ignorePtrack, md5).value, step.root, step.files, ignorePtrack, md5, p);
  }

  /** A step never changes the record of a path outside its own directory. */
  lemma {:induction false} StepFilesKeeps(files: map<Path, FileRecord>, root: Path, fs: seq<FileEntry>,
                                          ignorePtrack: bool, md5: Bytes -> string, p: Path)
    requires StepFiles(files, root, fs, ignorePtrack, md5).Ok?
    requires p in files && Parent(p) != root
    ensures p in StepFiles(files, root, fs, ignorePtrack, md5).value
    ensures StepFiles(files, root, fs, ignorePtrack, md5).value[p] == files[p]
  {
    if fs != [] {
      StepFilesKeeps(files, root, fs[..|fs| - 1], ignorePtrack, md5, p);
    }
  }

  // ---------------------------------------------------------------------
  // Pruning
  // ---------------------------------------------------------------------

  /** The walk enters only directories it was allowed to keep. */
  ghost predicate FollowsPruning(walk: seq<WalkStep>, ignore: seq<string>) {
    forall i :: 0 <= i < |walk| && walk[i].root != [] ==>
      exists j :: 0 <= j < |walk| && walk[j].root == Parent(walk[i].root) && Last(walk[i].root) in Retained(walk[j].dirs, ignore)
  }

  /** No directory on the way to a step's root has an ignored name. */
  lemma {:induction false} RootsAvoidIgnored(walk: seq<WalkStep>, ignore: seq<string>, i: nat)
    requires i < |walk| && FollowsPruning(walk, ignore)
    ensures forall c :: 0 <= c < |walk[i].root| ==> walk[i].root[c] !in ignore
    decreases |walk[i].root|
  {
    var root := walk[i].root;
    if root != [] {
      var j := PrunedParent(walk, ignore, i);
      RootsAvoidIgnored(walk, ignore, j);
      ExtendAvoids(walk[j].root, Last(root), ignore, root);
    }
  }

  /** The step that listed a step's root among its kept subdirectories. */
  lemma PrunedParent(walk: seq<WalkStep>, ignore: seq<string>, i: nat) returns (j: nat)
    requires i < |walk| && walk[i].root != [] && FollowsPruning(walk, ignore)
    ensures j < |walk| && walk[j].root == Parent(walk[i].root) && |walk[j].root| < |walk[i].root|
    ensures Last(walk[i].root) !in ignore
  {
    j :| 0 <= j < |walk| && walk[j].root == Parent(walk[i].root) && Last(walk[i].root) in Retained(walk[j].dirs, ignore);
  }

  /** A path of names none of which is ignored stays so when a kept name is appended. */
  lemma ExtendAvoids(p: Path, name: string, ignore: seq<string>, q: Path)
    requires forall c :: 0 <= c < |p| ==> p[c] !in ignore
    requires name !in ignore
    requires q != [] && p == Parent(q) && name == Last(q)
    ensures forall c :: 0 <= c < |q| ==> q[c] !in ignore
  {
    forall c | 0 <= c < |q|
      ensures q[c] !in ignore
    {
      if c < |q| - 1 {
        assert q[c] == p[c];
      }
    }
  }

  /**
   * Ignored directory names are pruned before descent: in a walk that
   * honours the pruning, no recorded directory has an ignored name anywhere
   * on its path.
   */
  lemma DirsAvoidIgnored(walk: seq<WalkStep>, ignore: seq<string>, p: Path)
    requires FollowsPruning(walk, ignore)
    requires RecordedDir(walk, |walk|, ignore, p)
    ensures forall c :: 0 <= c < |p| ==> p[c] !in ignore
  {
    var i :| 0 <= i < |walk| && walk[i].root == Parent(p) && Last(p) in Retained(walk[i].dirs, ignore);
    RootsAvoidIgnored(walk, ignore, i);
    forall c | 0 <= c < |p|
      ensures p[c] !in ignore
    {
      if c < |p| - 1 {
        assert p[c] == walk[i].root[c];
      }
    }
  }
}
