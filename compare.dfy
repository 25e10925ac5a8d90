/**
 * Comparing two data directory snapshots (tests/helpers/ptrack_helpers.py,
 * compare_pgdata) and the difference of two backup file lists
 * (get_backup_filelist_diff). The comparison reports what it finds and
 * raises iff one of the findings sets `fail`; the report is modelled as a
 * set of findings rather than as the message text.
 */
module Compare {
  import opened Common
  import opened Snapshot

  /** What compare_pgdata writes into its message. */
  datatype Issue =
    | DirNotInOriginal(dir: Path)
    | DirDisappeared(dir: Path)
    | DirModeMismatch(dir: Path)
    | FileNotInOriginal(file: Path)
    | FileDisappeared(file: Path)
    | FileModeMismatch(file: Path)
    | FileChecksumMismatch(file: Path)
    | PageDisappeared(file: Path, page: int)
    | ExtraPage(file: Path, page: int)
    | PageChecksumMismatch(file: Path, page: int)

  /** Every finding sets `fail` except pages present on one side only. */
  predicate SetsFail(i: Issue) {
    !(i.PageDisappeared? || i.ExtraPage?)
  }

  /** The exceptions the comparison can raise before its assertion. */
  datatype CompareError =
    | MissingDir(dir: Path)              // KeyError on original_pgdata['dirs']
    | MissingFile(file: Path)            // KeyError on original_pgdata['files']
    | MissingPageDigests(file: Path)     // AttributeError on md5_per_page

  /** The outcome when nothing raised: whether the assertion fails, and the findings reported. */
  datatype Comparison = Comparison(fail: bool, issues: set<Issue>)

  /** Pages excluded from comparison for a file. */
  function Excluded(exclusion: map<Path, set<int>>, f: Path): set<int> {
    if f in exclusion then exclusion[f] else {}
  }

  // ---------------------------------------------------------------------
  // The findings, stated outright
  // ---------------------------------------------------------------------

  function PageIssues(f: Path, orig: map<int, string>, rest: map<int, string>, excluded: set<int>): set<Issue> {
    (set p | p in orig.Keys - rest.Keys :: PageDisappeared(f, p))
    + (set p | p in rest.Keys - orig.Keys :: ExtraPage(f, p))
    + (set p | p in orig.Keys * rest.Keys && p !in excluded && orig[p] != rest[p] :: PageChecksumMismatch(f, p))
  }

  /** A shared file lacks the page checksums its comparison needs. */
  predicate PagesMissing(o: ContentFile, r: ContentFile) {
    o.md5 != r.md5 && o.isDatafile && (o.md5PerPage.None? || r.md5PerPage.None?)
  }

  /** The findings for one file present on both sides. */
  function FileIssues(f: Path, o: ContentFile, r: ContentFile, exclusion: map<Path, set<int>>): set<Issue>
    requires !PagesMissing(o, r)
  {
    (if o.mode != r.mode then {FileModeMismatch(f)} else {})
    + (if o.md5 == r.md5 then {}
       else
         (if f !in exclusion then {FileChecksumMismatch(f)} else {})
         + (if o.isDatafile then PageIssues(f, o.md5PerPage.value, r.md5PerPage.value, Excluded(exclusion, f)) else {}))
  }

  /** A directory compared on both sides is missing from the original snapshot. */
  ghost predicate DirError(original: Content, restored: Content, origDirs: set<Path>, d: Path) {
    d in origDirs && d in restored.dirs && d !in original.dirs
  }

  /** A file compared on both sides is missing from the original, or lacks its page checksums. */
  ghost predicate FileError(original: Content, restored: Content, origFiles: set<Path>, f: Path) {
    f in origFiles && f in restored.files
    && (f !in original.files || PagesMissing(original.files[f], restored.files[f]))
  }

  ghost predicate AnyError(original: Content, restored: Content, origDirs: set<Path>, origFiles: set<Path>) {
    (exists d :: DirError(original, restored, origDirs, d)) || (exists f :: FileError(original, restored, origFiles, f))
  }

  function DirIssues(original: Content, restored: Content, origDirs: set<Path>): set<Issue> {
    (set d | d in restored.dirs.Keys - origDirs :: DirNotInOriginal(d))
    + (set d | d in origDirs - restored.dirs.Keys :: DirDisappeared(d))
    + (set d | d in origDirs * restored.dirs.Keys && d in original.dirs && original.dirs[d] != restored.dirs[d]
             :: DirModeMismatch(d))
  }

  /** A file the comparison finds on both sides and can compare without raising. */
  predicate Comparable(original: Content, restored: Content, f: Path) {
    f in original.files && f in restored.files && !PagesMissing(original.files[f], restored.files[f])
  }

  function FileIssuesAt(original: Content, restored: Content, exclusion: map<Path, set<int>>, f: Path): set<Issue> {
    if Comparable(original, restored, f) then FileIssues(f, original.files[f], restored.files[f], exclusion) else {}
  }

  /** The findings for the files shared by both sides, where the comparison of each can go ahead. */
  function SharedFileIssues(original: Content, restored: Content, shared: set<Path>, exclusion: map<Path, set<int>>)
    : set<Issue>
  {
    set f, i | f in shared && i in FileIssuesAt(original, restored, exclusion, f) :: i
  }

  function FileIssuesAll(original: Content, restored: Content, origFiles: set<Path>, exclusion: map<Path, set<int>>)
    : set<Issue>
  {
    (set f | f in restored.files.Keys - origFiles :: FileNotInOriginal(f))
    + (set f | f in origFiles - restored.files.Keys :: FileDisappeared(f))
    + SharedFileIssues(original, restored, origFiles * restored.files.Keys, exclusion)
  }

  /** The findings of a comparison that does not raise. */
  function AllIssues(original: Content, restored: Content, origDirs: set<Path>, origFiles: set<Path>,
                     exclusion: map<Path, set<int>>): set<Issue>
  {
    DirIssues(original, restored, origDirs) + FileIssuesAll(original, restored, origFiles, exclusion)
  }

  predicate Fails(issues: set<Issue>) {
    exists i :: i in issues && SetsFail(i)
  }

  // ---------------------------------------------------------------------
  // The loops
  // ---------------------------------------------------------------------

  method Pick<T>(s: set<T>) returns (x: T)
    requires s != {}
    ensures x in s
  {
    x :| x in s;
  }

  /** A loop that reports every element of a set; each report sets `fail` when the kind of finding does. */
  method ReportAll<T>(s: set<T>, mk: T -> Issue, setsFail: bool, fail: bool) returns (found: set<Issue>, fail': bool)
    ensures found == set x | x in s :: mk(x)
    ensures fail' == (fail || (setsFail && found != {}))
  {
    found, fail' := {}, fail;
    var todo := s;
    while todo != {}
      invariant todo <= s
      invariant found == set x | x in s - todo :: mk(x)
      invariant fail' == (fail || (setsFail && found != {}))
      decreases |todo|
    {
      var x := Pick(todo);
      found := found + {mk(x)};
      if setsFail {
        fail' := true;
      }
      todo := todo - {x};
    }
  }

  /** The pages of a data file whose whole-file checksums differ. */
  method ComparePages(f: Path, orig: map<int, string>, rest: map<int, string>, exclusion: map<Path, set<int>>,
                      fail: bool) returns (found: set<Issue>, fail': bool)
    ensures found == PageIssues(f, orig, rest, Excluded(exclusion, f))
    ensures fail' == (fail || Fails(found))
  {
    var gone, extra, changed;
    gone, fail' := ReportAll(orig.Keys - rest.Keys, p => PageDisappeared(f, p), false, fail);
    extra, fail' := ReportAll(rest.Keys - orig.Keys, p => ExtraPage(f, p), false, fail');
    changed, fail' := ChangedPages(f, orig, rest, exclusion, fail');
    found := gone + extra + changed;
    FailsOfPages(f, orig, rest, Excluded(exclusion, f));
  }

  /** The loop over the pages on both sides, skipping the excluded ones. */
  method ChangedPages(f: Path, orig: map<int, string>, rest: map<int, string>, exclusion: map<Path, set<int>>,
                      fail: bool) returns (changed: set<Issue>, fail': bool)
    ensures changed == set p | p in orig.Keys * rest.Keys && p !in Excluded(exclusion, f) && orig[p] != rest[p]
                             :: PageChecksumMismatch(f, p)
    ensures fail' == (fail || exists p :: p in orig && p in rest && p !in Excluded(exclusion, f) && orig[p] != rest[p])
  {
    var shared := orig.Keys * rest.Keys;
    var todo := shared;
    changed, fail' := {}, fail;
    while todo != {}
      invariant todo <= shared
      invariant changed == set p | p in shared - todo && p !in Excluded(exclusion, f) && orig[p] != rest[p]
                                 :: PageChecksumMismatch(f, p)
      invariant fail' == (fail || exists p :: p in shared - todo && p !in Excluded(exclusion, f) && orig[p] != rest[p])
      decreases |todo|
    {
      var page := Pick(todo);
      todo := todo - {page};
      if f in exclusion && page in exclusion[f] {
        continue;
      }
      if orig[page] != rest[page] {
        fail' := true;
        changed := changed + {PageChecksumMismatch(f, page)};
      }
    }
  }

  /** Among the page findings only checksum mismatches set `fail`. */
  lemma FailsOfPages(f: Path, orig: map<int, string>, rest: map<int, string>, excluded: set<int>)
    ensures Fails(PageIssues(f, orig, rest, excluded)) <==>
              exists p :: p in orig && p in rest && p !in excluded && orig[p] != rest[p]
  {
    var issues := PageIssues(f, orig, rest, excluded);
    if Fails(issues) {
      var i :| i in issues && SetsFail(i);
      assert orig[i.page] != rest[i.page];
    }
    if exists p :: p in orig && p in rest && p !in excluded && orig[p] != rest[p] {
      var p :| p in orig && p in rest && p !in excluded && orig[p] != rest[p];
      assert PageChecksumMismatch(f, p) in issues;
    }
  }

  /** The body of the loop over shared files. */
  method CompareFile(f: Path, o: ContentFile, r: ContentFile, exclusion: map<Path, set<int>>, fail: bool)
    returns (res: Result<(set<Issue>, bool), CompareError>)
    ensures res.Err? <==> PagesMissing(o, r)
    ensures res.Err? ==> res.error == MissingPageDigests(f)
    ensures res.Ok? ==> res.value.0 == FileIssues(f, o, r, exclusion)
    ensures res.Ok? ==> res.value.1 == (fail || Fails(res.value.0))
  {
    var found: set<Issue> := {};
    var fail' := fail;
    if r.mode != o.mode {
      fail' := true;
      found := found + {FileModeMismatch(f)};
    }
    if o.md5 != r.md5 {
      if f !in exclusion {
        fail' := true;
        found := found + {FileChecksumMismatch(f)};
      }
      if !o.isDatafile {
        return Ok((found, fail'));
      }
      if o.md5PerPage.None? || r.md5PerPage.None? {
        return Err(MissingPageDigests(f));
      }
      var pages;
      pages, fail' := ComparePages(f, o.md5PerPage.value, r.md5PerPage.value, exclusion, fail');
      found := found + pages;
    }
    return Ok((found, fail'));
  }

  /**
   * compare_pgdata, given the key sets it takes as the original's
   * directories and files. Nothing raised: the findings and whether the
   * assertion fails; otherwise an exception a lookup raised, directories
   * being compared before files.
   */
  method CompareSnapshots(original: Content, restored: Content, exclusion: map<Path, set<int>>,
                          origDirs: set<Path>, origFiles: set<Path>) returns (r: Result<Comparison, CompareError>)
    ensures r.Err? <==> AnyError(original, restored, origDirs, origFiles)
    ensures r.Err? && r.error.MissingDir? ==> DirError(original, restored, origDirs, r.error.dir)
    ensures r.Err? && !r.error.MissingDir? ==>
              && FileError(original, restored, origFiles, r.error.file)
              && (r.error.MissingFile? <==> r.error.file !in original.files)
              && forall d :: !DirError(original, restored, origDirs, d)
    ensures r.Ok? ==> r.value.issues == AllIssues(original, restored, origDirs, origFiles, exclusion)
    ensures r.Ok? ==> (r.value.fail <==> Fails(r.value.issues))
  {
    var dirs := CompareDirs(original, restored, origDirs, false);
    if dirs.Err? {
      return Err(dirs.error);
    }
    var files := CompareFiles(original, restored, origFiles, exclusion, dirs.value.1);
    if files.Err? {
      return Err(files.error);
    }
    FailsOfUnion(dirs.value.0, files.value.0);
    return Ok(Comparison(files.value.1, dirs.value.0 + files.value.0));
  }

  /** The first half of compare_pgdata: the directories. */
  method CompareDirs(original: Content, restored: Content, origDirs: set<Path>, fail: bool)
    returns (r: Result<(set<Issue>, bool), CompareError>)
    ensures r.Err? <==> exists d :: DirError(original, restored, origDirs, d)
    ensures r.Err? ==> r.error.MissingDir? && DirError(original, restored, origDirs, r.error.dir)
    ensures r.Ok? ==> r.value.0 == DirIssues(original, restored, origDirs)
    ensures r.Ok? ==> r.value.1 == (fail || Fails(r.value.0))
  {
    var fail' := fail;
    var restoredDirs := restored.dirs.Keys;
    var extraDirs, goneDirs;
    extraDirs, fail' := ReportAll(restoredDirs - origDirs, d => DirNotInOriginal(d), true, fail');
    goneDirs, fail' := ReportAll(origDirs - restoredDirs, d => DirDisappeared(d), true, fail');
    var dirResult := CompareDirModes(original, restored, origDirs * restoredDirs);
    if dirResult.Err? {
      assert DirError(original, restored, origDirs, dirResult.error.dir);
      return Err(dirResult.error);
    }
    var dirModes := dirResult.value;
    if dirModes != {} {
      fail' := true;
    }
    assert forall d :: DirError(original, restored, origDirs, d) ==> d in origDirs * restoredDirs && d !in original.dirs;
    var issues := extraDirs + goneDirs + dirModes;
    assert issues == DirIssues(original, restored, origDirs);
    FailsOfFailing(issues);
    return Ok((issues, fail'));
  }

  /** The second half of compare_pgdata: the files. */
  method CompareFiles(original: Content, restored: Content, origFiles: set<Path>, exclusion: map<Path, set<int>>,
                      fail: bool) returns (r: Result<(set<Issue>, bool), CompareError>)
    ensures r.Err? <==> exists f :: FileError(original, restored, origFiles, f)
    ensures r.Err? ==> && !r.error.MissingDir?
                       && FileError(original, restored, origFiles, r.error.file)
                       && (r.error.MissingFile? <==> r.error.file !in original.files)
    ensures r.Ok? ==> r.value.0 == FileIssuesAll(original, restored, origFiles, exclusion)
    ensures r.Ok? ==> r.value.1 == (fail || Fails(r.value.0))
  {
    var fail' := fail;
    var restoredFiles := restored.files.Keys;
    var extraFiles, goneFiles;
    extraFiles, fail' := ReportAll(restoredFiles - origFiles, f => FileNotInOriginal(f), true, fail');
    goneFiles, fail' := ReportAll(origFiles - restoredFiles, f => FileDisappeared(f), true, fail');
    var shared := origFiles * restoredFiles;
    var fileResult := CompareSharedFiles(original, restored, shared, exclusion, fail');
    if fileResult.Err? {
      assert FileError(original, restored, origFiles, fileResult.error.file);
      return Err(fileResult.error);
    }
    assert forall f :: FileError(original, restored, origFiles, f) ==> f in shared && !Comparable(original, restored, f);
    var sharedIssues := fileResult.value.0;
    FailsOfFailing(extraFiles + goneFiles);
    FailsOfUnion(extraFiles + goneFiles, sharedIssues);
    return Ok((extraFiles + goneFiles + sharedIssues, fileResult.value.1));
  }

  lemma FailsOfUnion(a: set<Issue>, b: set<Issue>)
    ensures Fails(a + b) <==> Fails(a) || Fails(b)
  {
    if Fails(a + b) {
      var i :| i in a + b && SetsFail(i);
    }
  }

  /** A set of findings that each set `fail` fails iff it is not empty. */
  lemma FailsOfFailing(s: set<Issue>)
    requires forall i :: i in s ==> SetsFail(i)
    ensures Fails(s) <==> s != {}
  {
    if s != {} {
      var i :| i in s;
    }
  }

  /** The loop over the directories on both sides: a lookup in the original, then the modes. */
  method CompareDirModes(original: Content, restored: Content, shared: set<Path>)
    returns (r: Result<set<Issue>, CompareError>)
    requires shared <= restored.dirs.Keys
    ensures r.Err? <==> exists d :: d in shared && d !in original.dirs
    ensures r.Err? ==> r.error.MissingDir? && r.error.dir in shared && r.error.dir !in original.dirs
    ensures r.Ok? ==> r.value == set d | d in shared && d in original.dirs && original.dirs[d] != restored.dirs[d]
                                         :: DirModeMismatch(d)
  {
    var found: set<Issue> := {};
    var todo := shared;
    while todo != {}
      invariant todo <= shared
      invariant forall d :: d in shared - todo ==> d in original.dirs
      invariant found == set d | d in shared - todo && original.dirs[d] != restored.dirs[d] :: DirModeMismatch(d)
      decreases |todo|
    {
      var d := Pick(todo);
      if d !in original.dirs {
        return Err(MissingDir(d));
      }
      if original.dirs[d] != restored.dirs[d] {
        found := found + {DirModeMismatch(d)};
      }
      todo := todo - {d};
    }
    return Ok(found);
  }

  /** The loop over the files on both sides. */
  method CompareSharedFiles(original: Content, restored: Content, shared: set<Path>, exclusion: map<Path, set<int>>,
                            fail: bool) returns (r: Result<(set<Issue>, bool), CompareError>)
    requires shared <= restored.files.Keys
    ensures r.Err? <==> exists f :: f in shared && !Comparable(original, restored, f)
    ensures r.Err? ==> && !r.error.MissingDir?
                       && r.error.file in shared
                       && !Comparable(original, restored, r.error.file)
                       && (r.error.MissingFile? <==> r.error.file !in original.files)
    ensures r.Ok? ==> r.value.0 == SharedFileIssues(original, restored, shared, exclusion)
    ensures r.Ok? ==> r.value.1 == (fail || Fails(r.value.0))
  {
    var found: set<Issue> := {};
    var fail' := fail;
    var todo := shared;
    ghost var done: set<Path> := {};
    while todo != {}
      invariant done !! todo && done + todo == shared
      invariant forall f :: f in done ==> Comparable(original, restored, f)
      invariant found == SharedFileIssues(original, restored, done, exclusion)
      invariant fail' == (fail || Fails(found))
      decreases |todo|
    {
      var f := Pick(todo);
      var next := CompareNext(original, restored, exclusion, done, f, found, fail, fail');
      if next.Err? {
        return Err(next.error);
      }
      found, fail' := next.value.0, next.value.1;
      todo := todo - {f};
      done := done + {f};
    }
    return Ok((found, fail'));
  }

  /** One turn of the loop over shared files, with what it adds to the findings so far. */
  method CompareNext(original: Content, restored: Content, exclusion: map<Path, set<int>>, ghost done: set<Path>,
                     f: Path, found: set<Issue>, ghost fail0: bool, fail: bool)
    returns (r: Result<(set<Issue>, bool), CompareError>)
    requires f in restored.files
    requires found == SharedFileIssues(original, restored, done, exclusion)
    requires fail == (fail0 || Fails(found))
    ensures r.Err? <==> !Comparable(original, restored, f)
    ensures r.Err? ==> r.error == (if f !in original.files then MissingFile(f) else MissingPageDigests(f))
    ensures r.Ok? ==> r.value.0 == SharedFileIssues(original, restored, done + {f}, exclusion)
    ensures r.Ok? ==> r.value.1 == (fail0 || Fails(r.value.0))
  {
    var one := CompareOne(original, restored, f, exclusion, fail);
    if one.Err? {
      return Err(one.error);
    }
    SharedFileIssuesAdd(original, restored, done, f, exclusion);
    FailsOfUnion(found, one.value.0);
    return Ok((found + one.value.0, one.value.1));
  }

  /** The lookup in the original, then the comparison of one file. */
  method CompareOne(original: Content, restored: Content, f: Path, exclusion: map<Path, set<int>>, fail: bool)
    returns (r: Result<(set<Issue>, bool), CompareError>)
    requires f in restored.files
    ensures r.Err? <==> !Comparable(original, restored, f)
    ensures r.Err? ==> r.error == (if f !in original.files then MissingFile(f) else MissingPageDigests(f))
    ensures r.Ok? ==> r.value.0 == FileIssuesAt(original, restored, exclusion, f)
    ensures r.Ok? ==> r.value.1 == (fail || Fails(r.value.0))
  {
    if f !in original.files {
      return Err(MissingFile(f));
    }
    r := CompareFile(f, original.files[f], restored.files[f], exclusion, fail);
  }

  lemma SharedFileIssuesAdd(original: Content, restored: Content, done: set<Path>, f: Path,
                            exclusion: map<Path, set<int>>)
    ensures SharedFileIssues(original, restored, done + {f}, exclusion)
            == SharedFileIssues(original, restored, done, exclusion) + FileIssuesAt(original, restored, exclusion, f)
  {
  }

  /** compare_pgdata as written: both key sets of the "original" are taken from the restored snapshot. */
  method ComparePgdataAsWritten(original: Content, restored: Content, exclusion: map<Path, set<int>>)
    returns (r: Result<Comparison, CompareError>)
    ensures r.Err? <==> AnyError(original, restored, restored.dirs.Keys, restored.files.Keys)
    ensures r.Ok? ==> r.value.issues == AllIssues(original, restored, restored.dirs.Keys, restored.files.Keys, exclusion)
    ensures r.Ok? ==> (r.value.fail <==> Fails(r.value.issues))
  {
    var restoredDirs := restored.dirs.Keys;
    var originalDirs := restored.dirs.Keys;
    var restoredFiles := restored.files.Keys;
    var originalFiles := restored.files.Keys;
    r := CompareSnapshots(original, restored, exclusion, originalDirs, originalFiles);
  }

  /** compare_pgdata with the original's key sets taken from the original snapshot. */
  method ComparePgdata(original: Content, restored: Content, exclusion: map<Path, set<int>>)
    returns (r: Result<Comparison, CompareError>)
    ensures r.Err? <==> AnyError(original, restored, original.dirs.Keys, original.files.Keys)
    ensures r.Ok? ==> r.value.issues == AllIssues(original, restored, original.dirs.Keys, original.files.Keys, exclusion)
    ensures r.Ok? ==> (r.value.fail <==> Fails(r.value.issues))
  {
    r := CompareSnapshots(original, restored, exclusion, original.dirs.Keys, original.files.Keys);
  }

  // ---------------------------------------------------------------------
  // What the comparison means
  // ---------------------------------------------------------------------

  /** Comparing a snapshot with itself raises nothing and reports nothing, whatever is excluded. */
  lemma CompareSelf(c: Content, exclusion: map<Path, set<int>>)
    ensures !AnyError(c, c, c.dirs.Keys, c.files.Keys)
    ensures AllIssues(c, c, c.dirs.Keys, c.files.Keys, exclusion) == {}
  {
    forall f | f in c.files.Keys
      ensures FileIssuesAt(c, c, exclusion, f) == {}
    {
    }
    assert SharedFileIssues(c, c, c.files.Keys * c.files.Keys, exclusion) == {};
  }

  /** As written, a directory or file can never be reported missing on either side. */
  lemma AsWrittenReportsNoKeyDifference(original: Content, restored: Content, exclusion: map<Path, set<int>>, i: Issue)
    requires i in AllIssues(original, restored, restored.dirs.Keys, restored.files.Keys, exclusion)
    ensures !(i.DirNotInOriginal? || i.DirDisappeared? || i.FileNotInOriginal? || i.FileDisappeared?)
  {
    assert restored.dirs.Keys - restored.dirs.Keys == {};
    assert restored.files.Keys - restored.files.Keys == {};
    if i in SharedFileIssues(original, restored, restored.files.Keys * restored.files.Keys, exclusion) {
      var f :| f in restored.files.Keys && i in FileIssuesAt(original, restored, exclusion, f);
      FileIssueKinds(f, original.files[f], restored.files[f], exclusion, i);
    }
  }

  /** A file compared on both sides is never reported missing. */
  lemma FileIssueKinds(f: Path, o: ContentFile, r: ContentFile, exclusion: map<Path, set<int>>, i: Issue)
    requires !PagesMissing(o, r) && i in FileIssues(f, o, r, exclusion)
    ensures !(i.DirNotInOriginal? || i.DirDisappeared? || i.FileNotInOriginal? || i.FileDisappeared?)
  {
  }

  /** As written, a file of the restored snapshot that the original lacks raises KeyError. */
  lemma AsWrittenRaisesOnNewFile(original: Content, restored: Content, f: Path)
    requires f in restored.files && f !in original.files
    ensures AnyError(original, restored, restored.dirs.Keys, restored.files.Keys)
  {
    assert FileError(original, restored, restored.files.Keys, f);
  }

  /** A data directory with one file that the restore lost. */
  function LostFileOriginal(): Content {
    Content(map[["PG_VERSION"] := ContentFile(false, "d41d8cd98f00b204e9800998ecf8427e", None, 0x1a4)], map[])
  }

  function EmptySnapshot(): Content {
    Content(map[], map[])
  }

  /** As written, the comparison passes although the restored snapshot lost a file. */
  lemma AsWrittenMissesLostFile()
    ensures !AnyError(LostFileOriginal(), EmptySnapshot(), EmptySnapshot().dirs.Keys, EmptySnapshot().files.Keys)
    ensures AllIssues(LostFileOriginal(), EmptySnapshot(), EmptySnapshot().dirs.Keys, EmptySnapshot().files.Keys, map[]) == {}
    ensures AnyError(LostFileOriginal(), EmptySnapshot(), LostFileOriginal().dirs.Keys, LostFileOriginal().files.Keys) == false
    ensures FileDisappeared(["PG_VERSION"])
              in AllIssues(LostFileOriginal(), EmptySnapshot(), LostFileOriginal().dirs.Keys, LostFileOriginal().files.Keys, map[])
  {
    var o, e := LostFileOriginal(), EmptySnapshot();
    assert SharedFileIssues(o, e, {}, map[]) == {};
    assert ["PG_VERSION"] in o.files;
  }

  /** With the original's key sets, every directory and file missing on either side is reported, and fails. */
  lemma ComparisonReportsKeyDifferences(original: Content, restored: Content, exclusion: map<Path, set<int>>)
    ensures var issues := AllIssues(original, restored, original.dirs.Keys, original.files.Keys, exclusion);
      && (forall d :: d in restored.dirs && d !in original.dirs ==> DirNotInOriginal(d) in issues)
      && (forall d :: d in original.dirs && d !in restored.dirs ==> DirDisappeared(d) in issues)
      && (forall f :: f in restored.files && f !in original.files ==> FileNotInOriginal(f) in issues)
      && (forall f :: f in original.files && f !in restored.files ==> FileDisappeared(f) in issues)
  {
  }

  /** A snapshot as pgdata_content builds it: a data file is named by digits and is the one with page checksums. */
  ghost predicate WellFormed(c: Content) {
    forall f :: f in c.files ==> f != [] && c.files[f].isDatafile == IsDigitName(Last(f))
                                  && (c.files[f].isDatafile <==> c.files[f].md5PerPage.Some?)
  }

  ghost predicate RecordsWellFormed(files: map<Path, FileRecord>) {
    forall f :: f in files ==> f != [] && files[f].isDatafile == IsDigitName(Last(f))
                                && (files[f].isDatafile <==> files[f].md5PerPage.Some?)
  }

  lemma {:induction false} StepFilesWellFormed(files: map<Path, FileRecord>, root: Path, fs: seq<FileEntry>,
                                               ignorePtrack: bool, md5: Bytes -> string)
    requires RecordsWellFormed(files)
    requires StepFiles(files, root, fs, ignorePtrack, md5).Ok?
    ensures RecordsWellFormed(StepFiles(files, root, fs, ignorePtrack, md5).value)
  {
    if fs != [] {
      StepFilesWellFormed(files, root, fs[..|fs| - 1], ignorePtrack, md5);
      assert Last(root + [fs[|fs| - 1].name]) == fs[|fs| - 1].name;
    }
  }

  lemma {:induction false} FilesAfterWellFormed(walk: seq<WalkStep>, k: nat, ignorePtrack: bool, md5: Bytes -> string)
    requires k <= |walk|
    requires FilesAfter(walk, k, ignorePtrack, md5).Ok?
    ensures RecordsWellFormed(FilesAfter(walk, k, ignorePtrack, md5).value)
  {
    if k > 0 {
      FilesAfterWellFormed(walk, k - 1, ignorePtrack, md5);
      StepFilesWellFormed(FilesAfter(walk, k - 1, ignorePtrack, md5).value, walk[k - 1].root, walk[k - 1].files,
                          ignorePtrack, md5);
    }
  }

  /** Every snapshot pgdata_content returns is well formed. */
  lemma SnapshotWellFormed(walk: seq<WalkStep>, ignorePtrack: bool, excludeDirs: seq<string>,
                           md5: Bytes -> string, mode: Path -> int)
    requires PgdataContentSpec(walk, ignorePtrack, excludeDirs, md5, mode).Ok?
    ensures WellFormed(PgdataContentSpec(walk, ignorePtrack, excludeDirs, md5, mode).value)
  {
    FilesAfterWellFormed(walk, |walk|, ignorePtrack, md5);
  }

  /** With the original's key sets, two well-formed snapshots compare without raising. */
  lemma ComparisonOfSnapshotsNeverRaises(original: Content, restored: Content)
    requires WellFormed(original) && WellFormed(restored)
    ensures !AnyError(original, restored, original.dirs.Keys, original.files.Keys)
  {
  }

  /** The finding that swapping the two snapshots turns each finding into. */
  function Mirror(i: Issue): (m: Issue)
    ensures SetsFail(m) == SetsFail(i)
  {
    match i
    case DirNotInOriginal(d) => DirDisappeared(d)
    case DirDisappeared(d) => DirNotInOriginal(d)
    case FileNotInOriginal(f) => FileDisappeared(f)
    case FileDisappeared(f) => FileNotInOriginal(f)
    case PageDisappeared(f, p) => ExtraPage(f, p)
    case ExtraPage(f, p) => PageDisappeared(f, p)
    case _ => i
  }

  lemma FileIssuesMirror(f: Path, o: ContentFile, r: ContentFile, exclusion: map<Path, set<int>>, i: Issue)
    requires !PagesMissing(o, r) && !PagesMissing(r, o) && o.isDatafile == r.isDatafile
    requires i in FileIssues(f, o, r, exclusion)
    ensures Mirror(i) in FileIssues(f, r, o, exclusion)
  {
    if o.md5 != r.md5 && o.isDatafile && i in PageIssues(f, o.md5PerPage.value, r.md5PerPage.value, Excluded(exclusion, f)) {
      var op, rp := o.md5PerPage.value, r.md5PerPage.value;
      assert Mirror(i) in PageIssues(f, rp, op, Excluded(exclusion, f));
    }
  }

  /** Swapping the snapshots mirrors every finding. */
  lemma IssuesMirror(a: Content, b: Content, exclusion: map<Path, set<int>>, i: Issue)
    requires WellFormed(a) && WellFormed(b)
    requires i in AllIssues(a, b, a.dirs.Keys, a.files.Keys, exclusion)
    ensures Mirror(i) in AllIssues(b, a, b.dirs.Keys, b.files.Keys, exclusion)
  {
    if i in SharedFileIssues(a, b, a.files.Keys * b.files.Keys, exclusion) {
      var f :| f in a.files.Keys * b.files.Keys && i in FileIssuesAt(a, b, exclusion, f);
      FileIssuesMirror(f, a.files[f], b.files[f], exclusion, i);
      assert Mirror(i) in FileIssuesAt(b, a, exclusion, f);
      assert Mirror(i) in SharedFileIssues(b, a, b.files.Keys * a.files.Keys, exclusion);
    }
  }

  /** Between two well-formed snapshots, the comparison fails one way round iff it fails the other. */
  lemma ComparisonSymmetric(a: Content, b: Content, exclusion: map<Path, set<int>>)
    requires WellFormed(a) && WellFormed(b)
    ensures Fails(AllIssues(a, b, a.dirs.Keys, a.files.Keys, exclusion))
        <==> Fails(AllIssues(b, a, b.dirs.Keys, b.files.Keys, exclusion))
  {
    if Fails(AllIssues(a, b, a.dirs.Keys, a.files.Keys, exclusion)) {
      var i :| i in AllIssues(a, b, a.dirs.Keys, a.files.Keys, exclusion) && SetsFail(i);
      IssuesMirror(a, b, exclusion, i);
    }
    if Fails(AllIssues(b, a, b.dirs.Keys, b.files.Keys, exclusion)) {
      var i :| i in AllIssues(b, a, b.dirs.Keys, b.files.Keys, exclusion) && SetsFail(i);
      IssuesMirror(b, a, exclusion, i);
    }
  }

  /** A finding the exclusion dict suppresses: a file's checksum, or one of its pages. */
  predicate Suppressed(exclusion: map<Path, set<int>>, i: Issue) {
    (i.FileChecksumMismatch? && i.file in exclusion)
    || (i.PageChecksumMismatch? && i.page in Excluded(exclusion, i.file))
  }

  lemma FileIssuesExcluded(f: Path, o: ContentFile, r: ContentFile, exclusion: map<Path, set<int>>)
    requires !PagesMissing(o, r)
    ensures FileIssues(f, o, r, exclusion) == set i | i in FileIssues(f, o, r, map[]) && !Suppressed(exclusion, i)
  {
    if o.md5 != r.md5 && o.isDatafile {
      var op, rp := o.md5PerPage.value, r.md5PerPage.value;
      assert PageIssues(f, op, rp, Excluded(exclusion, f))
          == set i | i in PageIssues(f, op, rp, {}) && !Suppressed(exclusion, i);
    }
  }

  lemma SharedFileIssuesExcluded(original: Content, restored: Content, shared: set<Path>,
                                 exclusion: map<Path, set<int>>)
    ensures SharedFileIssues(original, restored, shared, exclusion)
         == set i | i in SharedFileIssues(original, restored, shared, map[]) && !Suppressed(exclusion, i)
  {
    forall i | i in SharedFileIssues(original, restored, shared, exclusion)
      ensures i in SharedFileIssues(original, restored, shared, map[]) && !Suppressed(exclusion, i)
    {
      var f :| f in shared && i in FileIssuesAt(original, restored, exclusion, f);
      FileIssuesExcluded(f, original.files[f], restored.files[f], exclusion);
      assert i in FileIssuesAt(original, restored, map[], f);
    }
    forall i | i in SharedFileIssues(original, restored, shared, map[]) && !Suppressed(exclusion, i)
      ensures i in SharedFileIssues(original, restored, shared, exclusion)
    {
      var f :| f in shared && i in FileIssuesAt(original, restored, map[], f);
      FileIssuesExcluded(f, original.files[f], restored.files[f], exclusion);
      assert i in FileIssuesAt(original, restored, exclusion, f);
    }
  }

  /** The exclusion dict removes exactly the findings it names, and nothing else. */
  lemma ExclusionOnlySuppresses(original: Content, restored: Content, origDirs: set<Path>, origFiles: set<Path>,
                                exclusion: map<Path, set<int>>)
    ensures AllIssues(original, restored, origDirs, origFiles, exclusion)
         == set i | i in AllIssues(original, restored, origDirs, origFiles, map[]) && !Suppressed(exclusion, i)
  {
    SharedFileIssuesExcluded(original, restored, origFiles * restored.files.Keys, exclusion);
  }

  // ---------------------------------------------------------------------
  // get_backup_filelist_diff
  // ---------------------------------------------------------------------

  /** The entries of file list a whose paths file list b does not have. */
  function Difference<V>(a: map<string, V>, b: map<string, V>): map<string, V> {
    map f | f in a && f !in b :: a[f]
  }

  /** get_backup_filelist_diff: the loop over the first file list. */
  method BackupFilelistDiff<V>(a: map<string, V>, b: map<string, V>) returns (diff: map<string, V>)
    ensures diff == Difference(a, b)
  {
    diff := map[];
    var todo := a.Keys;
    while todo != {}
      invariant todo <= a.Keys
      invariant diff == map f | f in a.Keys - todo && f !in b :: a[f]
      decreases |todo|
    {
      var file := Pick(todo);
      if file !in b {
        diff := diff[file := a[file]];
      }
      todo := todo - {file};
    }
  }

  /** The difference and the entries both lists share split the first list, and the difference avoids the second. */
  lemma DifferenceSplits<V>(a: map<string, V>, b: map<string, V>)
    ensures Difference(a, b).Keys !! b.Keys
    ensures Difference(a, b) + (map f | f in a && f in b :: a[f]) == a
    ensures Difference(a, b).Keys * Difference(b, a).Keys == {}
  {
  }
}
