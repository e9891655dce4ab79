/** The installer's transaction: every write is recorded first, and a rollback undoes them all. */
module InstallTransaction {
  import opened Sequences

  // ----- the filesystem -----

  /** The components below the root. */
  type Path = seq<string>

  datatype Node = File(content: string) | Dir

  type Fs = map<Path, Node>

  datatype Failure = NotADirectory | NotARegularFile | InputOutput

  predicate IsDir(fs: Fs, p: Path) { p in fs && fs[p] == Dir }

  predicate IsFile(fs: Fs, p: Path) { p in fs && fs[p].File? }

  /** A proper ancestor. */
  predicate Above(q: Path, p: Path) { q < p }

  /** Everything lies in a chain of directories from the root. */
  ghost predicate Tree(fs: Fs) {
    IsDir(fs, []) && forall p, q :: p in fs && Above(q, p) ==> IsDir(fs, q)
  }

  function Parent(p: Path): Path { if p == [] then [] else p[..|p| - 1] }

  lemma AboveParent(q: Path, p: Path)
    requires p != []
    ensures Above(q, p) <==> q == Parent(p) || Above(q, Parent(p))
    ensures |Parent(p)| < |p|
  {
    if q == Parent(p) || Above(q, Parent(p)) {
      assert p == Parent(p) + [p[|p| - 1]];
    }
  }

  /** `p` and its ancestors. */
  ghost function Chain(p: Path): (c: set<Path>)
    ensures forall q :: q in c <==> q == p || Above(q, p)
  {
    var c := set i | 0 <= i <= |p| :: p[..i];
    forall q ensures q in c <==> q == p || Above(q, p) {
      if q == p || Above(q, p) { assert q == p[..|q|]; }
    }
    c
  }

  lemma ChainStep(p: Path)
    requires p != []
    ensures Chain(p) == Chain(Parent(p)) + {p} && p !in Chain(Parent(p)) && |Parent(p)| < |p|
  {
    forall q ensures q in Chain(p) <==> q == p || q in Chain(Parent(p)) { AboveParent(q, p); }
  }

  ghost function MissingOn(fs: Fs, p: Path): set<Path> { set q | q in Chain(p) && q !in fs }

  /** The directories missing from the chain of `p` made. */
  ghost function WithDirs(fs: Fs, p: Path): Fs { fs + map q | q in MissingOn(fs, p) :: Dir }

  lemma WithDirsStep(fs: Fs, p: Path)
    requires p != [] && p !in fs
    ensures WithDirs(fs, p) == WithDirs(fs, Parent(p))[p := Dir]
  {
    ChainStep(p);
  }

  lemma WithDirsThere(fs: Fs, p: Path)
    requires Tree(fs) && p in fs
    ensures WithDirs(fs, p) == fs && WithDirs(fs, Parent(p)) == fs
  {
    if p != [] { ChainStep(p); }
  }

  /** Adding a node below a directory, or replacing a file, keeps the tree. */
  lemma TreeWith(fs: Fs, p: Path, node: Node)
    requires Tree(fs) && !IsDir(fs, p) && p != [] && IsDir(fs, Parent(p))
    ensures Tree(fs[p := node])
  {
    forall x, q | x in fs[p := node] && Above(q, x) ensures IsDir(fs[p := node], q) {
      if x == p { AboveParent(q, p); }
    }
  }

  lemma TreeWithout(fs: Fs, p: Path)
    requires Tree(fs) && p != [] && forall x :: x in fs ==> !Above(p, x)
    ensures Tree(fs - {p})
  {
  }

  /** The same node, or absent in both. */
  predicate Same(fs: Fs, other: Fs, p: Path) {
    (p in fs <==> p in other) && (p in fs && p in other ==> fs[p] == other[p])
  }

  predicate HasEntry(fs: Fs, p: Path) { exists q :: q in fs && Above(p, q) }

  /** The nearest existing node on the chain decides. */
  lemma FoundNearest(fs: Fs, path: Path, cursor: Path)
    requires Tree(fs) && cursor in fs && cursor in Chain(path)
    requires forall q :: q in Chain(path) && q !in Chain(cursor) ==> q !in fs
    ensures Chain(path) - Chain(cursor) == MissingOn(fs, path)
    ensures UnderFile(fs, path) <==> fs[cursor].File?
  {
    assert forall q :: q in Chain(cursor) ==> q in fs;
    if UnderFile(fs, path) {
      var q :| q in fs && fs[q].File? && (q == path || Above(q, path));
      assert q in Chain(path);
    }
  }

  /** What exists is a directory or a regular file, and has no other file above it. */
  lemma FileOrDirectory(fs: Fs, p: Path)
    requires Tree(fs) && p in fs
    ensures UnderFile(fs, p) <==> fs[p].File?
  {
    if UnderFile(fs, p) {
      var q :| q in fs && fs[q].File? && (q == p || Above(q, p));
    }
  }

  lemma UnderParent(fs: Fs, p: Path)
    requires p !in fs && p != []
    ensures UnderFile(fs, p) <==> UnderFile(fs, Parent(p))
  {
    if UnderFile(fs, p) {
      var q :| q in fs && fs[q].File? && (q == p || Above(q, p));
      AboveParent(q, p);
    }
    if UnderFile(fs, Parent(p)) {
      var q :| q in fs && fs[q].File? && (q == Parent(p) || Above(q, Parent(p)));
      AboveParent(q, p);
    }
  }

  lemma NothingBelow(fs: Fs, p: Path)
    requires Tree(fs) && p in fs
    ensures !UnderFile(fs, Parent(p))
  {
    if UnderFile(fs, Parent(p)) {
      var q :| q in fs && fs[q].File? && (q == Parent(p) || Above(q, Parent(p)));
      AboveParent(q, p);
    }
  }

  // ----- the transaction -----

  /** Deepest paths first. */
  predicate Deepest(p: Path, todo: set<Path>) { p in todo && forall q :: q in todo ==> |q| <= |p| }

  lemma {:induction false} DeepestExists(todo: set<Path>)
    requires todo != {}
    ensures exists p :: Deepest(p, todo)
    decreases |todo|
  {
    var p :| p in todo;
    if todo - {p} == {} {
      assert todo == {p};
      assert Deepest(p, todo);
    } else {
      DeepestExists(todo - {p});
      var q :| Deepest(q, todo - {p});
      assert Deepest(if |p| > |q| then p else q, todo);
    }
  }

  /** A regular file at the path or above it: rmdir then fails with "not a directory" instead of "no such file". */
  predicate UnderFile(fs: Fs, p: Path) { exists q :: q in fs && fs[q].File? && (q == p || Above(q, p)) }

  type Backups = seq<(Path, Option<string>)>

  predicate Recorded(files: Backups, p: Path) { exists i :: 0 <= i < |files| && files[i].0 == p }

  /** What every step keeps between the filesystem, the initial one and the records. */
  ghost predicate Undoable(fs: Fs, initial: Fs, files: Backups, missing: set<Path>) {
    && Tree(fs) && Tree(initial)
    && (forall i, j :: 0 <= i < j < |files| ==> files[i].0 != files[j].0)
    && (forall i :: 0 <= i < |files| ==> Backup(initial, files[i]))
    && (forall i :: 0 <= i < |files| ==> Reachable(fs, missing, files[i].0))
    && (forall p :: p in initial && !Recorded(files, p) ==> p in fs && fs[p] == initial[p])
    && (forall p :: IsFile(fs, p) ==> p in initial || Recorded(files, p))
    && (forall p :: IsDir(fs, p) ==> IsDir(initial, p) || p in missing)
    && (forall p :: p in missing ==> !IsDir(initial, p) && (p in initial ==> Recorded(files, p)))
  }

  predicate Backup(initial: Fs, record: (Path, Option<string>)) {
    match record.1
    case Some(content) => record.0 in initial && initial[record.0] == File(content)
    case None => record.0 !in initial
  }

  /** Every ancestor of a recorded file is a directory or recorded as missing. */
  ghost predicate Reachable(fs: Fs, missing: set<Path>, p: Path) {
    p != [] && forall q :: Above(q, p) ==> IsDir(fs, q) || q in missing
  }

  lemma DistinctRecords(fs: Fs, initial: Fs, files: Backups, missing: set<Path>)
    requires Undoable(fs, initial, files, missing)
    ensures forall i, j :: 0 <= i < j < |files| ==> files[i].0 != files[j].0
  {
  }

  /** Directories are never lost. */
  lemma InitialDirs(fs: Fs, initial: Fs, files: Backups, missing: set<Path>, p: Path)
    requires Undoable(fs, initial, files, missing) && IsDir(initial, p)
    ensures IsDir(fs, p)
  {
  }

  lemma NewDirectory(fs: Fs, initial: Fs, files: Backups, missing: set<Path>, p: Path)
    requires Undoable(fs, initial, files, missing) && p !in fs && p in missing && p != [] && IsDir(fs, Parent(p))
    ensures Undoable(fs[p := Dir], initial, files, missing)
  {
    TreeWith(fs, p, Dir);
  }

  lemma NewContent(fs: Fs, initial: Fs, files: Backups, missing: set<Path>, p: Path, content: string)
    requires Undoable(fs, initial, files, missing) && Recorded(files, p) && !IsDir(fs, p)
    requires p != [] && IsDir(fs, Parent(p))
    ensures Undoable(fs[p := File(content)], initial, files, missing)
  {
    TreeWith(fs, p, File(content));
    assert forall q :: IsDir(fs, q) ==> IsDir(fs[p := File(content)], q);
  }

  lemma Unlinked(fs: Fs, initial: Fs, files: Backups, missing: set<Path>, p: Path)
    requires Undoable(fs, initial, files, missing) && Recorded(files, p) && IsFile(fs, p)
    ensures Undoable(fs - {p}, initial, files, missing)
  {
    forall x | x in fs ensures !Above(p, x) {}
    TreeWithout(fs, p);
    assert forall q :: IsDir(fs, q) ==> IsDir(fs - {p}, q);
  }

  lemma MoreMissing(fs: Fs, initial: Fs, files: Backups, missing: set<Path>, p: Path)
    requires Undoable(fs, initial, files, missing) && p !in fs
    ensures Undoable(fs, initial, files, missing + {p})
  {
    if IsDir(initial, p) { InitialDirs(fs, initial, files, missing, p); }
  }

  lemma MoreFiles(fs: Fs, initial: Fs, files: Backups, missing: set<Path>, p: Path)
    requires Undoable(fs, initial, files, missing) && !Recorded(files, p) && !IsDir(fs, p) && Reachable(fs, missing, p)
    ensures var backup := if p in fs then Some(fs[p].content) else None;
            Undoable(fs, initial, files + [(p, backup)], missing)
  {
    var more := files + [(p, if p in fs then Some(fs[p].content) else None)];
    assert more[|files|].0 == p;
    assert forall i :: 0 <= i < |files| ==> more[i] == files[i];
    forall q ensures Recorded(more, q) <==> Recorded(files, q) || q == p {
      if Recorded(files, q) {
        var i :| 0 <= i < |files| && files[i].0 == q;
        assert more[i].0 == q;
      }
    }
    assert IsFile(fs, p) ==> p in initial;
  }

  lemma RecordedFrom(files: Backups, i: nat)
    requires i < |files| && forall j, k :: 0 <= j < k < |files| ==> files[j].0 != files[k].0
    ensures forall p :: Recorded(files[i..], p) <==> Recorded(files[i + 1..], p) || p == files[i].0
    ensures !Recorded(files[i + 1..], files[i].0)
  {
    forall p ensures Recorded(files[i..], p) <==> Recorded(files[i + 1..], p) || p == files[i].0 {
      if Recorded(files[i..], p) {
        var j :| 0 <= j < |files[i..]| && files[i..][j].0 == p;
        if j > 0 { assert files[i + 1..][j - 1].0 == p; }
      }
      if Recorded(files[i + 1..], p) {
        var j :| 0 <= j < |files[i + 1..]| && files[i + 1..][j].0 == p;
        assert files[i..][j + 1].0 == p;
      }
      assert files[i..][0].0 == files[i].0;
    }
  }

  /** After the recorded files of `files` are undone: directories in their place, and all else, stay as in `start`. */
  ghost predicate HalfRestored(fs: Fs, start: Fs, initial: Fs, files: Backups) {
    forall p :: Same(fs, if Recorded(files, p) && !IsDir(start, p) then initial else start, p)
  }

  lemma RestoreStep(fs: Fs, fs': Fs, start: Fs, initial: Fs, files: Backups, i: nat)
    requires i < |files| && forall j, k :: 0 <= j < k < |files| ==> files[j].0 != files[k].0
    requires HalfRestored(fs, start, initial, files[i + 1..])
    requires var p := files[i].0;
             fs' == if IsDir(fs, p) then fs else if p in initial then fs[p := initial[p]] else fs - {p}
    ensures HalfRestored(fs', start, initial, files[i..])
    ensures IsDir(fs, files[i].0) <==> IsDir(start, files[i].0)
  {
    RecordedFrom(files, i);
    var path := files[i].0;
    assert Same(fs, start, path);
    forall p ensures Same(fs', if Recorded(files[i..], p) && !IsDir(start, p) then initial else start, p) {
      assert Same(fs, if Recorded(files[i + 1..], p) && !IsDir(start, p) then initial else start, p);
    }
  }

  /** Removing directories neither adds nor hides files. */
  lemma SameFiles(fs: Fs, before: Fs, p: Path)
    requires forall q :: IsFile(fs, q) <==> IsFile(before, q)
    requires forall q :: q in fs && q in before ==> fs[q] == before[q]
    ensures UnderFile(fs, p) <==> UnderFile(before, p)
  {
    if UnderFile(fs, p) {
      var q :| q in fs && fs[q].File? && (q == p || Above(q, p));
      assert IsFile(before, q);
    }
    if UnderFile(before, p) {
      var q :| q in before && before[q].File? && (q == p || Above(q, p));
      assert IsFile(fs, q);
    }
  }

  class Transaction {
    var fs: Fs
    var files: Backups
    var missing: set<Path>
    ghost var initial: Fs

    /** No file operation fails by itself. */
    const reliable: bool

    ghost predicate Valid()
      reads this
    {
      Undoable(fs, initial, files, missing)
    }

    /** The outcome for a target below a regular file: an error, with the directories on the way already recorded. */
    ghost predicate Refused(path: Path, r: Result<(), Failure>, missingBefore: set<Path>, filesBefore: Backups)
      reads this
    {
      && r == Err(NotADirectory) && files == filesBefore
      && missing == missingBefore + MissingOn(fs, Parent(path))
    }

    constructor (start: Fs, reliable: bool)
      requires Tree(start)
      ensures Valid() && fs == initial == start && files == [] && missing == {} && this.reliable == reliable
    {
      fs, files, missing, initial := start, [], {}, start;
      this.reliable := reliable;
    }

    /** The directories from `path` upward that do not exist. */
    method RecordMissingDirectories(path: Path) returns (r: Result<(), Failure>)
      requires Valid()
      modifies this`missing
      ensures Valid() && missing == old(missing) + MissingOn(fs, path)
      ensures r == if UnderFile(fs, path) then Err(NotADirectory) else Ok(())
    {
      var cursor := path;
      while cursor !in fs
        invariant Valid() && Chain(cursor) <= Chain(path)
        invariant forall q :: q in Chain(path) && q !in Chain(cursor) ==> q !in fs
        invariant missing == old(missing) + (Chain(path) - Chain(cursor))
        decreases |cursor|
      {
        MoreMissing(fs, initial, files, missing, cursor);
        missing := missing + {cursor};
        ChainStep(cursor);
        cursor := Parent(cursor);
      }
      FoundNearest(fs, path, cursor);
      return if fs[cursor] == Dir then Ok(()) else Err(NotADirectory);
    }

    method RecordDirectory(path: Path) returns (r: Result<(), Failure>)
      requires Valid()
      modifies this`missing
      ensures Valid() && old(missing) <= missing <= old(missing) + Chain(path)
      ensures r.Ok? ==> forall q :: q in Chain(path) && q !in fs ==> q in missing
      ensures r.Ok? <==> !UnderFile(fs, path)
    {
      if path in fs {
        FileOrDirectory(fs, path);
        return if fs[path] == Dir then Ok(()) else Err(NotADirectory);
      }
      r := RecordMissingDirectories(path);
    }

    method RecordFile(path: Path) returns (r: Result<(), Failure>)
      requires Valid()
      modifies this`missing, this`files
      ensures Valid() && old(missing) <= missing <= old(missing) + Chain(Parent(path))
      ensures forall p :: Recorded(files, p) ==> Recorded(old(files), p) || p == path
      ensures r.Ok? ==> Recorded(files, path)
      ensures reliable ==> (r.Ok? <==> Recorded(old(files), path) || (!UnderFile(fs, Parent(path)) && !IsDir(fs, path)))
      ensures UnderFile(fs, Parent(path)) && !Recorded(old(files), path) ==> Refused(path, r, old(missing), old(files))
    {
      if exists i :: 0 <= i < |files| && files[i].0 == path {
        return Ok(());
      }
      r := RecordMissingDirectories(Parent(path));
      if r.Err? {
        return;
      }
      if IsDir(fs, path) {
        return Err(NotARegularFile);
      }
      if path in fs {
        var copied: bool := *;
        if !reliable && !copied {
          return Err(InputOutput);
        }
      }
      assert Reachable(fs, missing, path) by {
        forall q | Above(q, path) ensures IsDir(fs, q) || q in missing { AboveParent(q, path); }
      }
      MoreFiles(fs, initial, files, missing, path);
      ghost var before := files;
      files := files + [(path, if path in fs then Some(fs[path].content) else None)];
      assert files[|before|].0 == path;
      forall p | Recorded(files, p) ensures Recorded(before, p) || p == path {
        var i :| 0 <= i < |files| && files[i].0 == p;
        if i < |before| { assert before[i].0 == p; }
      }
    }

    /** mkdir with parents=True and exist_ok=True: every missing directory of the chain in turn; any of them may fail. */
    method MakeDirs(path: Path) returns (r: Result<(), Failure>)
      requires Valid() && forall q :: q in Chain(path) && q !in fs ==> q in missing
      modifies this`fs
      ensures Valid()
      ensures r.Ok? ==> fs == WithDirs(old(fs), path) && IsDir(fs, path)
      ensures IsDir(old(fs), path) ==> r.Ok?
      ensures reliable ==> (r.Ok? <==> !UnderFile(old(fs), path))
      decreases |path|
    {
      if path in fs {
        FileOrDirectory(fs, path);
        WithDirsThere(fs, path);
        return if fs[path] == Dir then Ok(()) else Err(NotADirectory);
      }
      ChainStep(path);
      WithDirsStep(fs, path);
      UnderParent(fs, path);
      r := MakeDirs(Parent(path));
      if r.Err? {
        return;
      }
      var made: bool := *;
      if !reliable && !made {
        return Err(InputOutput);
      }
      NewDirectory(fs, initial, files, missing, path);
      fs := fs[path := Dir];
    }

    /** write: a failing write may leave any content behind. */
    method Write(path: Path, text: string) returns (r: Result<(), Failure>)
      requires Valid()
      modifies this`fs, this`missing, this`files
      ensures Valid() && old(missing) <= missing <= old(missing) + Chain(Parent(path))
      ensures forall p :: Recorded(files, p) ==> Recorded(old(files), p) || p == path
      ensures r.Ok? ==> fs == WithDirs(old(fs), Parent(path))[path := File(text)]
      ensures reliable ==> (r.Ok? <==> !IsDir(old(fs), path) && !UnderFile(old(fs), Parent(path)))
      ensures UnderFile(old(fs), Parent(path)) && !Recorded(old(files), path) ==>
                fs == old(fs) && Refused(path, r, old(missing), old(files))
    {
      if path in fs {
        NothingBelow(fs, path);
        if fs[path] == Dir {
          return Err(NotARegularFile);
        }
        if fs[path].content == text {
          WithDirsThere(fs, path);
          assert fs == fs[path := File(text)];
          return Ok(());
        }
      }
      r := RecordFile(path);
      if r.Ok? {
        r := Put(path, text);
      }
    }

    /** The recorded file written, in directories made for it. */
    method Put(path: Path, text: string) returns (r: Result<(), Failure>)
      requires Valid() && Recorded(files, path) && !IsDir(fs, path)
      modifies this`fs
      ensures Valid()
      ensures r.Ok? ==> fs == WithDirs(old(fs), Parent(path))[path := File(text)]
      ensures reliable ==> (r.Ok? <==> !UnderFile(old(fs), Parent(path)))
    {
      assert Reachable(fs, missing, path);
      ChainStep(path);
      r := MakeDirs(Parent(path));
      if r.Err? {
        return;
      }
      var written: bool := *;
      if !reliable && !written {
        var torn: string := *;
        NewContent(fs, initial, files, missing, path, torn);
        fs := fs[path := File(torn)];
        return Err(InputOutput);
      }
      NewContent(fs, initial, files, missing, path, text);
      fs := fs[path := File(text)];
    }

    method RemoveFile(path: Path) returns (r: Result<(), Failure>)
      requires Valid()
      modifies this`fs, this`missing, this`files
      ensures Valid() && old(missing) <= missing <= old(missing) + Chain(Parent(path))
      ensures forall p :: Recorded(files, p) ==> Recorded(old(files), p) || p == path
      ensures r.Ok? ==> fs == old(fs) - {path}
      ensures reliable ==> (r.Ok? <==> !IsDir(old(fs), path))
    {
      if path !in fs {
        return Ok(());
      }
      NothingBelow(fs, path);
      if fs[path] == Dir {
        return Err(NotARegularFile);
      }
      r := RecordFile(path);
      if r.Err? {
        return;
      }
      var removed: bool := *;
      if !reliable && !removed {
        return Err(InputOutput);
      }
      Unlinked(fs, initial, files, missing, path);
      fs := fs - {path};
    }

    /** record_directory followed by mkdir, as copy_sources does. */
    method AddDirectory(path: Path) returns (r: Result<(), Failure>)
      requires Valid()
      modifies this`fs, this`missing
      ensures Valid() && old(missing) <= missing <= old(missing) + Chain(path)
      ensures r.Ok? ==> fs == WithDirs(old(fs), path)
      ensures reliable ==> (r.Ok? <==> !UnderFile(old(fs), path))
    {
      r := RecordDirectory(path);
      if r.Err? {
        return;
      }
      r := MakeDirs(path);
    }

    /** One record undone; false when a directory stands where the file was. */
    method RestoreFile(record: (Path, Option<string>)) returns (ok: bool)
      requires Valid() && record in files
      modifies this`fs
      ensures Valid() && ok == !IsDir(old(fs), record.0)
      ensures fs == if !ok then old(fs) else if record.0 in initial then old(fs)[record.0 := initial[record.0]]
                    else old(fs) - {record.0}
    {
      var (path, backup) := record;
      ghost var i :| 0 <= i < |files| && files[i] == record;
      assert Backup(initial, files[i]) && Reachable(fs, missing, path) && Recorded(files, path);
      if backup.None? {
        if path in fs {
          if fs[path] == Dir {
            return false;
          }
          Unlinked(fs, initial, files, missing, path);
          fs := fs - {path};
        }
        return true;
      }
      if IsDir(fs, path) {
        return false;
      }
      AboveParent(Parent(path), path);
      InitialDirs(fs, initial, files, missing, Parent(path));
      WithDirsThere(fs, Parent(path));
      forall q | q in Chain(Parent(path)) ensures q in fs {}
      var made := MakeDirs(Parent(path));
      NewContent(fs, initial, files, missing, path, backup.value);
      fs := fs[path := File(backup.value)];
      return true;
    }

    /** The files, last recorded first. */
    method RestoreFiles() returns (failed: bool)
      requires Valid()
      modifies this`fs
      ensures Valid() && HalfRestored(fs, old(fs), initial, files)
      ensures failed <==> exists i :: 0 <= i < |files| && IsDir(old(fs), files[i].0)
    {
      failed := false;
      var i := |files|;
      while i > 0
        invariant 0 <= i <= |files| && Valid() && HalfRestored(fs, old(fs), initial, files[i..])
        invariant failed <==> exists j :: i <= j < |files| && IsDir(old(fs), files[j].0)
      {
        i := i - 1;
        ghost var before := fs;
        DistinctRecords(fs, initial, files, missing);
        var ok := RestoreFile(files[i]);
        RestoreStep(before, fs, old(fs), initial, files, i);
        failed := failed || !ok;
      }
      assert files[0..] == files;
    }

    /** rmdir: only an empty directory goes; a file on the way is an error, and only an absent path is not. */
    method Rmdir(path: Path) returns (failed: bool)
      requires Tree(fs) && path != []
      modifies this`fs
      ensures fs == if IsDir(old(fs), path) && !HasEntry(old(fs), path) then old(fs) - {path} else old(fs)
      ensures failed <==> UnderFile(old(fs), path) || (IsDir(old(fs), path) && HasEntry(old(fs), path))
    {
      if IsDir(fs, path) {
        if HasEntry(fs, path) {
          return true;
        }
        fs := fs - {path};
        return false;
      }
      return UnderFile(fs, path);
    }

    /** The recorded directories, deepest first; none of them is ever met non-empty. */
    method RemoveDirectories() returns (failed: bool)
      requires Tree(fs) && forall p :: p in missing ==> p != []
      requires forall p, q :: p in missing && q in fs && Above(p, q) ==> IsDir(fs, q) && q in missing
      modifies this`fs
      ensures fs == old(fs) - set p | p in missing && IsDir(old(fs), p)
      ensures failed <==> exists p :: p in missing && UnderFile(old(fs), p)
    {
      failed := false;
      var todo := missing;
      while todo != {}
        invariant todo <= missing && Tree(fs)
        invariant fs == old(fs) - set p | p in missing - todo && IsDir(old(fs), p)
        invariant failed <==> exists p :: p in missing - todo && UnderFile(old(fs), p)
      {
        DeepestExists(todo);
        var path :| Deepest(path, todo);
        assert !HasEntry(fs, path) by {
          forall q | q in fs ensures !Above(path, q) {}
        }
        ghost var before := fs;
        SameFiles(before, old(fs), path);
        var refused := Rmdir(path);
        TreeWithout(before, path);
        failed := failed || refused;
        todo := todo - {path};
      }
    }

    /**
     _rollback. What was there before the transaction is there again, and nothing else, except the files in whose place
     a directory stands. It reports a failure exactly when a directory stands in the place of a recorded file, or when
     a directory that was recorded as missing lies under a regular file.
     */
    method Rollback() returns (failed: bool)
      requires Valid()
      modifies this`fs
      ensures fs == Recovered(initial, old(fs))
      ensures failed <==> (exists i :: 0 <= i < |files| && IsDir(old(fs), files[i].0))
                          || exists p :: p in missing && UnderFile(fs, p)
    {
      failed := RestoreFiles();
      ghost var restored := fs;
      RestoredShape(restored, old(fs), initial, files, missing);
      var refused := RemoveDirectories();
      RecoveredShape(restored, old(fs), initial, files, missing);
      forall p ensures UnderFile(fs, p) <==> UnderFile(restored, p) { SameFiles(fs, restored, p); }
      failed := failed || refused;
    }
  }

  /** The initial filesystem without the files that a directory has replaced. */
  function Recovered(initial: Fs, fs: Fs): Fs {
    map p | p in initial && !(IsFile(initial, p) && IsDir(fs, p)) :: initial[p]
  }

  lemma RestoredShape(fs: Fs, start: Fs, initial: Fs, files: Backups, missing: set<Path>)
    requires Undoable(fs, initial, files, missing) && HalfRestored(fs, start, initial, files)
    ensures forall p :: p in missing ==> p != []
    ensures forall p, q :: p in missing && q in fs && Above(p, q) ==> IsDir(fs, q) && q in missing
  {
    forall p, q | p in missing && q in fs && Above(p, q) ensures IsDir(fs, q) && q in missing {
      assert q !in initial;
      assert Same(fs, if Recorded(files, q) && !IsDir(start, q) then initial else start, q);
    }
  }

  lemma RecoveredShape(fs: Fs, start: Fs, initial: Fs, files: Backups, missing: set<Path>)
    requires Undoable(fs, initial, files, missing) && HalfRestored(fs, start, initial, files)
    ensures (fs - set p | p in missing && IsDir(fs, p)) == Recovered(initial, start)
  {
    var after := fs - set p | p in missing && IsDir(fs, p);
    var goal := Recovered(initial, start);
    forall p ensures Same(after, goal, p) {
      assert Same(fs, if Recorded(files, p) && !IsDir(start, p) then initial else start, p);
    }
    assert forall p :: p in after <==> p in goal by {
      forall p ensures p in after <==> p in goal { assert Same(after, goal, p); }
    }
    forall p | p in after ensures after[p] == goal[p] { assert Same(after, goal, p); }
  }

  /** Exactly the replaced files are what a rollback can lose. */
  lemma RestoredIff(initial: Fs, fs: Fs)
    ensures Recovered(initial, fs) == initial <==> forall p :: IsFile(initial, p) ==> !IsDir(fs, p)
  {
    if Recovered(initial, fs) == initial {
      forall p | IsFile(initial, p) ensures !IsDir(fs, p) { assert p in Recovered(initial, fs); }
    }
  }

  // ----- whole runs -----

  datatype Op = WriteOp(path: Path, text: string) | RemoveOp(path: Path) | DirectoryOp(path: Path)

  /** The directory whose chain the operation needs. */
  function Target(op: Op): Path { if op.DirectoryOp? then op.path else Parent(op.path) }

  ghost function Effect(fs: Fs, op: Op): Fs {
    match op
    case WriteOp(path, text) => WithDirs(fs, Parent(path))[path := File(text)]
    case RemoveOp(path) => fs - {path}
    case DirectoryOp(path) => WithDirs(fs, path)
  }

  ghost function Installed(fs: Fs, ops: seq<Op>): Fs
    decreases |ops|
  {
    if ops == [] then fs else Effect(Installed(fs, ops[..|ops| - 1]), ops[|ops| - 1])
  }

  /** No operation needs a directory where another one has a file. */
  ghost predicate Separate(ops: seq<Op>) {
    forall i, j :: 0 <= i < |ops| && 0 <= j < |ops| && !ops[i].DirectoryOp? ==> ops[i].path !in Chain(Target(ops[j]))
  }

  datatype Outcome = Committed | RolledBack | RollbackFailed

  /** What the records of a run are made of. */
  ghost predicate RecordsOf(files: Backups, missing: set<Path>, ops: seq<Op>) {
    && (forall p :: Recorded(files, p) ==> exists i :: 0 <= i < |ops| && !ops[i].DirectoryOp? && ops[i].path == p)
    && (forall p :: p in missing ==> exists i :: 0 <= i < |ops| && p in Chain(Target(ops[i])))
  }

  /** What an operation asks of the filesystem. */
  predicate Admissible(fs: Fs, op: Op) {
    match op
    case WriteOp(path, _) => !IsDir(fs, path) && !UnderFile(fs, Parent(path))
    case RemoveOp(path) => !IsDir(fs, path)
    case DirectoryOp(path) => !UnderFile(fs, path)
  }

  ghost predicate AdmissibleAt(start: Fs, ops: seq<Op>, i: nat)
    requires i < |ops|
  {
    Admissible(Installed(start, ops[..i]), ops[i])
  }

  /** Each of the first operations is possible after those before it. */
  ghost predicate AdmissibleUpTo(start: Fs, ops: seq<Op>, n: nat)
    requires n <= |ops|
  {
    forall i :: 0 <= i < n ==> AdmissibleAt(start, ops, i)
  }

  method Perform(t: Transaction, op: Op) returns (r: Result<(), Failure>)
    requires t.Valid()
    modifies t`fs, t`files, t`missing
    ensures t.Valid()
    ensures t.missing <= old(t.missing) + Chain(Target(op))
    ensures forall p :: Recorded(t.files, p) ==> Recorded(old(t.files), p) || (!op.DirectoryOp? && p == op.path)
    ensures r.Ok? ==> t.fs == Effect(old(t.fs), op)
    ensures t.reliable ==> (r.Ok? <==> Admissible(old(t.fs), op))
  {
    match op {
      case WriteOp(path, text) => r := t.Write(path, text);
      case RemoveOp(path) => r := t.RemoveFile(path);
      case DirectoryOp(path) => r := t.AddDirectory(path);
    }
  }

  lemma RecordsStep(files: Backups, missing: set<Path>, files': Backups, missing': set<Path>, ops: seq<Op>, i: nat)
    requires i < |ops| && RecordsOf(files, missing, ops) && missing' <= missing + Chain(Target(ops[i]))
    requires forall p :: Recorded(files', p) ==> Recorded(files, p) || (!ops[i].DirectoryOp? && p == ops[i].path)
    ensures RecordsOf(files', missing', ops)
  {
  }

  /** What the records say about files and directories, the part of `Undoable` that separate operations build on. */
  ghost predicate BackedUp(fs: Fs, initial: Fs, files: Backups, missing: set<Path>) {
    && (forall i :: 0 <= i < |files| ==> Backup(initial, files[i]))
    && (forall p :: IsDir(fs, p) ==> IsDir(initial, p) || p in missing)
    && (forall p :: p in missing ==> !IsDir(initial, p) && (p in initial ==> Recorded(files, p)))
  }

  /** A transaction in the middle of these operations, which keep files and directories apart. */
  ghost predicate Underway(fs: Fs, start: Fs, files: Backups, missing: set<Path>, ops: seq<Op>) {
    BackedUp(fs, start, files, missing) && RecordsOf(files, missing, ops) && Separate(ops)
  }

  lemma NotBoth(files: Backups, missing: set<Path>, ops: seq<Op>, p: Path)
    requires RecordsOf(files, missing, ops) && Separate(ops) && p in missing
    ensures !Recorded(files, p)
  {
    var j :| 0 <= j < |ops| && p in Chain(Target(ops[j]));
    forall k | 0 <= k < |ops| && !ops[k].DirectoryOp? ensures ops[k].path != p {
      assert ops[k].path !in Chain(Target(ops[j]));
    }
  }

  lemma SeparateIsSafe(fs: Fs, initial: Fs, files: Backups, missing: set<Path>, ops: seq<Op>, p: Path)
    requires Underway(fs, initial, files, missing, ops) && (Recorded(files, p) || IsFile(initial, p))
    ensures !IsDir(fs, p)
  {
    if Recorded(files, p) {
      var i :| 0 <= i < |files| && files[i].0 == p;
      assert Backup(initial, files[i]);
      if p in missing { NotBoth(files, missing, ops, p); }
    }
  }

  /** No operation needs a missing directory that would lie under one of the initial files. */
  ghost predicate Grounded(start: Fs, ops: seq<Op>) {
    forall i, p :: 0 <= i < |ops| && p in Chain(Target(ops[i])) && p !in start ==> !UnderFile(start, p)
  }

  lemma SeparateRollback(fs: Fs, start: Fs, files: Backups, missing: set<Path>, ops: seq<Op>, failed: bool)
    requires Underway(fs, start, files, missing, ops)
    requires failed ==> (exists i :: 0 <= i < |files| && IsDir(fs, files[i].0))
                        || exists p :: p in missing && UnderFile(Recovered(start, fs), p)
    ensures Recovered(start, fs) == start
    ensures failed ==> !Grounded(start, ops)
  {
    forall p | Recorded(files, p) || IsFile(start, p) ensures !IsDir(fs, p) {
      SeparateIsSafe(fs, start, files, missing, ops, p);
    }
    RestoredIff(start, fs);
    if failed {
      forall i | 0 <= i < |files| ensures !IsDir(fs, files[i].0) { assert Recorded(files, files[i].0); }
      var p :| p in missing && UnderFile(start, p);
      NotBoth(files, missing, ops, p);
    }
  }

  lemma StillBackedUp(fs: Fs, start: Fs, files: Backups, missing: set<Path>)
    requires Undoable(fs, start, files, missing)
    ensures BackedUp(fs, start, files, missing)
  {
  }

  /** The rollback of a run that does not commit. */
  method Abort(t: Transaction, ghost ops: seq<Op>) returns (outcome: Outcome)
    requires t.Valid() && RecordsOf(t.files, t.missing, ops)
    modifies t`fs
    ensures outcome.RolledBack? || outcome.RollbackFailed?
    ensures Separate(ops) ==> t.fs == t.initial
    ensures outcome.RollbackFailed? && Separate(ops) ==> !Grounded(t.initial, ops)
  {
    ghost var (fs, files, missing) := (t.fs, t.files, t.missing);
    StillBackedUp(fs, t.initial, files, missing);
    var failed := t.Rollback();
    if Separate(ops) {
      SeparateRollback(fs, t.initial, files, missing, ops, failed);
    }
    outcome := if failed then RollbackFailed else RolledBack;
  }

  lemma InstalledStep(start: Fs, ops: seq<Op>, i: nat)
    requires i < |ops|
    ensures Installed(start, ops[..i + 1]) == Effect(Installed(start, ops[..i]), ops[i])
  {
    assert ops[..i + 1][..i] == ops[..i];
  }

  lemma AdmissibleStep(start: Fs, ops: seq<Op>, i: nat)
    requires i < |ops|
    ensures AdmissibleUpTo(start, ops, i + 1) <==> AdmissibleUpTo(start, ops, i) && AdmissibleAt(start, ops, i)
  {
  }

  lemma AdmissiblePrefix(start: Fs, ops: seq<Op>, i: nat)
    requires i <= |ops| && AdmissibleUpTo(start, ops, |ops|)
    ensures AdmissibleUpTo(start, ops, i)
  {
  }

  /** One operation more; something else than the operation may stop the run here. */
  method PerformAt(t: Transaction, ops: seq<Op>, i: nat) returns (ok: bool)
    requires i < |ops| && t.Valid() && t.fs == Installed(t.initial, ops[..i]) && RecordsOf(t.files, t.missing, ops)
    modifies t`fs, t`files, t`missing
    ensures t.Valid() && RecordsOf(t.files, t.missing, ops)
    ensures ok ==> t.fs == Installed(t.initial, ops[..i + 1])
    ensures t.reliable ==> (ok <==> AdmissibleAt(t.initial, ops, i))
  {
    ghost var (files, missing) := (t.files, t.missing);
    InstalledStep(t.initial, ops, i);
    var r := Perform(t, ops[i]);
    RecordsStep(files, missing, t.files, t.missing, ops, i);
    var other: bool := *;
    ok := r.Ok? && (t.reliable || !other);
  }

  /** The operations in order, until one fails or something else aborts the run. */
  method PerformAll(t: Transaction, ops: seq<Op>) returns (aborted: bool)
    requires t.Valid() && t.fs == t.initial && RecordsOf(t.files, t.missing, ops)
    modifies t`fs, t`files, t`missing
    ensures t.Valid() && RecordsOf(t.files, t.missing, ops)
    ensures !aborted ==> t.fs == Installed(t.initial, ops)
    ensures t.reliable ==> (aborted <==> !AdmissibleUpTo(t.initial, ops, |ops|))
  {
    var i := 0;
    while i < |ops|
      invariant i <= |ops| && t.Valid() && RecordsOf(t.files, t.missing, ops)
      invariant t.fs == Installed(t.initial, ops[..i])
      invariant t.reliable ==> AdmissibleUpTo(t.initial, ops, i)
    {
      AdmissibleStep(t.initial, ops, i);
      var ok := PerformAt(t, ops, i);
      if !ok {
        if AdmissibleUpTo(t.initial, ops, |ops|) { AdmissiblePrefix(t.initial, ops, i + 1); }
        return true;
      }
      i := i + 1;
    }
    assert ops[..|ops|] == ops;
    return false;
  }

  /**
   An installer run: operations in order until one fails or something else aborts it, and then the rollback. A run that
   commits has done all of them. Any other run of separate operations leaves the filesystem as it was, and when they are
   grounded too, the rollback says so. With nothing failing by itself and nothing else aborting it, the run commits if and
   only if every operation is possible in its turn.
   */
  method RunInstaller(start: Fs, ops: seq<Op>, reliable: bool) returns (after: Fs, outcome: Outcome)
    requires Tree(start)
    ensures outcome.Committed? ==> after == Installed(start, ops)
    ensures reliable ==> (outcome.Committed? <==> AdmissibleUpTo(start, ops, |ops|))
    ensures !outcome.Committed? && Separate(ops) ==> after == start
    ensures outcome.RollbackFailed? && Separate(ops) ==> !Grounded(start, ops)
  {
    var t := new Transaction(start, reliable);
    var aborted := PerformAll(t, ops);
    if !aborted {
      return t.fs, Committed;
    }
    outcome := Abort(t, ops);
    return t.fs, outcome;
  }

  // ----- where the rollback falls short -----

  /** Removing a file and then writing below its path puts a directory in its place: a rollback then loses the file. */
  lemma ReplacementLoses(start: Fs, path: Path, name: string, text: string)
    requires Tree(start) && IsFile(start, path)
    ensures var fs := Installed(start, [RemoveOp(path), WriteOp(path + [name], text)]);
            IsDir(fs, path) && path !in Recovered(start, fs) && Recovered(start, fs) != start
  {
    var ops := [RemoveOp(path), WriteOp(path + [name], text)];
    assert ops[..1] == [RemoveOp(path)] && ops[..1][..0] == [];
    assert Installed(start, ops[..1]) == Effect(Installed(start, []), RemoveOp(path));
    assert Parent(path + [name]) == path;
  }

  /** A write two levels below a regular file changes nothing, and yet its rollback reports a failure. */
  method RefusedWriteFailsRollback(start: Fs, path: Path, middle: string, name: string, text: string)
    returns (after: Fs, failed: bool)
    requires Tree(start) && IsFile(start, path)
    ensures after == start && failed
  {
    var t := new Transaction(start, false);
    var target := path + [middle, name];
    var directory := path + [middle];
    assert Parent(target) == directory;
    assert UnderFile(start, directory) by { assert Above(path, directory); }
    var r := t.Write(target, text);
    assert directory !in start;
    assert directory in Chain(directory) && directory in t.missing;
    RestoredIff(start, t.fs);
    failed := t.Rollback();
    after := t.fs;
  }
}
