/**
 * The file operations of the tree provider (`FileSystemProvider`) as the
 * editor calls them: writing, deleting and renaming with the editor's
 * create/overwrite/recursive options, creating a directory, the lookup of a
 * named child, and the typing of watch events.
 */
module TreeProvider {
  import opened Base
  import opened Paths
  import opened FileSystem
  import opened Listing

  /** The kinds of change a watcher reports */
  datatype FileChangeType = Changed | Created | Deleted

  /**
   * The type of a watch event for `filename` below `root`: a content change
   * is `Changed`; any other event is `Created` when the path exists
   * afterwards and `Deleted` when it does not.
   */
  function EventType(fs: Fs, event: string, root: Path, filename: string): (r: FileChangeType)
    ensures r == Changed <==> event == "change"
    ensures r == Created <==> event != "change" && Exists(fs, Join(root, filename))
    ensures r == Deleted <==> event != "change" && !Exists(fs, Join(root, filename))
  {
    if event == "change" then Changed
    else if Exists(fs, Join(root, filename)) then Created
    else Deleted
  }

  /** A path that was just written is reported as created. */
  lemma EventAfterWrite(fs: Fs, event: string, root: Path, filename: string, content: seq<bv8>)
    requires event != "change"
    requires WriteFile(fs, Join(root, filename), content).Ok?
    ensures EventType(WriteFile(fs, Join(root, filename), content).value, event, root, filename) == Created
  {
  }

  /** A path that was just removed is reported as deleted. */
  lemma EventAfterRemove(fs: Fs, event: string, root: Path, filename: string)
    requires event != "change"
    requires !EndsWithSep(Join(root, filename))
    ensures EventType(RemoveTree(fs, Join(root, filename)), event, root, filename) == Deleted
  {
  }

  /**
   * `_writeFile`: a missing file fails unless `create` is set, and then its
   * folder is created first; an existing one fails unless `overwrite` is set.
   */
  function WriteFileResult(fs: Fs, p: Path, content: seq<bv8>, create: bool, overwrite: bool): (r: Outcome)
    ensures !Exists(fs, p) && !create ==> r == Outcome(fs, Some(FileNotFound))
    ensures Exists(fs, p) && !overwrite ==> r == Outcome(fs, Some(FileExists))
    ensures Exists(fs, p) && overwrite ==> r == Lift(fs, WriteFile(fs, p, content))
    ensures !Exists(fs, p) && create && MakeDirs(fs, Dirname(p)).Err? ==> r == Outcome(fs, Some(FileExists))
    ensures !Exists(fs, p) && create && MakeDirs(fs, Dirname(p)).Ok? ==>
      var made := MakeDirs(fs, Dirname(p)).value; r == Lift(made, WriteFile(made, p, content))
    ensures r.err == None ==> p in r.fs && r.fs[p] == FileNode(content)
    ensures r.err == None ==> fs.Keys <= r.fs.Keys && ParentIsDir(r.fs, p)
    ensures r.err == None ==> forall k :: k in r.fs && k !in fs && k != p ==> r.fs[k].DirNode?
    ensures r.err == None ==> forall k :: k in fs && k != p && !fs[k].DirNode? ==> r.fs[k] == fs[k]
  {
    if !Exists(fs, p) then
      if !create then Outcome(fs, Some(FileNotFound))
      else
        match MakeDirs(fs, Dirname(p))
        case Err(e) => Outcome(fs, Some(MassageError(e)))
        case Ok(f) => Lift(f, WriteFile(f, p, content))
    else if !overwrite then Outcome(fs, Some(FileExists))
    else Lift(fs, WriteFile(fs, p, content))
  }

  /** Creating a file whose folders can be made succeeds, with the content written. */
  lemma WriteCreatesFile(fs: Fs, p: Path, content: seq<bv8>, overwrite: bool)
    requires !Exists(fs, p) && LastIndexOfChar(p, Sep) > 0
    requires MakeDirs(fs, Dirname(p)).Ok?
    ensures WriteFileResult(fs, p, content, true, overwrite).err == None
    ensures WriteFileResult(fs, p, content, true, overwrite).fs[p] == FileNode(content)
  {
    var f := MakeDirs(fs, Dirname(p)).value;
    assert |Dirname(p)| < |p|;
    assert p !in f;
  }

  /** Overwriting a directory fails with `FileIsADirectory` and changes nothing. */
  lemma WriteOntoDirectory(fs: Fs, p: Path, content: seq<bv8>, create: bool)
    requires p in fs && fs[p].DirNode?
    ensures WriteFileResult(fs, p, content, create, true) == Outcome(fs, Some(FileIsADirectory))
  {
  }

  /** `writeFile` */
  method WriteFileOp(disk: Disk, p: Path, content: seq<bv8>, create: bool, overwrite: bool) returns (err: Option<FsError>)
    modifies disk
    ensures Outcome(disk.fs, err) == WriteFileResult(old(disk.fs), p, content, create, overwrite)
  {
    var present := Exists(disk.fs, p);
    if !present {
      if !create {
        return Some(FileNotFound);
      }
      var e := disk.MakeDirectories(Dirname(p));
      if e.Some? {
        return Some(MassageError(e.value));
      }
    } else if !overwrite {
      return Some(FileExists);
    }
    var e := disk.Write(p, content);
    err := if e.Some? then Some(MassageError(e.value)) else None;
  }

  /** `delete`: recursive removal never fails; otherwise a single unlink */
  function DeleteResult(fs: Fs, p: Path, recursive: bool): (r: Outcome)
    ensures recursive ==> r.err == None && forall k :: k in r.fs <==> k in fs && !Under(k, p)
    ensures !recursive && p !in fs ==> r == Outcome(fs, Some(FileNotFound))
    ensures !recursive && p in fs && fs[p].DirNode? ==> r == Outcome(fs, Some(NoPermissions))
    ensures !recursive && p in fs && !fs[p].DirNode? ==> r.err == None && p !in r.fs
    ensures r.err == None ==> forall k :: k in r.fs <==> k in fs && !Under(k, p)
    ensures r.err == None ==> forall k :: k in r.fs && k != Dirname(p) ==> r.fs[k] == fs[k]
  {
    if recursive then Outcome(RemoveTree(fs, p), None) else Lift(fs, Unlink(fs, p))
  }

  /** `delete` */
  method DeleteOp(disk: Disk, p: Path, recursive: bool) returns (err: Option<FsError>)
    modifies disk
    ensures Outcome(disk.fs, err) == DeleteResult(old(disk.fs), p, recursive)
  {
    if recursive {
      disk.RemoveRecursive(p);
      return None;
    }
    var e := disk.Remove(p);
    err := if e.Some? then Some(MassageError(e.value)) else None;
  }

  /**
   * `_rename`: an existing target fails unless `overwrite` is set, and then
   * it is removed first; then the move, creating a missing parent.
   */
  function RenameResult(fs: Fs, a: Path, b: Path, overwrite: bool): (r: Outcome)
    ensures Exists(fs, b) && !overwrite ==> r == Outcome(fs, Some(FileExists))
    ensures !Exists(fs, b) ==> r == MoveInto(fs, a, b)
  {
    if Exists(fs, b) && !overwrite then Outcome(fs, Some(FileExists))
    else MoveInto(if Exists(fs, b) then RemoveTree(fs, b) else fs, a, b)
  }

  /** Overwriting an existing file replaces it with the moved entry. */
  lemma RenameOverwritesFile(fs: Fs, a: Path, b: Path)
    requires a in fs && !fs[a].DirNode? && !Under(a, b) && !Under(b, a)
    requires b in fs && ParentIsDir(fs, b) && LastIndexOfChar(b, Sep) > 0 && !EndsWithSep(b)
    ensures RenameResult(fs, a, b, true).err == None
    ensures RenameResult(fs, a, b, true).fs[b] == fs[a]
  {
    var f := RemoveTree(fs, b);
    assert |Dirname(b)| < |b|;
    assert !Under(Dirname(b), b);
    assert ParentIsDir(f, b);
    assert !Exists(f, b);
    assert a in f && f[a] == fs[a];
  }

  /**
   * Renaming an entry onto itself with `overwrite` set removes it: the
   * target, which is the entry, is deleted before the move, which then fails.
   */
  lemma RenameOntoItselfLosesEntry(fs: Fs, a: Path)
    requires a in fs && LastIndexOfChar(a, Sep) > 0
    ensures RenameResult(fs, a, a, true).err.Some?
    ensures a !in RenameResult(fs, a, a, true).fs
  {
    var f := RemoveTree(fs, a);
    assert a !in f;
    assert |Dirname(a)| < |a|;
    if !Exists(f, Dirname(a)) {
      match MakeDirs(f, Dirname(a))
      case Err(_) =>
      case Ok(g) => assert a !in g;
    }
  }

  /** `rename` */
  method RenameOp(disk: Disk, a: Path, b: Path, overwrite: bool) returns (err: Option<FsError>)
    modifies disk
    ensures Outcome(disk.fs, err) == RenameResult(old(disk.fs), a, b, overwrite)
  {
    var present := Exists(disk.fs, b);
    if present {
      if !overwrite {
        return Some(FileExists);
      } else {
        disk.RemoveRecursive(b);
      }
    }
    var parentExists := Exists(disk.fs, Dirname(b));
    if !parentExists {
      var e := disk.MakeDirectories(Dirname(b));
      if e.Some? {
        return Some(MassageError(e.value));
      }
    }
    var e := disk.Move(a, b);
    err := if e.Some? then Some(MassageError(e.value)) else None;
  }

  /** `createDirectory`: mkdirp */
  method CreateDirectory(disk: Disk, p: Path) returns (err: Option<FsError>)
    modifies disk
    ensures Outcome(disk.fs, err) == Lift(old(disk.fs), MakeDirs(old(disk.fs), p))
    ensures err == None ==> p in disk.fs && disk.fs[p].DirNode?
  {
    var e := disk.MakeDirectories(p);
    err := if e.Some? then Some(MassageError(e.value)) else None;
  }

  /**
   * `getEntryFromDir`: the child named `dir` of the directory `base`, typed
   * by `stat`. No base gives nothing; a base that cannot be listed, or a
   * listed child that cannot be `stat`ed, fails.
   */
  function EntryFromDir(fs: Fs, dir: string, base: Option<Path>): (r: Result<Option<Entry>, FsError>)
    ensures base.None? ==> r == Ok(None)
    ensures base.Some? && !(base.value in fs && fs[base.value].DirNode?) ==> r.Err?
    ensures base.Some? && base.value in fs && fs[base.value].DirNode? ==>
      (r == Ok(None) <==> dir !in fs[base.value].names)
    ensures r.Ok? && r.value.Some? ==>
      base.Some? && base.value in fs && fs[base.value].DirNode? && dir in fs[base.value].names &&
      Join(base.value, dir) in fs &&
      r.value.value == Entry(Join(base.value, dir), TypeOf(fs, Join(base.value, dir)), None)
    ensures r.Err? && base.Some? && base.value in fs && fs[base.value].DirNode? ==>
      dir in fs[base.value].names && Join(base.value, dir) !in fs && r.error == FileNotFound
  {
    match base
    case None => Ok(None)
    case Some(b) =>
      match ReadDir(fs, b)
      case Err(e) => Err(MassageError(e))
      case Ok(names) =>
        if dir !in names then Ok(None)
        else
          match Stat(fs, Join(b, dir))
          case Err(e) => Err(MassageError(e))
          case Ok(st) => Ok(Some(Entry(Join(b, dir), StatType(st), None)))
  }

  /** In a consistent filesystem a listed child is always found. */
  lemma ListedChildFound(fs: Fs, dir: string, b: Path)
    requires Consistent(fs) && b in fs && fs[b].DirNode? && dir in fs[b].names
    ensures EntryFromDir(fs, dir, Some(b)) == Ok(Some(Entry(Join(b, dir), TypeOf(fs, Join(b, dir)), None)))
  {
    var i :| 0 <= i < |fs[b].names| && fs[b].names[i] == dir;
    assert Join(b, fs[b].names[i]) in fs;
  }

  /** A listed child that does not `stat` (a dangling link, say) fails the lookup with FileNotFound. */
  lemma ListedChildMissing(fs: Fs, dir: string, b: Path)
    requires b in fs && fs[b].DirNode? && dir in fs[b].names && Join(b, dir) !in fs
    ensures EntryFromDir(fs, dir, Some(b)) == Err(FileNotFound)
  {
  }

  /** `getEntryFromDir`, with its loop over the listed names */
  method GetEntryFromDir(fs: Fs, dir: string, base: Option<Path>) returns (r: Result<Option<Entry>, FsError>)
    ensures r == EntryFromDir(fs, dir, base)
  {
    if base.None? {
      return Ok(None);
    }
    var b := base.value;
    var listed := ReadDir(fs, b);
    if listed.Err? {
      return Err(MassageError(listed.error));
    }
    var children := listed.value;
    for i := 0 to |children|
      invariant dir !in children[..i]
    {
      var name := children[i];
      if name == dir {
        var st := Stat(fs, Join(b, name));
        if st.Err? {
          return Err(MassageError(st.error));
        }
        return Ok(Some(Entry(Join(b, name), StatType(st.value), None)));
      }
      assert children[..i + 1] == children[..i] + [name];
    }
    assert children[..|children|] == children;
    return Ok(None);
  }
}
