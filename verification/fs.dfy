/**
 * The host filesystem as an abstract finite state, with the Node `fs`
 * calls, rimraf and mkdirp that the extension makes, and the error
 * translation and `FileStat.type` classification its promise wrappers apply.
 */
module FileSystem {
  import opened Base
  import opened Paths

  /** The editor's file kinds and their numeric codes */
  datatype FileType = Unknown | File | Directory | SymbolicLink {
    function Code(): nat {
      match this
      case Unknown => 0
      case File => 1
      case Directory => 2
      case SymbolicLink => 64
    }
  }

  /**
   * One filesystem object. A directory carries the names `readdir` returns,
   * in the order it returns them; `SpecialNode` is anything `stat` reports as
   * neither a file nor a directory (sockets, devices).
   */
  datatype Node = FileNode(content: seq<bv8>) | DirNode(names: seq<string>) | SpecialNode

  type Fs = map<Path, Node>

  /** The editor's error kinds; `Raw` is an OS error passed through unchanged */
  datatype FsError = FileNotFound | FileIsADirectory | FileExists | NoPermissions | Raw(code: string)

  /** `massageError`: OS error codes to editor error kinds */
  function MassageError(code: string): (r: FsError)
    ensures r == FileNotFound <==> code == "ENOENT"
    ensures r == FileIsADirectory <==> code == "EISDIR"
    ensures r == FileExists <==> code == "EEXIST"
    ensures r == NoPermissions <==> code == "EPERM" || code == "EACCESS"
    ensures r.Raw? ==> r.code == code
  {
    if code == "ENOENT" then FileNotFound
    else if code == "EISDIR" then FileIsADirectory
    else if code == "EEXIST" then FileExists
    else if code == "EPERM" || code == "EACCESS" then NoPermissions
    else Raw(code)
  }

  /** The POSIX permission error is spelt EACCES; only the misspelling is translated. */
  lemma MassageErrorPassesEacces()
    ensures MassageError("EACCES") == Raw("EACCES")
    ensures MassageError("EACCESS") == NoPermissions
  {
  }

  /** What `fs.stat` reports about an object */
  datatype Stats = Stats(isFile: bool, isDirectory: bool, isSymbolicLink: bool)

  /** `FileStat.type`: the first of file, directory, symbolic link that holds, else unknown */
  function StatType(s: Stats): (r: FileType)
    ensures r == File <==> s.isFile
    ensures r == Directory <==> !s.isFile && s.isDirectory
    ensures r == SymbolicLink <==> !s.isFile && !s.isDirectory && s.isSymbolicLink
    ensures r == Unknown <==> !s.isFile && !s.isDirectory && !s.isSymbolicLink
  {
    if s.isFile then File
    else if s.isDirectory then Directory
    else if s.isSymbolicLink then SymbolicLink
    else Unknown
  }

  /** `stat` follows links, so it never reports one */
  function StatsOf(n: Node): Stats {
    Stats(n.FileNode?, n.DirNode?, false)
  }

  /** `fs.stat`, with the raw error code of a failure */
  function Stat(fs: Fs, p: Path): (r: Result<Stats, string>)
    ensures r.Ok? <==> p in fs
    ensures r.Err? ==> r.error == "ENOENT"
  {
    if p in fs then Ok(StatsOf(fs[p])) else Err("ENOENT")
  }

  /** The kind `FileStat.type` gives an existing object */
  function TypeOf(fs: Fs, p: Path): FileType
    requires p in fs
  {
    StatType(StatsOf(fs[p]))
  }

  /** `fs.existsSync` and `fs.exists`: a trailing separator still names a directory */
  predicate Exists(fs: Fs, p: Path) {
    p in fs || (EndsWithSep(p) && p[..|p| - 1] in fs && fs[p[..|p| - 1]].DirNode?)
  }

  /** `fs.readdir`, with the raw error code of a failure */
  function ReadDir(fs: Fs, p: Path): (r: Result<seq<string>, string>)
    ensures r.Ok? <==> p in fs && fs[p].DirNode?
    ensures r.Ok? ==> r.value == fs[p].names
    ensures r.Err? ==> r.error == (if p in fs then "ENOTDIR" else "ENOENT")
  {
    if p !in fs then Err("ENOENT")
    else if fs[p].DirNode? then Ok(fs[p].names)
    else Err("ENOTDIR")
  }

  /** A listed name as every real directory reports it: non-empty and one path segment */
  predicate ValidChild(n: string) {
    n != "" && Sep !in n
  }

  /** Every name a directory lists has the shape of a name; it need not `stat`. */
  predicate Valid(fs: Fs) {
    forall d, i :: d in fs && fs[d].DirNode? && 0 <= i < |fs[d].names| ==> ValidChild(fs[d].names[i])
  }

  /**
   * Every name a directory lists also names an existing object: no dangling
   * link and no removal between `readdir` and `stat`.
   */
  predicate Consistent(fs: Fs) {
    Valid(fs) &&
    forall d, i :: d in fs && fs[d].DirNode? && 0 <= i < |fs[d].names| ==> Join(d, fs[d].names[i]) in fs
  }

  /** `k` is `a` or lies below it */
  predicate Under(k: Path, a: Path) {
    k == a || (|k| > |a| && k[..|a|] == a && k[|a|] == Sep)
  }

  /** `names` with every occurrence of `n` removed */
  function Without(names: seq<string>, n: string): (r: seq<string>)
    ensures forall x :: x in r <==> x in names && x != n
  {
    WithoutFrom(names, n, 0)
  }

  /** The names from index `i` on, with every occurrence of `n` removed */
  function WithoutFrom(names: seq<string>, n: string, i: nat): (r: seq<string>)
    requires i <= |names|
    ensures forall x :: x in r <==> x != n && exists k :: i <= k < |names| && names[k] == x
    decreases |names| - i
  {
    if i == |names| then []
    else if names[i] == n then WithoutFrom(names, n, i + 1)
    else [names[i]] + WithoutFrom(names, n, i + 1)
  }

  /** Record a new object's name in its parent directory's listing */
  function AddToParent(fs: Fs, p: Path): (r: Fs)
    ensures r.Keys == fs.Keys
    ensures forall k :: k in fs && k != Dirname(p) ==> r[k] == fs[k]
    ensures forall k :: k in fs && !fs[k].DirNode? ==> r[k] == fs[k]
    ensures Dirname(p) == p ==> r == fs
    ensures forall k :: k in fs ==> (r[k].DirNode? <==> fs[k].DirNode?)
  {
    var d := Dirname(p);
    var n := Basename(p);
    if n != "" && d != p && d in fs && fs[d].DirNode? && n !in fs[d].names
    then fs[d := DirNode(fs[d].names + [n])]
    else fs
  }

  /** Drop an object's name from its parent directory's listing */
  function RemoveFromParent(fs: Fs, p: Path): (r: Fs)
    ensures forall k :: k in r <==> k in fs
    ensures forall k :: k in fs && k != Dirname(p) ==> r[k] == fs[k]
    ensures forall k :: k in fs && !fs[k].DirNode? ==> r[k] == fs[k]
    ensures forall k :: k in fs ==> (r[k].DirNode? <==> fs[k].DirNode?)
  {
    var d := Dirname(p);
    if d in fs && fs[d].DirNode? then
      fs[d := DirNode(Without(fs[d].names, Basename(p)))]
    else fs
  }

  /** Create or replace the object at `p` */
  function Put(fs: Fs, p: Path, n: Node): (r: Fs)
    ensures r.Keys == fs.Keys + {p}
    ensures r[p] == n
    ensures forall k :: k in fs && k != p && k != Dirname(p) ==> r[k] == fs[k]
    ensures forall k :: k in fs && k != p ==> (r[k].DirNode? <==> fs[k].DirNode?)
  {
    AddToParent(fs, p)[p := n]
  }

  /** rimraf: remove `p` with everything below it; a missing path is no error */
  function RemoveTree(fs: Fs, p: Path): (r: Fs)
    ensures forall k :: k in r <==> k in fs && !Under(k, p)
    ensures forall k :: k in r && k != Dirname(p) ==> r[k] == fs[k]
    ensures forall k :: k in r && !fs[k].DirNode? ==> r[k] == fs[k]
    ensures forall k :: k in r ==> (r[k].DirNode? <==> fs[k].DirNode?)
  {
    RemoveFromParent(map k | k in fs && !Under(k, p) :: fs[k], p)
  }

  /** mkdirp: create `p` and every missing directory above it */
  function MakeDirs(fs: Fs, p: Path): (r: Result<Fs, string>)
    ensures r.Ok? ==> p in r.value && r.value[p].DirNode?
    ensures r.Ok? ==> fs.Keys <= r.value.Keys
    ensures r.Ok? ==> forall k :: k in fs && !fs[k].DirNode? ==> r.value[k] == fs[k]
    ensures r.Ok? ==> forall k :: k in r.value && k !in fs ==> |k| <= |p| && r.value[k].DirNode?
    ensures r.Err? ==> r.error == "EEXIST"
    decreases |p|
  {
    if p in fs then
      (if fs[p].DirNode? then Ok(fs) else Err("EEXIST"))
    else
      var d := Dirname(p);
      if d != "." && |d| < |p| then
        match MakeDirs(fs, d)
        case Err(e) => Err(e)
        case Ok(f) => Ok(Put(f, p, DirNode([])))
      else Ok(Put(fs, p, DirNode([])))
  }

  /** `p` followed by the directories mkdirp looks at above it, nearest first */
  function Lineage(p: Path): (r: seq<Path>)
    ensures |r| >= 1 && r[0] == p
    decreases |p|
  {
    var d := Dirname(p);
    if d != "." && |d| < |p| then [p] + Lineage(d) else [p]
  }

  /** `ps[i]` is the first path of `ps` that exists */
  predicate FirstExisting(fs: Fs, ps: seq<Path>, i: int) {
    0 <= i < |ps| && ps[i] in fs && forall j :: 0 <= j < i ==> ps[j] !in fs
  }

  /**
   * mkdirp succeeds exactly when the nearest existing one of `p` and its
   * ancestors is a directory, or none of them exists.
   */
  lemma {:induction false} MakeDirsSucceeds(fs: Fs, p: Path)
    ensures MakeDirs(fs, p).Ok? <==> forall i :: FirstExisting(fs, Lineage(p), i) ==> fs[Lineage(p)[i]].DirNode?
    decreases |p|
  {
    var ps := Lineage(p);
    var d := Dirname(p);
    if p in fs {
      assert FirstExisting(fs, ps, 0);
      forall i | FirstExisting(fs, ps, i) ensures i == 0 {
      }
    } else if d != "." && |d| < |p| {
      assert MakeDirs(fs, p).Ok? == MakeDirs(fs, d).Ok?;
      MakeDirsSucceeds(fs, d);
      assert ps == [p] + Lineage(d);
      FirstExistingPast(fs, p, Lineage(d));
    } else {
      assert ps == [p];
    }
  }

  /** Past a missing first path, the first existing path is the first existing one of the rest. */
  lemma FirstExistingPast(fs: Fs, p: Path, qs: seq<Path>)
    requires p !in fs
    ensures (forall i :: FirstExisting(fs, [p] + qs, i) ==> fs[([p] + qs)[i]].DirNode?) <==>
            (forall i :: FirstExisting(fs, qs, i) ==> fs[qs[i]].DirNode?)
  {
    var ps := [p] + qs;
    forall i | 0 <= i < |qs| ensures FirstExisting(fs, ps, i + 1) <==> FirstExisting(fs, qs, i) {
      assert ps[i + 1] == qs[i];
      if FirstExisting(fs, qs, i) {
        forall j | 0 <= j < i + 1 ensures ps[j] !in fs {
          if j > 0 {
            assert ps[j] == qs[j - 1];
          }
        }
      }
      if FirstExisting(fs, ps, i + 1) {
        forall j | 0 <= j < i ensures qs[j] !in fs {
          assert ps[j + 1] == qs[j];
        }
      }
    }
    assert !FirstExisting(fs, ps, 0);
    forall i | FirstExisting(fs, ps, i) ensures FirstExisting(fs, qs, i - 1) {
    }
  }

  /** The parent directory of `p` exists */
  predicate ParentIsDir(fs: Fs, p: Path) {
    Dirname(p) in fs && fs[Dirname(p)].DirNode?
  }

  /**
   * `fs.mkdirSync`: one directory, whose parent must exist; a missing parent
   * and a parent that is a file are both ENOENT on Windows (path not found).
   */
  function MakeDir(fs: Fs, p: Path): (r: Result<Fs, string>)
    ensures r.Ok? <==> !Exists(fs, p) && ParentIsDir(fs, p)
    ensures r.Ok? ==> r.value == Put(fs, p, DirNode([]))
  {
    if Exists(fs, p) then Err("EEXIST")
    else if !ParentIsDir(fs, p) then Err("ENOENT")
    else Ok(Put(fs, p, DirNode([])))
  }

  /** `fs.writeFile` / `fs.writeFileSync`: create or truncate a file */
  function WriteFile(fs: Fs, p: Path, content: seq<bv8>): (r: Result<Fs, string>)
    ensures r.Ok? <==> !(p in fs && fs[p].DirNode?) && ParentIsDir(fs, p)
    ensures r.Ok? ==> r.value == Put(fs, p, FileNode(content))
    ensures p in fs && fs[p].DirNode? ==> r == Err("EISDIR")
  {
    if p in fs && fs[p].DirNode? then Err("EISDIR")
    else if !ParentIsDir(fs, p) then Err("ENOENT")
    else Ok(Put(fs, p, FileNode(content)))
  }

  /** `fs.unlink`: remove one non-directory (Windows refuses a directory with EPERM) */
  function Unlink(fs: Fs, p: Path): (r: Result<Fs, string>)
    ensures r.Ok? <==> p in fs && !fs[p].DirNode?
    ensures r.Ok? ==> forall k :: k in r.value <==> k in fs && !Under(k, p)
    ensures r.Ok? ==> forall k :: k in r.value && k != Dirname(p) ==> r.value[k] == fs[k]
    ensures r.Err? ==> r.error == (if p in fs then "EPERM" else "ENOENT")
  {
    if p !in fs then Err("ENOENT")
    else if fs[p].DirNode? then Err("EPERM")
    else Ok(RemoveTree(fs, p))
  }

  /** Re-rooting keeps distinct paths below `a` distinct. */
  lemma RerootInjective(k1: Path, k2: Path, a: Path, b: Path)
    requires Under(k1, a) && Under(k2, a)
    requires b + k1[|a|..] == b + k2[|a|..]
    ensures k1 == k2
  {
    assert k1[|a|..] == (b + k1[|a|..])[|b|..];
    assert k2[|a|..] == (b + k2[|a|..])[|b|..];
    assert k1 == k1[..|a|] + k1[|a|..];
    assert k2 == k2[..|a|] + k2[|a|..];
  }

  /** Re-rooting a path below `a` gives a path below `b`. */
  lemma RerootUnder(k: Path, a: Path, b: Path)
    requires Under(k, a)
    ensures Under(b + k[|a|..], b)
  {
    var q := b + k[|a|..];
    assert q[..|b|] == b;
    if k != a {
      assert q[|b|] == k[|a|];
    }
  }

  /** A path's directory is the path itself or does not lie strictly below it. */
  lemma DirnameNotBelow(p: Path)
    ensures Under(Dirname(p), p) ==> Dirname(p) == p
  {
  }

  /** The objects below `a`, re-rooted below `b` */
  function Rerooted(fs: Fs, a: Path, b: Path): (r: Fs)
    ensures forall k :: k in fs && Under(k, a) ==> b + k[|a|..] in r && r[b + k[|a|..]] == fs[k]
    ensures forall k :: k in r ==> Under(k, b)
  {
    forall k | Under(k, a) ensures Under(b + k[|a|..], b) {
      RerootUnder(k, a, b);
    }
    forall k1, k2 | k1 in fs && Under(k1, a) && k2 in fs && Under(k2, a) && b + k1[|a|..] == b + k2[|a|..]
      ensures k1 == k2
    {
      RerootInjective(k1, k2, a, b);
    }
    map k | k in fs && Under(k, a) :: b + k[|a|..] := fs[k]
  }

  /**
   * `fs.rename` as Windows performs it: move `a` with everything below it to
   * `b`. A non-directory replaces a non-directory at `b`; a target that names
   * a directory (also with a trailing separator), and a directory moved onto
   * an existing object, are refused with EPERM.
   */
  function Rename(fs: Fs, a: Path, b: Path): (r: Result<Fs, string>)
    ensures r.Ok? <==>
      a in fs && (a == b || (!Under(b, a) && ParentIsDir(fs, b) && (Exists(fs, b) ==> b in fs && !fs[b].DirNode? && !fs[a].DirNode?)))
    ensures r.Err? && a in fs && a != b && !Under(b, a) && ParentIsDir(fs, b) ==> r.error == "EPERM"
    ensures r.Ok? ==> b in r.value && r.value[b] == fs[a]
    ensures r.Ok? ==> forall k :: k in fs && Under(k, a) ==> b + k[|a|..] in r.value && r.value[b + k[|a|..]] == fs[k]
    ensures r.Ok? && a != b ==> forall k :: !Under(k, b) ==> (k in r.value <==> k in fs && !Under(k, a))
    ensures r.Ok? ==> forall k :: k in fs && !Under(k, a) && !Under(k, b) ==>
      k in r.value && (!fs[k].DirNode? || (k != Dirname(a) && k != Dirname(b)) ==> r.value[k] == fs[k])
  {
    if a !in fs then Err("ENOENT")
    else if a == b then
      assert forall k :: Under(k, a) ==> b + k[|a|..] == k by {
        forall k | Under(k, a) ensures b + k[|a|..] == k {
          assert k == k[..|a|] + k[|a|..];
        }
      }
      Ok(fs)
    else if Under(b, a) then Err("EINVAL")
    else if !ParentIsDir(fs, b) then Err("ENOENT")
    else if Exists(fs, b) && (b !in fs || fs[b].DirNode? || fs[a].DirNode?) then Err("EPERM")
    else
      var moved := Rerooted(fs, a, b);
      assert b == b + a[|a|..];
      DirnameNotBelow(b);
      Ok(AddToParent(RemoveTree(RemoveTree(fs, b), a) + moved, b))
  }

  /** The state an editor-facing operation leaves behind, and the error it rejects with */
  datatype Outcome = Outcome(fs: Fs, err: Option<FsError>)

  /** A failed step leaves the state it started from, with the translated error. */
  function Lift(before: Fs, res: Result<Fs, string>): (r: Outcome)
    ensures res.Ok? ==> r == Outcome(res.value, None)
    ensures res.Err? ==> r == Outcome(before, Some(MassageError(res.error)))
  {
    match res
    case Ok(f) => Outcome(f, None)
    case Err(e) => Outcome(before, Some(MassageError(e)))
  }

  /**
   * Moving `a` to `b` the way both rename operations end: a missing parent
   * of `b` is created (mkdirp), then the entry is moved; either failure
   * rejects with its translated error.
   */
  function MoveInto(fs: Fs, a: Path, b: Path): (r: Outcome)
    ensures Exists(fs, Dirname(b)) ==> r == Lift(fs, Rename(fs, a, b))
    ensures r.err == None ==> b in r.fs && (a in fs && !fs[a].DirNode? ==> r.fs[b] == fs[a])
    ensures r.err == None ==> forall k :: k in fs && Under(k, a) && !fs[k].DirNode? ==>
      b + k[|a|..] in r.fs && r.fs[b + k[|a|..]] == fs[k]
    ensures r.err == None && a != b ==> forall k :: Under(k, a) && !Under(k, b) ==> k !in r.fs
    ensures r.err == None ==> forall k :: k in fs && !Under(k, a) && !Under(k, b) ==>
      k in r.fs && (!fs[k].DirNode? ==> r.fs[k] == fs[k])
    ensures r.err.Some? && Exists(fs, Dirname(b)) ==> r.fs == fs
  {
    if Exists(fs, Dirname(b)) then Lift(fs, Rename(fs, a, b))
    else
      match MakeDirs(fs, Dirname(b))
      case Err(e) => Outcome(fs, Some(MassageError(e)))
      case Ok(f) => Lift(f, Rename(f, a, b))
  }

  /** Renaming onto an existing file only warns: the file is replaced. */
  lemma MoveReplacesFile(fs: Fs, a: Path, b: Path)
    requires a in fs && !fs[a].DirNode? && a != b && !Under(b, a)
    requires b in fs && fs[b].FileNode? && ParentIsDir(fs, b)
    ensures MoveInto(fs, a, b).err == None
    ensures MoveInto(fs, a, b).fs[b] == fs[a]
  {
  }

  /** Renaming into a folder that does not exist yet creates the folder first. */
  lemma MoveCreatesFolder(fs: Fs, a: Path, b: Path)
    requires a in fs && !fs[a].DirNode? && a != b && !Under(b, a)
    requires LastIndexOfChar(b, Sep) > 0 && !EndsWithSep(b) && b !in fs
    requires !Exists(fs, Dirname(b)) && MakeDirs(fs, Dirname(b)).Ok?
    ensures MoveInto(fs, a, b).err == None
    ensures MoveInto(fs, a, b).fs[b] == fs[a]
  {
    var f := MakeDirs(fs, Dirname(b)).value;
    assert |Dirname(b)| < |b|;
    assert b !in f;
    assert !Exists(f, b);
    assert a in f && f[a] == fs[a];
  }

  /** Renaming an existing entry onto itself, in an existing folder, changes nothing. */
  lemma MoveOntoItself(fs: Fs, p: Path)
    requires p in fs && Exists(fs, Dirname(p))
    ensures MoveInto(fs, p, p) == Outcome(fs, None)
  {
  }

  /** Renaming to a folder spelt with a trailing separator is refused and changes nothing. */
  lemma MoveOntoFolderRefused(fs: Fs, a: Path, d: Path)
    requires a in fs && a != d + [Sep] && !Under(d + [Sep], a)
    requires d != "" && d in fs && fs[d].DirNode? && d + [Sep] !in fs
    ensures MoveInto(fs, a, d + [Sep]) == Outcome(fs, Some(NoPermissions))
  {
    var b := d + [Sep];
    LastIndexOfCharIsLast(b, Sep);
    assert LastIndexOfChar(b, Sep) == |d|;
    assert Dirname(b) == d;
    assert b[..|b| - 1] == d;
  }

  /** A directory cannot replace an existing object: the move is refused and changes nothing. */
  lemma MoveDirectoryOntoFileRefused(fs: Fs, a: Path, b: Path)
    requires a in fs && fs[a].DirNode? && b in fs && a != b && !Under(b, a)
    requires ParentIsDir(fs, b)
    ensures MoveInto(fs, a, b) == Outcome(fs, Some(NoPermissions))
  {
  }

  /** What a step on the filesystem leaves behind: its result, or the old state and the error */
  predicate Stepped(before: Fs, res: Result<Fs, string>, after: Fs, err: Option<string>) {
    match res
    case Ok(f) => after == f && err == None
    case Err(e) => after == before && err == Some(e)
  }

  /** The host filesystem, which the extension's commands change in place */
  class Disk {
    var fs: Fs

    constructor (init: Fs)
      ensures fs == init
    {
      fs := init;
    }

    /** rimraf */
    method RemoveRecursive(p: Path)
      modifies this
      ensures fs == RemoveTree(old(fs), p)
    {
      fs := RemoveTree(fs, p);
    }

    /** mkdirp */
    method MakeDirectories(p: Path) returns (err: Option<string>)
      modifies this
      ensures Stepped(old(fs), MakeDirs(old(fs), p), fs, err)
    {
      err := Apply(MakeDirs(fs, p));
    }

    /** `fs.mkdirSync` */
    method MakeDirectory(p: Path) returns (err: Option<string>)
      modifies this
      ensures Stepped(old(fs), MakeDir(old(fs), p), fs, err)
    {
      err := Apply(MakeDir(fs, p));
    }

    /** `fs.writeFile` */
    method Write(p: Path, content: seq<bv8>) returns (err: Option<string>)
      modifies this
      ensures Stepped(old(fs), WriteFile(old(fs), p, content), fs, err)
    {
      err := Apply(WriteFile(fs, p, content));
    }

    /** `fs.unlink` */
    method Remove(p: Path) returns (err: Option<string>)
      modifies this
      ensures Stepped(old(fs), Unlink(old(fs), p), fs, err)
    {
      err := Apply(Unlink(fs, p));
    }

    /** `fs.rename` */
    method Move(a: Path, b: Path) returns (err: Option<string>)
      modifies this
      ensures Stepped(old(fs), Rename(old(fs), a, b), fs, err)
    {
      err := Apply(Rename(fs, a, b));
    }

    method Apply(res: Result<Fs, string>) returns (err: Option<string>)
      modifies this
      ensures Stepped(old(fs), res, fs, err)
    {
      match res
      case Ok(f) => fs := f; err := None;
      case Err(e) => err := Some(e);
    }
  }
}
