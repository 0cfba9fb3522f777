/**
 * The commands of the C++ view (`CPPView`): creating a folder or a group,
 * deleting an entry together with its sibling, and renaming an entry
 * together with its sibling. What the user types into each input box is a
 * parameter (the empty answer stands for a cleared box); every box `rename`
 * may open has its own answer.
 */
module Commands {
  import opened Base
  import opened Paths
  import opened FileSystem
  import opened Listing
  import opened Siblings
  import opened Grouping

  /** `cppView.newFolder` or `cppView.newGroup` */
  datatype MakeKind = FolderKind | GroupKind

  /** The extension a created path of side `i` gets: a group's side extension, nothing for a folder */
  function KindExt(kind: MakeKind, i: nat): string
    requires i < 2
  {
    if kind == GroupKind then Exts[i] else ""
  }

  /**
   * The folder `p` goes into exists: what precedes its base name, cut off
   * with `slice(0, -n)`, so that an empty base name leaves the empty path.
   */
  predicate FolderExists(fs: Fs, p: Path) {
    Exists(fs, DropEnd(p, |Basename(p)|))
  }

  /** A group's path is planned only when the folder it goes into exists; a folder's always is. */
  function Kept(fs: Fs, kind: MakeKind, p: Path): (r: seq<Path>)
    ensures r == [] || r == [p]
    ensures kind == FolderKind ==> r == [p]
  {
    if kind != GroupKind || FolderExists(fs, p) then [p] else []
  }

  /** A path is kept when it is a folder's, or when the folder it goes into exists. */
  lemma KeptIn(fs: Fs, kind: MakeKind, p: Path, folder: Path)
    requires DropEnd(p, |Basename(p)|) == folder
    ensures Kept(fs, kind, p) == if kind == FolderKind || Exists(fs, folder) then [p] else []
  {
  }

  /** Some child of the directory is itself named `cpp` or `include` */
  predicate AtSplit(children: seq<Entry>) {
    exists c :: c in children && IsSplitName(Basename(c.path))
  }

  /** At a split: the new name inside folder `i` of the split */
  function SplitTarget(dir: Path, name: string, kind: MakeKind, i: nat): Path
    requires i < 2
  {
    Join(Join(dir, Folders[i]), name) + KindExt(kind, i)
  }

  /** The first split folder whose segment `dir` lies under, the `cpp` one tried first */
  function SplitSide(dir: Path): (r: Option<nat>)
    ensures r.Some? ==> r.value < 2 && IndexOf(dir, Segment(r.value)) >= 0
    ensures r.None? <==> IndexOf(dir, Segment(0)) < 0 && IndexOf(dir, Segment(1)) < 0
    ensures r == Some(1) ==> IndexOf(dir, Segment(0)) < 0
  {
    if IndexOf(dir, Segment(0)) >= 0 then Some(0)
    else if IndexOf(dir, Segment(1)) >= 0 then Some(1)
    else None
  }

  /**
   * Under side `i` of a split: the same place on the other side, found by
   * swapping the first segment of folder `i` for the other folder.
   */
  function NestedTarget(dir: Path, name: string, kind: MakeKind, i: nat): Path
    requires i < 2 && IndexOf(dir, Segment(i)) >= 0
  {
    var found := IndexOf(dir, Segment(i)) + 1;
    Join(Join(Join(dir[..found], Folders[1 - i]), SubstringFrom(dir, found + |Folders[i]|)), name) + KindExt(kind, 1 - i)
  }

  /**
   * The paths `make` creates for `name` in directory `dir` whose listing is
   * `children`: at a split, one per split folder; otherwise the name in
   * `dir`, and, under a side of a split, the same place on the other side.
   */
  function MakePlan(fs: Fs, dir: Path, children: seq<Entry>, kind: MakeKind, name: string): (r: seq<Path>)
    ensures |r| <= 2
    ensures !AtSplit(children) ==> 1 <= |r|
    ensures AtSplit(children) && kind == FolderKind ==> |r| == 2
    ensures !AtSplit(children) && SplitSide(dir).None? ==> r == [Join(dir, name)]
  {
    if AtSplit(children) then SplitPaths(fs, dir, kind, name) else OffSplitPaths(fs, dir, kind, name)
  }

  /** At a split: the name in each split folder, a group's only where that folder exists */
  function SplitPaths(fs: Fs, dir: Path, kind: MakeKind, name: string): seq<Path> {
    Kept(fs, kind, SplitTarget(dir, name, kind, 0)) + Kept(fs, kind, SplitTarget(dir, name, kind, 1))
  }

  /** Elsewhere: the name in `dir`, and under a side of a split the same place on the other side */
  function OffSplitPaths(fs: Fs, dir: Path, kind: MakeKind, name: string): seq<Path> {
    match SplitSide(dir)
    case None => [Join(dir, name)]
    case Some(i) => [Join(dir, name) + KindExt(kind, i)] + Kept(fs, kind, NestedTarget(dir, name, kind, i))
  }

  /** The loop of `make` that looks for a child named `cpp` or `include` */
  method FindSplit(children: seq<Entry>) returns (atSplit: bool)
    ensures atSplit == AtSplit(children)
  {
    atSplit := false;
    for j := 0 to |children|
      invariant atSplit <==> exists c :: c in children[..j] && IsSplitName(Basename(c.path))
    {
      assert children[..j + 1] == children[..j] + [children[j]];
      if IsSplitName(Basename(children[j].path)) {
        atSplit := true;
      }
    }
    assert children[..|children|] == children;
  }

  /** The paths planned at a split by the first `n` turns of its loop */
  function SplitPlanUpTo(fs: Fs, dir: Path, kind: MakeKind, name: string, n: nat): seq<Path>
    requires n <= 2
  {
    if n == 0 then [] else SplitPlanUpTo(fs, dir, kind, name, n - 1) + Kept(fs, kind, SplitTarget(dir, name, kind, n - 1))
  }

  /** The path planning of `make` at a split: a loop over the two split folders */
  method PlanAtSplit(fs: Fs, dir: Path, kind: MakeKind, name: string) returns (paths: seq<Path>)
    ensures paths == SplitPaths(fs, dir, kind, name)
  {
    paths := [];
    for i := 0 to 2
      invariant paths == SplitPlanUpTo(fs, dir, kind, name, i)
    {
      paths := AddKept(fs, paths, SplitTarget(dir, name, kind, i), kind);
    }
    SplitPlanUpToBoth(fs, dir, kind, name);
  }

  /** One turn of that loop: the target is added when it is a folder's or its folder exists */
  method AddKept(fs: Fs, paths: seq<Path>, alt: Path, kind: MakeKind) returns (r: seq<Path>)
    ensures r == paths + Kept(fs, kind, alt)
  {
    r := paths;
    if kind != GroupKind || FolderExists(fs, alt) {
      r := r + [alt];
    }
  }

  /** Both turns of the loop plan the paths of a split. */
  lemma SplitPlanUpToBoth(fs: Fs, dir: Path, kind: MakeKind, name: string)
    ensures SplitPlanUpTo(fs, dir, kind, name, 2) == SplitPaths(fs, dir, kind, name)
  {
    assert SplitPlanUpTo(fs, dir, kind, name, 1) == Kept(fs, kind, SplitTarget(dir, name, kind, 0));
  }

  /** Elsewhere, under side `i` of a split and not under the `cpp` side before it */
  lemma OffSplitAt(fs: Fs, dir: Path, kind: MakeKind, name: string, i: nat)
    requires i < 2 && IndexOf(dir, Segment(i)) >= 0
    requires i == 1 ==> IndexOf(dir, Segment(0)) < 0
    ensures OffSplitPaths(fs, dir, kind, name) ==
      [Join(dir, name) + KindExt(kind, i)] + Kept(fs, kind, NestedTarget(dir, name, kind, i))
  {
    assert SplitSide(dir) == Some(i);
  }

  /**
   * The turn of the loop below that finds a side: the other side's path
   * when its folder exists (always, for a folder), and a group's first path
   * given side `i`'s extension.
   */
  method AddOtherSide(fs: Fs, paths: seq<Path>, alt: Path, kind: MakeKind, i: nat) returns (r: seq<Path>)
    requires i < 2 && |paths| == 1
    ensures r == [paths[0] + KindExt(kind, i)] + Kept(fs, kind, alt)
  {
    r := paths;
    if kind != GroupKind || FolderExists(fs, alt) {
      r := r + [alt];
    }
    if kind == GroupKind {
      r := r[0 := r[0] + Exts[i]];
    }
    assert r[0] == paths[0] + KindExt(kind, i) && r[1..] == Kept(fs, kind, alt);
    assert r == [r[0]] + r[1..];
  }

  /**
   * The path planning of `make` elsewhere: the name in `dir`, then a loop
   * over the two folders that stops at the first whose segment `dir` lies under.
   */
  method PlanElsewhere(fs: Fs, dir: Path, kind: MakeKind, name: string) returns (paths: seq<Path>)
    ensures paths == OffSplitPaths(fs, dir, kind, name)
  {
    var first := Join(dir, name);
    paths := [first];
    var i := 0;
    while i < 2
      invariant 0 <= i <= 2
      invariant i > 0 ==> IndexOf(dir, Segment(0)) < 0
      invariant i > 1 ==> IndexOf(dir, Segment(1)) < 0
      invariant paths == [first]
    {
      var found := IndexOf(dir, Segment(i)) + 1;
      if found != 0 {
        paths := AddOtherSide(fs, paths, NestedTarget(dir, name, kind, i), kind, i);
        OffSplitAt(fs, dir, kind, name, i);
        return;
      }
      i := i + 1;
    }
    assert SplitSide(dir).None?;
  }

  /** The path planning of `make`: whether the directory is a split decides which loop runs. */
  method PlanPaths(fs: Fs, dir: Path, children: seq<Entry>, kind: MakeKind, name: string) returns (paths: seq<Path>)
    ensures paths == MakePlan(fs, dir, children, kind, name)
  {
    var atSplit := FindSplit(children);
    if atSplit {
      paths := PlanAtSplit(fs, dir, kind, name);
    } else {
      paths := PlanElsewhere(fs, dir, kind, name);
    }
  }

  /** Joining a separator-free name onto a directory that does not end in a separator */
  lemma JoinName(dir: Path, name: string)
    requires dir != "" && !EndsWithSep(dir)
    requires name != "" && Sep !in name
    ensures Join(dir, name) == dir + [Sep] + name
  {
    assert name[0] in name;
  }

  /** The base name and folder of `dir\name` */
  lemma NameInFolder(folder: Path, name: string)
    requires EndsWithSep(folder)
    requires name != "" && Sep !in name
    ensures DropEnd(folder + name, |Basename(folder + name)|) == folder
  {
    BasenameAfterSep(folder, name);
    DropSuffix(folder, name);
  }

  /** The split target of folder `i` is the name after that folder's segment. */
  lemma SplitTargetJoined(dir: Path, name: string, kind: MakeKind, i: nat)
    requires i < 2
    requires dir != "" && !EndsWithSep(dir)
    requires name != "" && Sep !in name
    ensures SplitTarget(dir, name, kind, i) == dir + Segment(i) + name + KindExt(kind, i)
  {
    var f := Folders[i];
    assert f != "" && f[|f| - 1] != Sep;
    JoinName(dir, f);
    JoinName(dir + [Sep] + f, name);
    assert dir + [Sep] + f + [Sep] + name == dir + Segment(i) + name;
  }

  /** The split target of folder `i` goes into that folder. */
  lemma SplitTargetFolder(dir: Path, name: string, kind: MakeKind, i: nat)
    requires i < 2
    requires dir != "" && !EndsWithSep(dir)
    requires name != "" && Sep !in name
    ensures var t := SplitTarget(dir, name, kind, i); DropEnd(t, |Basename(t)|) == dir + Segment(i)
  {
    SplitTargetJoined(dir, name, kind, i);
    assert Sep !in KindExt(kind, i);
    assert SplitTarget(dir, name, kind, i) == (dir + Segment(i)) + (name + KindExt(kind, i));
    NameInFolder(dir + Segment(i), name + KindExt(kind, i));
  }

  /**
   * At a split, a folder is created in both split folders, and a group's
   * source and header go into the `cpp` and `include` folders that exist.
   */
  lemma SplitPlan(fs: Fs, dir: Path, children: seq<Entry>, kind: MakeKind, name: string)
    requires AtSplit(children)
    requires dir != "" && !EndsWithSep(dir)
    requires name != "" && Sep !in name
    ensures MakePlan(fs, dir, children, kind, name) ==
      (if kind == FolderKind || Exists(fs, dir + Segment(0)) then [dir + Segment(0) + name + KindExt(kind, 0)] else []) +
      (if kind == FolderKind || Exists(fs, dir + Segment(1)) then [dir + Segment(1) + name + KindExt(kind, 1)] else [])
  {
    SplitTargetJoined(dir, name, kind, 0);
    SplitTargetJoined(dir, name, kind, 1);
    SplitTargetFolder(dir, name, kind, 0);
    SplitTargetFolder(dir, name, kind, 1);
    assert FolderExists(fs, SplitTarget(dir, name, kind, 0)) == Exists(fs, dir + Segment(0));
    assert FolderExists(fs, SplitTarget(dir, name, kind, 1)) == Exists(fs, dir + Segment(1));
  }

  /** The nested target of `a + Segment(i) + rest`, before the name is joined on */
  lemma NestedFolder(a: Path, i: nat, rest: string)
    requires i < 2 && IndexOf(a + Segment(i), Segment(i)) == |a|
    ensures var dir := a + Segment(i) + rest;
      IndexOf(dir, Segment(i)) == |a| &&
      Join(Join(dir[..|a| + 1], Folders[1 - i]), SubstringFrom(dir, |a| + 1 + |Folders[i]|)) == a + Segment(1 - i) + rest
  {
    SegmentIndex(a, i, rest);
    AfterFolder(a, i, rest);
    SpliceFolder(a, i, rest);
  }

  /** The nested target of `a + Segment(i) + rest` is the name joined onto the other side's folder. */
  lemma NestedTargetJoined(a: Path, i: nat, rest: string, kind: MakeKind, name: string)
    requires i < 2 && IndexOf(a + Segment(i), Segment(i)) == |a|
    ensures IndexOf(a + Segment(i) + rest, Segment(i)) >= 0
    ensures NestedTarget(a + Segment(i) + rest, name, kind, i) == Join(a + Segment(1 - i) + rest, name) + KindExt(kind, 1 - i)
  {
    NestedFolder(a, i, rest);
  }

  /** A name with a side's extension joined onto a folder path that ends in no separator */
  lemma NameWithExt(o: Path, name: string, kind: MakeKind, j: nat)
    requires j < 2 && o != "" && !EndsWithSep(o)
    requires name != "" && Sep !in name
    ensures var t := Join(o, name) + KindExt(kind, j);
      t == o + [Sep] + name + KindExt(kind, j) && DropEnd(t, |Basename(t)|) == o + [Sep]
  {
    JoinName(o, name);
    var x := name + KindExt(kind, j);
    assert Sep !in KindExt(kind, j);
    assert o + [Sep] + name + KindExt(kind, j) == (o + [Sep]) + x;
    NameInFolder(o + [Sep], x);
  }

  /** The nested target of `a + Segment(i) + rest` spelled out, with the folder it goes into */
  lemma NestedTargetSpelled(a: Path, i: nat, rest: string, kind: MakeKind, name: string)
    requires i < 2 && IndexOf(a + Segment(i), Segment(i)) == |a|
    requires rest != "" && !EndsWithSep(rest)
    requires name != "" && Sep !in name
    ensures IndexOf(a + Segment(i) + rest, Segment(i)) >= 0
    ensures var t := NestedTarget(a + Segment(i) + rest, name, kind, i);
      t == a + Segment(1 - i) + rest + [Sep] + name + KindExt(kind, 1 - i) &&
      DropEnd(t, |Basename(t)|) == a + Segment(1 - i) + rest + [Sep]
  {
    NestedTargetJoined(a, i, rest, kind, name);
    var o := a + Segment(1 - i) + rest;
    assert o[|o| - 1] == rest[|rest| - 1];
    NameWithExt(o, name, kind, 1 - i);
  }

  /**
   * Below the first segment of side `i` (`a\cpp\rest` or `a\include\rest`),
   * the name is created in place and at the same place on the other side;
   * a group's two files get their own side's extension, and the other
   * side's file is planned only when its folder exists.
   */
  lemma NestedPlan(fs: Fs, a: Path, i: nat, rest: string, children: seq<Entry>, kind: MakeKind, name: string)
    requires i < 2 && IndexOf(a + Segment(i), Segment(i)) == |a|
    requires i == 1 ==> IndexOf(a + Segment(1) + rest, Segment(0)) < 0
    requires !AtSplit(children)
    requires rest != "" && !EndsWithSep(rest)
    requires name != "" && Sep !in name
    ensures var dir := a + Segment(i) + rest;
      var other := a + Segment(1 - i) + rest + [Sep];
      MakePlan(fs, dir, children, kind, name) ==
        [dir + [Sep] + name + KindExt(kind, i)] +
        (if kind == FolderKind || Exists(fs, other) then [other + name + KindExt(kind, 1 - i)] else [])
  {
    var dir := a + Segment(i) + rest;
    NestedTargetSpelled(a, i, rest, kind, name);
    KeptIn(fs, kind, NestedTarget(dir, name, kind, i), a + Segment(1 - i) + rest + [Sep]);
    OffSplitAt(fs, dir, kind, name, i);
    assert dir[|dir| - 1] == rest[|rest| - 1];
    JoinName(dir, name);
    assert MakePlan(fs, dir, children, kind, name) == OffSplitPaths(fs, dir, kind, name);
  }

  /** One write of `make`; a failure is caught and leaves the state as it was. */
  function CreateOne(fs: Fs, p: Path, kind: MakeKind): (r: Fs)
    ensures fs.Keys <= r.Keys <= fs.Keys + {p}
    ensures forall k :: k in fs && k != p && fs[k].FileNode? ==> r[k] == fs[k]
    ensures forall k :: k in fs ==> (r[k].DirNode? <==> fs[k].DirNode?)
    ensures kind == GroupKind && ParentIsDir(fs, p) && !(p in fs && fs[p].DirNode?) ==> p in r && r[p] == FileNode([])
    ensures kind == FolderKind && ParentIsDir(fs, p) && !Exists(fs, p) ==> p in r && r[p] == DirNode([])
  {
    var res := if kind == FolderKind then MakeDir(fs, p) else WriteFile(fs, p, []);
    match res
    case Ok(f) => f
    case Err(_) => fs
  }

  /** All writes of `make`, in order */
  function CreateAll(fs: Fs, paths: seq<Path>, kind: MakeKind): (r: Fs)
    ensures fs.Keys <= r.Keys
    ensures forall k :: k in r ==> k in fs || k in paths
    ensures forall k :: k in fs && k !in paths && fs[k].FileNode? ==> r[k] == fs[k]
    ensures forall k :: k in fs ==> (r[k].DirNode? <==> fs[k].DirNode?)
  {
    if paths == [] then fs
    else
      var prev := CreateAll(fs, paths[..|paths| - 1], kind);
      var r := CreateOne(prev, paths[|paths| - 1], kind);
      assert forall k :: k in paths[..|paths| - 1] ==> k in paths;
      r
  }

  /** Planning one more path adds one more write at the end. */
  lemma CreateAllStep(fs: Fs, paths: seq<Path>, i: nat, kind: MakeKind)
    requires i < |paths|
    ensures CreateAll(fs, paths[..i + 1], kind) == CreateOne(CreateAll(fs, paths[..i], kind), paths[i], kind)
  {
    assert paths[..i + 1][..i] == paths[..i];
  }

  /** `p` holds what `make` creates: an empty file for a group, a directory for a folder */
  predicate Created(fs: Fs, p: Path, kind: MakeKind) {
    p in fs && (if kind == GroupKind then fs[p] == FileNode([]) else fs[p].DirNode?)
  }

  /** A later write keeps what an earlier one created. */
  lemma CreateOneKeeps(fs: Fs, q: Path, p: Path, kind: MakeKind)
    requires Created(fs, p, kind)
    ensures Created(CreateOne(fs, q, kind), p, kind)
  {
  }

  /** What a write created survives the writes after it. */
  lemma {:induction false} CreateAllKeeps(fs: Fs, paths: seq<Path>, kind: MakeKind, i: nat, n: nat)
    requires i < n <= |paths|
    requires Created(CreateAll(fs, paths[..i + 1], kind), paths[i], kind)
    ensures Created(CreateAll(fs, paths[..n], kind), paths[i], kind)
    decreases n
  {
    if n > i + 1 {
      CreateAllKeeps(fs, paths, kind, i, n - 1);
      CreateAllStep(fs, paths, n - 1, kind);
      CreateOneKeeps(CreateAll(fs, paths[..n - 1], kind), paths[n - 1], paths[i], kind);
    }
  }

  /**
   * Every planned path whose write can succeed when its turn comes (its
   * parent is a directory, and it is no directory, or for a folder does not
   * exist yet) is there once all writes are done.
   */
  lemma MakeCreatesPlanned(fs: Fs, paths: seq<Path>, kind: MakeKind, i: nat)
    requires i < |paths|
    ensures var mid := CreateAll(fs, paths[..i], kind);
      ParentIsDir(mid, paths[i]) &&
      (if kind == GroupKind then !(paths[i] in mid && mid[paths[i]].DirNode?) else !Exists(mid, paths[i])) ==>
      Created(CreateAll(fs, paths, kind), paths[i], kind)
  {
    var mid := CreateAll(fs, paths[..i], kind);
    CreateAllStep(fs, paths, i, kind);
    if ParentIsDir(mid, paths[i]) &&
      (if kind == GroupKind then !(paths[i] in mid && mid[paths[i]].DirNode?) else !Exists(mid, paths[i]))
    {
      CreateAllKeeps(fs, paths, kind, i, |paths|);
      assert paths[..|paths|] == paths;
    }
  }

  /** The write loop of `make` */
  method CreatePaths(disk: Disk, paths: seq<Path>, kind: MakeKind)
    modifies disk
    ensures disk.fs == CreateAll(old(disk.fs), paths, kind)
  {
    for i := 0 to |paths|
      invariant disk.fs == CreateAll(old(disk.fs), paths[..i], kind)
    {
      CreateAllStep(old(disk.fs), paths, i, kind);
      if kind == FolderKind {
        var _ := disk.MakeDirectory(paths[i]);
      } else {
        var _ := disk.Write(paths[i], []);
      }
    }
    assert paths[..|paths|] == paths;
  }

  /**
   * `make`: an empty answer does nothing; otherwise the directory is listed
   * (a listing failure rejects the command), the paths are planned, and each
   * is created, every failure of a single write being ignored.
   */
  method Make(disk: Disk, resource: Entry, kind: MakeKind, name: string) returns (err: Option<FsError>)
    modifies disk
    ensures name == "" ==> disk.fs == old(disk.fs) && err == None
    ensures name != "" && ListEntries(old(disk.fs), resource.path).Err? ==>
      disk.fs == old(disk.fs) && err == Some(ListEntries(old(disk.fs), resource.path).error)
    ensures name != "" && ListEntries(old(disk.fs), resource.path).Ok? ==>
      err == None &&
      disk.fs == CreateAll(old(disk.fs), MakePlan(old(disk.fs), resource.path, ListEntries(old(disk.fs), resource.path).value, kind, name), kind)
  {
    if name == "" {
      return None;
    }
    var listed := GetEntriesFromDir(disk.fs, resource.path);
    if listed.Err? {
      return Some(listed.error);
    }
    var paths := PlanPaths(disk.fs, resource.path, listed.value, kind, name);
    CreatePaths(disk, paths, kind);
    err := None;
  }

  /** The state `delete` leaves: the entry's tree and its sibling's tree, the sibling looked up first */
  function Deleted(fs: Fs, e: Entry): (r: Fs)
    ensures forall k :: k in r <==>
      k in fs && !Under(k, e.path) && (Sibling(fs, e).None? || !Under(k, Sibling(fs, e).value.path))
  {
    var removed := RemoveTree(fs, e.path);
    match Sibling(fs, e)
    case None => removed
    case Some(s) => RemoveTree(removed, s.path)
  }

  /** `delete`: locate the sibling, then remove the entry and the sibling recursively */
  method Delete(disk: Disk, resource: Entry)
    modifies disk
    ensures disk.fs == Deleted(old(disk.fs), resource)
  {
    var alt := LocateAltResource(disk.fs, resource);
    disk.RemoveRecursive(resource.path);
    if alt.Some? {
      disk.RemoveRecursive(alt.value.path);
    }
  }

  /** Deleting a source file below the first `cpp` segment also deletes its header when that exists. */
  lemma DeleteTakesHeader(fs: Fs, a: Path, mid: string, name: string, ft: FileType)
    requires IndexOf(a + Segment(0), Segment(0)) == |a|
    requires mid == "" || EndsWithSep(mid)
    requires name != "" && Sep !in name
    requires a + Segment(1) + mid + name + Exts[1] in fs
    ensures var r := Deleted(fs, Entry(a + Segment(0) + mid + name + Exts[0], ft, None));
      a + Segment(0) + mid + name + Exts[0] !in r && a + Segment(1) + mid + name + Exts[1] !in r
  {
    SourceSibling(fs, a, mid, name, ft);
  }

  /** `oldPath.slice(0, -basename.length) + newName`: the new name in place of the old base name */
  function Target(p: Path, newName: string): Path {
    DropEnd(p, |Basename(p)|) + newName
  }

  /** A separator-free name is its own base name. */
  lemma BasenameOfName(n: string)
    requires Sep !in n
    ensures Basename(n) == n
  {
    BasenameAfterSep("", n);
    assert "" + n == n;
  }

  /** The target is the new name in the folder of the old path. */
  lemma TargetInSameFolder(p: Path, n: string)
    requires n != "" && Sep !in n
    ensures Basename(Target(p, n)) == n
    ensures DropEnd(Target(p, n), |n|) == DropEnd(p, |Basename(p)|)
  {
    var d := DropEnd(p, |Basename(p)|);
    BasenameFollowsSep(p);
    BasenameAfterSep(d, n);
    if d != "" {
      DropSuffix(d, n);
    }
  }

  /** Giving a path its own base name back names the same path. */
  lemma TargetOfOwnName(p: Path)
    requires Basename(p) != ""
    ensures Target(p, Basename(p)) == p
  {
  }

  /** The value the input box proposes for a pair: the base name without its extension */
  function PromptName(base: string): string {
    var ext := ExtName(base);
    if |ext| > 0 then DropEnd(base, |ext|) else base
  }

  /** The proposal followed by the extension is the base name again. */
  lemma PromptNameRestores(base: string)
    requires Sep !in base
    ensures PromptName(base) + ExtName(base) == base
  {
    BasenameOfName(base);
  }

  /** An extension depends only on the base name. */
  lemma ExtNameOfBasename(p: Path)
    ensures ExtName(Basename(p)) == ExtName(p)
  {
    BasenameOfName(Basename(p));
  }

  /** One move of `rename` */
  datatype Move = Move(from: Path, to: Path)

  /**
   * The answers to the input boxes `rename` may open, each independent of
   * the others: the box for a pair (proposing the base name without its
   * extension), the box the sibling's own rename opens when the name it was
   * given is empty, and the box for the entry itself when its name is still
   * empty (both proposing the base name).
   */
  datatype Answers = Answers(pair: string, side: string, own: string)

  /** The moves `rename` makes when no name is given: the sibling's first, then the entry's */
  datatype RenamePlan = RenamePlan(sibling: Option<Move>, main: Move)

  /**
   * The moves of `rename` for `e` whose located sibling is `sibling`. With a
   * sibling, the answer to the pair's box names both, each keeping its own
   * extension; a side whose name comes out empty asks its own box. Without
   * a sibling, the entry's own box is asked.
   */
  function PlanRename(e: Entry, sibling: Option<Entry>, ans: Answers): (r: RenamePlan)
    ensures r.main.from == e.path
    ensures r.sibling.Some? <==> sibling.Some?
    ensures r.sibling.Some? ==> r.sibling.value.from == sibling.value.path
  {
    var base := Basename(e.path);
    match sibling
    case None => RenamePlan(None, Move(e.path, Target(e.path, ans.own)))
    case Some(s) =>
      var sideName := ans.pair + ExtName(s.path);
      var mainName := ans.pair + ExtName(base);
      RenamePlan(Some(Move(s.path, Target(s.path, if sideName == "" then ans.side else sideName))),
                 Move(e.path, Target(e.path, if mainName == "" then ans.own else mainName)))
  }

  /**
   * Renaming one half of a pair to a non-empty name renames both halves to
   * that name, in their own folders, each keeping its own extension.
   */
  lemma RenamePairKeepsExtensions(e: Entry, sibling: Entry, ans: Answers)
    requires ans.pair != "" && Sep !in ans.pair
    ensures var r := PlanRename(e, Some(sibling), ans);
      var n := ans.pair;
      var s := sibling.path;
      r.sibling.Some? &&
      Basename(r.main.to) == n + ExtName(e.path) &&
      Basename(r.sibling.value.to) == n + ExtName(s) &&
      DropEnd(r.main.to, |Basename(r.main.to)|) == DropEnd(e.path, |Basename(e.path)|) &&
      DropEnd(r.sibling.value.to, |Basename(r.sibling.value.to)|) == DropEnd(s, |Basename(s)|)
  {
    var n := ans.pair;
    var s := sibling.path;
    ExtNameOfBasename(e.path);
    ExtNameHasNoSep(e.path);
    ExtNameHasNoSep(s);
    TargetInSameFolder(e.path, n + ExtName(e.path));
    TargetInSameFolder(s, n + ExtName(s));
  }

  /** Accepting the proposed name renames a pair's entry onto itself. */
  lemma RenamePairAcceptingProposal(e: Entry, sibling: Entry, ans: Answers)
    requires Basename(e.path) != ""
    requires ans.pair == PromptName(Basename(e.path))
    ensures PlanRename(e, Some(sibling), ans).main.to == e.path
  {
    PromptNameRestores(Basename(e.path));
    TargetOfOwnName(e.path);
  }

  /** Accepting the proposed name renames a lone entry onto itself. */
  lemma RenameAloneAcceptingProposal(e: Entry, ans: Answers)
    requires Basename(e.path) != ""
    requires ans.own == Basename(e.path)
    ensures PlanRename(e, None, ans) == RenamePlan(None, Move(e.path, e.path))
  {
    TargetOfOwnName(e.path);
  }

  /**
   * Clearing a lone entry's box targets its folder spelt with a trailing
   * separator: the target exists, and the move is refused with nothing changed.
   */
  lemma RenameAloneClearedRefused(fs: Fs, e: Entry, ans: Answers)
    requires ans.own == ""
    requires LastIndexOfChar(e.path, Sep) > 0 && Basename(e.path) != ""
    requires e.path in fs && ParentIsDir(fs, e.path) && Dirname(e.path) + [Sep] !in fs
    ensures var m := PlanRename(e, None, ans).main;
      Exists(fs, m.to) && MoveInto(fs, m.from, m.to) == Outcome(fs, Some(NoPermissions))
  {
    var d := Dirname(e.path);
    var n := Basename(e.path);
    assert e.path == d + [Sep] + n;
    assert DropEnd(e.path, |n|) == d + [Sep];
    assert Target(e.path, "") == d + [Sep];
    MoveOntoFolderRefused(fs, e.path, d);
  }

  /**
   * `rename` once its name is known (or, when it is empty, the answer to a
   * box proposing the base name): warn about an existing target, create its
   * missing folder, move.
   */
  method RenameTo(disk: Disk, resource: Entry, newName: string, answer: string)
    returns (warned: bool, err: Option<FsError>)
    modifies disk
    ensures var m := Move(resource.path, Target(resource.path, if newName == "" then answer else newName));
      warned == Exists(old(disk.fs), m.to) && Outcome(disk.fs, err) == MoveInto(old(disk.fs), m.from, m.to)
  {
    var name := newName;
    if name == "" {
      name := answer;
    }
    var target := DropEnd(resource.path, |Basename(resource.path)|) + name;
    warned := Exists(disk.fs, target);
    if !Exists(disk.fs, Dirname(target)) {
      var e := disk.MakeDirectories(Dirname(target));
      if e.Some? {
        return warned, Some(MassageError(e.value));
      }
    }
    var e := disk.Move(resource.path, target);
    err := if e.Some? then Some(MassageError(e.value)) else None;
  }

  /** The sibling's move: the answer to the proposal with the sibling's own extension */
  lemma SiblingMove(e: Entry, sibling: Entry, ans: Answers)
    ensures var n := ans.pair + ExtName(sibling.path);
      PlanRename(e, Some(sibling), ans).sibling ==
        Some(Move(sibling.path, Target(sibling.path, if n == "" then ans.side else n)))
  {
  }

  /** The name the entry itself gets once the pair's answer is known */
  function MainName(e: Entry, sibling: Option<Entry>, ans: Answers): string {
    if sibling.Some? then ans.pair + ExtName(Basename(e.path)) else ""
  }

  /**
   * The first part of `rename` with no name given: when the entry has a
   * sibling, the pair's box is asked and the sibling is renamed with the
   * answer and its own extension (its rejection is not awaited, so it is
   * dropped); the answer with the entry's extension is returned.
   */
  method RenameSide(disk: Disk, resource: Entry, alt: Option<Entry>, ans: Answers)
    returns (sideWarned: bool, newName: string)
    modifies disk
    ensures var plan := PlanRename(resource, alt, ans);
      newName == MainName(resource, alt, ans) &&
      sideWarned == (plan.sibling.Some? && Exists(old(disk.fs), plan.sibling.value.to)) &&
      disk.fs == if plan.sibling.Some? then MoveInto(old(disk.fs), plan.sibling.value.from, plan.sibling.value.to).fs else old(disk.fs)
  {
    var base := Basename(resource.path);
    newName := "";
    sideWarned := false;
    var ext := ExtName(base);
    var promptName := base;
    if |ext| > 0 {
      promptName := DropEnd(base, |ext|);
    }
    assert promptName == PromptName(base);
    if alt.Some? {
      newName := ans.pair;
      var dropped: Option<FsError>;
      SiblingMove(resource, alt.value, ans);
      sideWarned, dropped := RenameTo(disk, alt.value, newName + ExtName(alt.value.path), ans.side);
      newName := newName + ext;
    }
  }

  /**
   * `rename` with no name given: the sibling is renamed first with the name
   * given explicitly, then the entry.
   */
  method Rename(disk: Disk, resource: Entry, ans: Answers)
    returns (sideWarned: bool, warned: bool, err: Option<FsError>)
    modifies disk
    ensures var plan := PlanRename(resource, Sibling(old(disk.fs), resource), ans);
      var mid := if plan.sibling.Some? then MoveInto(old(disk.fs), plan.sibling.value.from, plan.sibling.value.to).fs else old(disk.fs);
      sideWarned == (plan.sibling.Some? && Exists(old(disk.fs), plan.sibling.value.to)) &&
      warned == Exists(mid, plan.main.to) &&
      Outcome(disk.fs, err) == MoveInto(mid, plan.main.from, plan.main.to)
  {
    var alt := LocateAltResource(disk.fs, resource);
    var newName;
    sideWarned, newName := RenameSide(disk, resource, alt, ans);
    ExtNameOfBasename(resource.path);
    warned, err := RenameTo(disk, resource, newName, ans.own);
  }
}
