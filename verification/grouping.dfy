/**
 * `getChildren` of both tree providers. A file's children are its pair; a
 * directory's children are its sorted listing, unless the listing holds an
 * entry named `cpp` or `include`, in which case that entry's own children
 * replace it (a later `include` overriding whatever was chosen before).
 */
module Grouping {
  import opened Base
  import opened Paths
  import opened FileSystem
  import opened Listing
  import opened Pairing

  /**
   * Which provider: `CPPViewProvider` tests the counterpart with `existsSync`,
   * `FileSystemProvider` with `stat(..).isFile()`.
   */
  datatype Provider = ViewProvider | TreeProvider

  /** The file branch of `getChildren` */
  function FilePair(prov: Provider, fs: Fs, e: Entry): (r: Result<seq<Entry>, FsError>)
    ensures prov == ViewProvider ==> r.Ok?
    ensures r.Ok? ==> 1 <= |r.value| <= 2 && r.value[0] == IncludeSide(e)
    ensures r.Ok? && |r.value| == 2 ==> r.value[1].title == Some(CppTitle)
  {
    match prov
    case ViewProvider => Ok(ViewPair(fs, e))
    case TreeProvider => TreePair(fs, e)
  }

  /** The names the folder branch looks for */
  predicate IsSplitName(base: string) {
    base == "cpp" || base == "include"
  }

  /** The objects whose paths are longer than `p`: the measure that shrinks as grouping descends */
  function Longer(fs: Fs, p: Path): set<Path> {
    set k | k in fs && |k| > |p|
  }

  /** Joining a non-empty, separator-free name lengthens a path. */
  lemma JoinLonger(d: Path, n: string)
    requires n != "" && Sep !in n
    ensures |Join(d, n)| > |d|
  {
    assert n[0] in n;
  }

  /** An existing object below `d` has fewer objects longer than itself than `d` has. */
  lemma LongerShrinks(fs: Fs, d: Path, c: Path)
    requires c in fs && |c| > |d|
    ensures Longer(fs, c) < Longer(fs, d)
  {
    assert c in Longer(fs, d);
    assert c !in Longer(fs, c);
  }

  /** In a consistent filesystem every listed entry lies strictly deeper than its directory. */
  lemma ListedBelow(fs: Fs, d: Path, e: Entry)
    requires Valid(fs)
    requires ListEntries(fs, d).Ok? && e in ListEntries(fs, d).value
    ensures e.path in fs && |e.path| > |d|
    ensures Longer(fs, e.path) < Longer(fs, d)
  {
    ListedEntries(fs, d, e);
    var n :| n in fs[d].names && e.path == Join(d, n);
    var i :| 0 <= i < |fs[d].names| && fs[d].names[i] == n;
    assert ValidChild(fs[d].names[i]);
    JoinLonger(d, n);
    LongerShrinks(fs, d, e.path);
  }

  /** Every entry of `entries` lies strictly deeper than `d`, by the measure of grouping */
  predicate Deeper(fs: Fs, d: Path, entries: seq<Entry>) {
    forall k :: 0 <= k < |entries| ==> Longer(fs, entries[k].path) < Longer(fs, d)
  }

  /** In a consistent filesystem a directory's listing lies strictly deeper than the directory. */
  lemma ListedDeeper(fs: Fs, d: Path, entries: seq<Entry>)
    requires Valid(fs) && ListEntries(fs, d) == Ok(entries)
    ensures Deeper(fs, d, entries)
  {
    forall k | 0 <= k < |entries| ensures Longer(fs, entries[k].path) < Longer(fs, d) {
      ListedBelow(fs, d, entries[k]);
    }
  }

  /** `getChildren(element)` for an entry */
  function Children(prov: Provider, fs: Fs, e: Entry): Result<seq<Entry>, FsError>
    requires Valid(fs)
    decreases Longer(fs, e.path), 2, 0
  {
    if e.ftype == File then FilePair(prov, fs, e)
    else if e.ftype == Directory then Group(prov, fs, e.path)
    else Ok([])
  }

  /** The folder branch: list, then scan the listing for a split */
  function Group(prov: Provider, fs: Fs, d: Path): Result<seq<Entry>, FsError>
    requires Valid(fs)
    decreases Longer(fs, d), 1, 0
  {
    match ListEntries(fs, d)
    case Err(err) => Err(err)
    case Ok(entries) =>
      ListedDeeper(fs, d, entries);
      Scan(prov, fs, d, entries, 0, false, [])
  }

  /** The entry sends the loop into the folder branch: a `cpp` or `include` entry, only `include` once one matched */
  predicate Triggers(e: Entry, matched: bool) {
    var base := Basename(e.path);
    IsSplitName(base) && (!matched || base == "include")
  }

  /**
   * The scan over the listing from index `i` on, `matched` and `children`
   * being what the loop has gathered before `i`.
   */
  function Scan(prov: Provider, fs: Fs, d: Path, entries: seq<Entry>, i: nat, matched: bool, children: seq<Entry>)
    : Result<seq<Entry>, FsError>
    requires Valid(fs) && Deeper(fs, d, entries) && i <= |entries|
    decreases Longer(fs, d), 0, |entries| - i
  {
    if i == |entries| then Ok(if matched then children else entries)
    else
      if Triggers(entries[i], matched) then
        match Children(prov, fs, entries[i])
        case Err(err) => Err(err)
        case Ok(sub) => Scan(prov, fs, d, entries, i + 1, true, sub)
      else Scan(prov, fs, d, entries, i + 1, matched, children)
  }

  /** `getChildren()` with no element: the listing of the first workspace folder, if there is one */
  function RootChildren(fs: Fs, workspace: Option<Path>): (r: Result<seq<Entry>, FsError>)
    ensures workspace.None? ==> r == Ok([])
    ensures workspace.Some? ==> r == ListEntries(fs, workspace.value)
  {
    match workspace
    case None => Ok([])
    case Some(w) => ListEntries(fs, w)
  }

  /** `getChildren(element)`, the recursive method */
  method GetChildren(prov: Provider, fs: Fs, element: Entry) returns (r: Result<seq<Entry>, FsError>)
    requires Valid(fs)
    ensures r == Children(prov, fs, element)
    decreases Longer(fs, element.path), 2
  {
    if element.ftype == File {
      return FilePair(prov, fs, element);
    }
    if element.ftype != Directory {
      return Ok([]);
    }
    var d := element.path;
    var listed := GetEntriesFromDir(fs, d);
    if listed.Err? {
      return Err(listed.error);
    }
    ListedDeeper(fs, d, listed.value);
    r := ScanFolder(prov, fs, d, listed.value);
  }

  /** The folder loop of `getChildren`: the last `include`, or else the first `cpp`, supplies the children */
  method ScanFolder(prov: Provider, fs: Fs, d: Path, entries: seq<Entry>) returns (r: Result<seq<Entry>, FsError>)
    requires Valid(fs) && Deeper(fs, d, entries)
    ensures r == Scan(prov, fs, d, entries, 0, false, [])
    decreases Longer(fs, d), 1
  {
    var children: seq<Entry> := [];
    var matched := false;
    var i := 0;
    while i < |entries|
      invariant 0 <= i <= |entries|
      invariant Scan(prov, fs, d, entries, 0, false, []) == Scan(prov, fs, d, entries, i, matched, children)
    {
      var step := ScanStep(prov, fs, d, entries, i, matched, children);
      if step.Err? {
        return Err(step.error);
      }
      matched, children := step.value.0, step.value.1;
      i := i + 1;
    }
    ScanDone(prov, fs, d, entries, matched, children);
    r := Ok(if matched then children else entries);
  }

  /**
   * One turn of that loop: a `cpp` or `include` entry (only `include` once
   * one was matched) replaces what was gathered by its children.
   */
  method ScanStep(prov: Provider, fs: Fs, d: Path, entries: seq<Entry>, i: nat, matched: bool, children: seq<Entry>)
    returns (r: Result<(bool, seq<Entry>), FsError>)
    requires Valid(fs) && Deeper(fs, d, entries) && i < |entries|
    ensures r.Err? ==> Scan(prov, fs, d, entries, i, matched, children) == Err(r.error)
    ensures r.Ok? ==> Scan(prov, fs, d, entries, i, matched, children) ==
                      Scan(prov, fs, d, entries, i + 1, r.value.0, r.value.1)
    decreases Longer(fs, d), 0
  {
    if Triggers(entries[i], matched) {
      var sub := GetChildren(prov, fs, entries[i]);
      ScanTakes(prov, fs, d, entries, i, matched, children, sub);
      if sub.Err? {
        return Err(sub.error);
      }
      return Ok((true, sub.value));
    }
    ScanSkips(prov, fs, d, entries, i, matched, children);
    return Ok((matched, children));
  }

  /** `getChildren` with an optional element and the optional workspace folder */
  method GetChildrenOf(prov: Provider, fs: Fs, element: Option<Entry>, workspace: Option<Path>)
    returns (r: Result<seq<Entry>, FsError>)
    requires Valid(fs)
    ensures element.None? ==> r == RootChildren(fs, workspace)
    ensures element.Some? ==> r == Children(prov, fs, element.value)
  {
    if element.Some? {
      r := GetChildren(prov, fs, element.value);
    } else if workspace.Some? {
      r := GetEntriesFromDir(fs, workspace.value);
    } else {
      r := Ok([]);
    }
  }

  /** The last entry named `include`, or else the first named `cpp`: the entry whose children the folder shows */
  predicate Chosen(entries: seq<Entry>, j: int) {
    0 <= j < |entries| &&
    ((Basename(entries[j].path) == "include" &&
      forall k :: j < k < |entries| ==> Basename(entries[k].path) != "include") ||
     (Basename(entries[j].path) == "cpp" &&
      (forall k :: 0 <= k < |entries| ==> Basename(entries[k].path) != "include") &&
      (forall k :: 0 <= k < j ==> Basename(entries[k].path) != "cpp")))
  }

  /** An entry that does not trigger the folder branch leaves the scan's state as it was. */
  lemma ScanSkips(prov: Provider, fs: Fs, d: Path, entries: seq<Entry>, i: nat, matched: bool, children: seq<Entry>)
    requires Valid(fs) && Deeper(fs, d, entries) && i < |entries|
    requires !Triggers(entries[i], matched)
    ensures Scan(prov, fs, d, entries, i, matched, children) == Scan(prov, fs, d, entries, i + 1, matched, children)
  {
  }

  /** An entry that triggers the folder branch replaces what was gathered by its children, or fails the scan. */
  lemma ScanTakes(prov: Provider, fs: Fs, d: Path, entries: seq<Entry>, i: nat, matched: bool, children: seq<Entry>,
                  sub: Result<seq<Entry>, FsError>)
    requires Valid(fs) && Deeper(fs, d, entries) && i < |entries|
    requires Triggers(entries[i], matched)
    requires sub == Children(prov, fs, entries[i])
    ensures sub.Err? ==> Scan(prov, fs, d, entries, i, matched, children) == Err(sub.error)
    ensures sub.Ok? ==> Scan(prov, fs, d, entries, i, matched, children) == Scan(prov, fs, d, entries, i + 1, true, sub.value)
  {
  }

  /** A scan past the end returns what it gathered, or the listing when nothing matched. */
  lemma ScanDone(prov: Provider, fs: Fs, d: Path, entries: seq<Entry>, matched: bool, children: seq<Entry>)
    requires Valid(fs) && Deeper(fs, d, entries)
    ensures Scan(prov, fs, d, entries, |entries|, matched, children) == Ok(if matched then children else entries)
  {
  }

  /** Once a split is matched, a scan that meets no further `include` keeps what it has. */
  lemma {:induction false} ScanKeeps(prov: Provider, fs: Fs, d: Path, entries: seq<Entry>, i: nat, children: seq<Entry>)
    requires Valid(fs) && Deeper(fs, d, entries) && i <= |entries|
    requires forall k :: i <= k < |entries| ==> Basename(entries[k].path) != "include"
    ensures Scan(prov, fs, d, entries, i, true, children) == Ok(children)
    decreases |entries| - i
  {
    if i < |entries| {
      ScanSkips(prov, fs, d, entries, i, true, children);
      ScanKeeps(prov, fs, d, entries, i + 1, children);
    } else {
      ScanDone(prov, fs, d, entries, true, children);
    }
  }

  /** A scan that meets no split name returns the listing itself. */
  lemma {:induction false} ScanPassesThrough(prov: Provider, fs: Fs, d: Path, entries: seq<Entry>, i: nat)
    requires Valid(fs) && Deeper(fs, d, entries) && i <= |entries|
    requires forall k :: i <= k < |entries| ==> !IsSplitName(Basename(entries[k].path))
    ensures Scan(prov, fs, d, entries, i, false, []) == Ok(entries)
    decreases |entries| - i
  {
    if i < |entries| {
      assert Scan(prov, fs, d, entries, i + 1, false, []) == Ok(entries) by {
        ScanPassesThrough(prov, fs, d, entries, i + 1);
      }
      assert Scan(prov, fs, d, entries, i, false, []) == Scan(prov, fs, d, entries, i + 1, false, []) by {
        ScanSkips(prov, fs, d, entries, i, false, []);
      }
    }
  }

  /** At an entry that triggers the folder branch, with no `include` after it, the scan ends with that entry's children. */
  lemma ScanEndsAt(prov: Provider, fs: Fs, d: Path, entries: seq<Entry>, j: nat, matched: bool, children: seq<Entry>)
    requires Valid(fs) && Deeper(fs, d, entries) && j < |entries|
    requires Triggers(entries[j], matched)
    requires forall k :: j < k < |entries| ==> Basename(entries[k].path) != "include"
    ensures Scan(prov, fs, d, entries, j, matched, children) == Children(prov, fs, entries[j])
  {
    var sub := Children(prov, fs, entries[j]);
    if sub.Ok? {
      assert Scan(prov, fs, d, entries, j + 1, true, sub.value) == Ok(sub.value) by {
        ScanKeeps(prov, fs, d, entries, j + 1, sub.value);
      }
    }
  }

  /** A scan that has not passed the last `include` ends with that entry's children, unless it failed. */
  lemma {:induction false} ScanTakesLastInclude(prov: Provider, fs: Fs, d: Path, entries: seq<Entry>,
                                                i: nat, matched: bool, children: seq<Entry>, j: nat)
    requires Valid(fs) && Deeper(fs, d, entries) && i <= j < |entries|
    requires Basename(entries[j].path) == "include"
    requires forall k :: j < k < |entries| ==> Basename(entries[k].path) != "include"
    requires Scan(prov, fs, d, entries, i, matched, children).Ok?
    ensures Scan(prov, fs, d, entries, i, matched, children) == Children(prov, fs, entries[j])
    decreases j - i
  {
    if i == j {
      ScanEndsAt(prov, fs, d, entries, j, matched, children);
    } else {
      var matched', children' := ScanAdvances(prov, fs, d, entries, i, matched, children);
      ScanTakesLastInclude(prov, fs, d, entries, i + 1, matched', children', j);
    }
  }

  /** A scan that does not fail at entry `i` goes on from `i + 1` with some gathered state. */
  lemma ScanAdvances(prov: Provider, fs: Fs, d: Path, entries: seq<Entry>, i: nat, matched: bool, children: seq<Entry>)
    returns (matched': bool, children': seq<Entry>)
    requires Valid(fs) && Deeper(fs, d, entries) && i < |entries|
    requires Scan(prov, fs, d, entries, i, matched, children).Ok?
    ensures Scan(prov, fs, d, entries, i, matched, children) == Scan(prov, fs, d, entries, i + 1, matched', children')
  {
    if Triggers(entries[i], matched) {
      var sub := Children(prov, fs, entries[i]);
      ScanTakes(prov, fs, d, entries, i, matched, children, sub);
      matched', children' := true, sub.value;
    } else {
      ScanSkips(prov, fs, d, entries, i, matched, children);
      matched', children' := matched, children;
    }
  }

  /** A run of entries that do not trigger the folder branch leaves the scan's state as it was. */
  lemma {:induction false} ScanSkipsTo(prov: Provider, fs: Fs, d: Path, entries: seq<Entry>, i: nat, j: nat,
                                       matched: bool, children: seq<Entry>)
    requires Valid(fs) && Deeper(fs, d, entries) && i <= j <= |entries|
    requires forall k :: i <= k < j ==> !Triggers(entries[k], matched)
    ensures Scan(prov, fs, d, entries, i, matched, children) == Scan(prov, fs, d, entries, j, matched, children)
    decreases j - i
  {
    if i < j {
      ScanSkipsTo(prov, fs, d, entries, i + 1, j, matched, children);
      ScanSkips(prov, fs, d, entries, i, matched, children);
    }
  }

  /** Without any `include`, a scan that has met no split yet ends with the first `cpp` entry's children. */
  lemma ScanTakesFirstCpp(prov: Provider, fs: Fs, d: Path, entries: seq<Entry>, i: nat, j: nat)
    requires Valid(fs) && Deeper(fs, d, entries) && i <= j < |entries|
    requires Basename(entries[j].path) == "cpp"
    requires forall k :: 0 <= k < |entries| ==> Basename(entries[k].path) != "include"
    requires forall k :: i <= k < j ==> Basename(entries[k].path) != "cpp"
    ensures Scan(prov, fs, d, entries, i, false, []) == Children(prov, fs, entries[j])
  {
    ScanSkipsTo(prov, fs, d, entries, i, j, false, []);
    ScanEndsAt(prov, fs, d, entries, j, false, []);
  }

  /**
   * A folder whose listing holds a split shows the children of the chosen
   * entry: the last `include` (when the scan did not fail before it), else
   * the first `cpp`. The entry's kind is not checked.
   */
  lemma GroupShowsChosen(prov: Provider, fs: Fs, d: Path, j: int)
    requires Valid(fs) && ListEntries(fs, d).Ok? && Chosen(ListEntries(fs, d).value, j)
    requires Basename(ListEntries(fs, d).value[j].path) == "include" ==> Group(prov, fs, d).Ok?
    ensures Group(prov, fs, d) == Children(prov, fs, ListEntries(fs, d).value[j])
  {
    var entries := ListEntries(fs, d).value;
    ListedDeeper(fs, d, entries);
    if Basename(entries[j].path) == "include" {
      ScanTakesLastInclude(prov, fs, d, entries, 0, false, [], j);
    } else {
      ScanTakesFirstCpp(prov, fs, d, entries, 0, j);
    }
  }

  /** A folder whose listing holds no split shows its sorted listing unchanged, which is empty for an empty folder. */
  lemma GroupWithoutSplit(prov: Provider, fs: Fs, d: Path)
    requires Valid(fs) && ListEntries(fs, d).Ok?
    requires forall e :: e in ListEntries(fs, d).value ==> !IsSplitName(Basename(e.path))
    ensures Group(prov, fs, d) == ListEntries(fs, d)
    ensures ListEntries(fs, d).value == [] ==> Group(prov, fs, d) == Ok([])
  {
    var entries := ListEntries(fs, d).value;
    ListedDeeper(fs, d, entries);
    ScanPassesThrough(prov, fs, d, entries, 0);
  }

  /**
   * A folder that lists a name which does not `stat` (a dangling link, or a
   * child removed after `readdir`) fails with FileNotFound, in both providers.
   */
  lemma GroupMissingChild(prov: Provider, fs: Fs, d: Path, i: nat)
    requires Valid(fs) && d in fs && fs[d].DirNode? && i < |fs[d].names|
    requires Join(d, fs[d].names[i]) !in fs
    ensures Group(prov, fs, d) == Err(FileNotFound)
    ensures Children(prov, fs, Entry(d, Directory, None)) == Err(FileNotFound)
  {
    assert StatAll(fs, d, fs[d].names).Err?;
    assert ListEntries(fs, d) == Err(FileNotFound);
  }

  /** An entry that is neither a file nor a directory has no children. */
  lemma OtherKindsHaveNoChildren(prov: Provider, fs: Fs, e: Entry)
    requires Valid(fs) && e.ftype != File && e.ftype != Directory
    ensures Children(prov, fs, e) == Ok([])
  {
  }

  /** The view provider's grouping fails only where listing a folder fails; a file never fails. */
  lemma ViewFileNeverFails(fs: Fs, e: Entry)
    requires Valid(fs) && e.ftype == File
    ensures Children(ViewProvider, fs, e) == Ok(ViewPair(fs, e))
  {
  }
}
