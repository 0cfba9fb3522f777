/**
 * The pair resolver: the children of a file entry are the file itself,
 * tagged `include`, and its source counterpart, tagged `cpp`, when one is
 * found. The counterpart is found by raw substring search for `include`
 * and a hard-coded backslash `cpp` segment.
 */
module Pairing {
  import opened Base
  import opened Paths
  import opened FileSystem
  import opened Listing

  const Include: string := "include"

  /** The folder the resolver splices in, written with backslashes whatever `path.sep` is */
  const CppSegment: string := "\\cpp\\"

  const CppExt: string := ".cpp"

  /**
   * Where the resolver looks for the source of `p`: the text before the first
   * `include`, the `cpp` segment, the rest of `p` after `include` with its
   * extension stripped, and `.cpp`. None when `include` does not occur in `p`.
   */
  function CppCandidate(p: Path): (r: Option<Path>)
    ensures r.None? <==> IndexOf(p, Include) < 0
    ensures r.Some? ==> |r.value| >= 4 && r.value[|r.value| - 4..] == CppExt && !EndsWithSep(r.value)
  {
    var i := IndexOf(p, Include);
    if i < 0 then None
    else
      var stem := DropEnd(p, |ExtName(p)|);
      var c := Join(Join(p[..i], CppSegment), SubstringFrom(stem, i + |Include|)) + CppExt;
      assert c[|c| - 1] == 'p';
      Some(c)
  }

  /** The candidate spelled out from the index of `include`, the extension-free stem, and the joins */
  lemma CandidateParts(p: Path, i: int, stem: string, rest: string, front: Path)
    requires IndexOf(p, Include) == i >= 0
    requires stem == DropEnd(p, |ExtName(p)|)
    requires rest == SubstringFrom(stem, i + |Include|)
    requires front == Join(p[..i], CppSegment)
    ensures CppCandidate(p) == Some(Join(front, rest) + CppExt)
  {
  }

  /** Joining the `cpp` segment onto a directory that ends in a separator adds `cpp` and one separator. */
  lemma JoinCppSegment(dir: Path)
    requires EndsWithSep(dir)
    ensures Join(dir, CppSegment) == dir + "cpp" + [Sep]
  {
    assert StartsWithSep(CppSegment);
    assert CppSegment[1..] == "cpp" + [Sep];
  }

  /** The first `include` of `dir\include\name.ext` is the one after `dir`. */
  lemma HeaderIncludeIndex(dir: Path, name: string, ext: string)
    requires IndexOf(dir + Include, Include) == |dir|
    ensures IndexOf(dir + Include + [Sep] + name + "." + ext, Include) == |dir|
  {
    var p := dir + Include + [Sep] + name + "." + ext;
    assert p == dir + Include + ([Sep] + name + "." + ext);
    IndexOfExtended(dir, Include, [Sep] + name + "." + ext);
  }

  /** Stripping the extension of `dir\include\name.ext` leaves `dir\include\name`. */
  lemma HeaderStem(dir: Path, name: string, ext: string)
    requires EndsWithSep(dir)
    requires name != "" && Sep !in name
    requires ext != "" && Sep !in ext && '.' !in ext
    ensures DropEnd(dir + Include + [Sep] + name + "." + ext, |ExtName(dir + Include + [Sep] + name + "." + ext)|)
      == dir + Include + [Sep] + name
  {
    var folder := dir + Include + [Sep];
    var p := folder + name + "." + ext;
    ExtNameOfName(folder, name, ext);
    AppendAssoc(folder + name, ".", ext);
    DropSuffix(folder + name, "." + ext);
  }

  /** What follows `include` in `dir\include\name` */
  lemma HeaderStemTail(dir: Path, name: string)
    ensures SubstringFrom(dir + Include + [Sep] + name, |dir| + |Include|) == [Sep] + name
  {
    var stem := dir + Include + [Sep] + name;
    assert stem[|dir| + |Include|..] == [Sep] + name;
  }

  /** The candidate of `dir\include\name.ext` before its joins are worked out */
  lemma HeaderCandidateParts(dir: Path, name: string, ext: string)
    requires EndsWithSep(dir) && IndexOf(dir + Include, Include) == |dir|
    requires name != "" && Sep !in name
    requires ext != "" && Sep !in ext && '.' !in ext
    ensures var p := dir + Include + [Sep] + name + "." + ext;
      CppCandidate(p) == Some(Join(Join(p[..|dir|], CppSegment), [Sep] + name) + CppExt)
  {
    HeaderIncludeIndex(dir, name, ext);
    HeaderStem(dir, name, ext);
    HeaderStemTail(dir, name);
  }

  /** The joins of that candidate: the `cpp` folder replaces `include` and the name follows it. */
  lemma HeaderCandidateJoins(dir: Path, name: string, ext: string)
    requires EndsWithSep(dir)
    ensures Join(Join((dir + Include + [Sep] + name + "." + ext)[..|dir|], CppSegment), [Sep] + name)
      == dir + "cpp" + [Sep] + name
  {
    var p := dir + Include + [Sep] + name + "." + ext;
    assert p[..|dir|] == dir;
    JoinCppSegment(dir);
    assert Join(dir + "cpp" + [Sep], [Sep] + name) == dir + "cpp" + [Sep] + name;
  }

  /** `dir\include\name.ext` is paired with `dir\cpp\name.cpp`, whatever the header's extension. */
  lemma HeaderPairsWithSource(dir: Path, name: string, ext: string)
    requires EndsWithSep(dir) && IndexOf(dir + Include, Include) == |dir|
    requires name != "" && Sep !in name
    requires ext != "" && Sep !in ext && '.' !in ext
    ensures CppCandidate(dir + Include + [Sep] + name + "." + ext) == Some(dir + "cpp" + [Sep] + name + CppExt)
  {
    HeaderCandidateParts(dir, name, ext);
    HeaderCandidateJoins(dir, name, ext);
  }

  /**
   * For a path without extension `slice(0, -0)` is empty, so everything after
   * `include` is dropped: the candidate is the `cpp` segment and `.cpp` alone.
   */
  lemma ExtensionlessCandidate(p: Path)
    requires IndexOf(p, Include) >= 0 && ExtName(p) == ""
    ensures CppCandidate(p) == Some(Join(p[..IndexOf(p, Include)], CppSegment) + CppExt)
  {
  }

  /** `dir\include` (a file named `include`) is paired with `dir\cpp\.cpp`. */
  lemma IncludeFileCandidate(dir: Path)
    requires EndsWithSep(dir) && IndexOf(dir + Include, Include) == |dir|
    ensures CppCandidate(dir + Include) == Some(dir + "cpp" + [Sep] + CppExt)
  {
    var p := dir + Include;
    BasenameAfterSep(dir, Include);
    assert LastIndexOfChar(Include, '.') == -1;
    assert ExtName(p) == "";
    assert p[..|dir|] == dir;
    JoinCppSegment(dir);
    CandidateParts(p, |dir|, "", "", dir + "cpp" + [Sep]);
  }

  /** The entry every file's children start with: the file itself, tagged `include` */
  function IncludeSide(e: Entry): Entry {
    Entry(e.path, File, Some(IncludeTitle))
  }

  /** `CPPViewProvider.getChildren` on a file: the counterpart is added when `existsSync` holds */
  function ViewPair(fs: Fs, e: Entry): (r: seq<Entry>)
    ensures 1 <= |r| <= 2
    ensures r[0] == Entry(e.path, File, Some(IncludeTitle))
    ensures |r| == 2 <==> CppCandidate(e.path).Some? && CppCandidate(e.path).value in fs
    ensures |r| == 2 ==> r[1] == Entry(CppCandidate(e.path).value, File, Some(CppTitle))
  {
    match CppCandidate(e.path)
    case None => [IncludeSide(e)]
    case Some(c) =>
      if Exists(fs, c) then [IncludeSide(e), Entry(c, File, Some(CppTitle))] else [IncludeSide(e)]
  }

  /**
   * `FileSystemProvider.getChildren` on a file: the counterpart is `stat`ed;
   * it is added only when it is a file, and a missing one fails the call.
   */
  function TreePair(fs: Fs, e: Entry): (r: Result<seq<Entry>, FsError>)
    ensures r.Err? <==> CppCandidate(e.path).Some? && CppCandidate(e.path).value !in fs
    ensures r.Err? ==> r.error == FileNotFound
    ensures r.Ok? ==> 1 <= |r.value| <= 2 && r.value[0] == Entry(e.path, File, Some(IncludeTitle))
    ensures r.Ok? ==> (|r.value| == 2 <==> CppCandidate(e.path).Some? && fs[CppCandidate(e.path).value].FileNode?)
    ensures r.Ok? && |r.value| == 2 ==> r.value[1] == Entry(CppCandidate(e.path).value, File, Some(CppTitle))
  {
    match CppCandidate(e.path)
    case None => Ok([IncludeSide(e)])
    case Some(c) =>
      match Stat(fs, c)
      case Err(code) => Err(MassageError(code))
      case Ok(st) =>
        if st.isFile then Ok([IncludeSide(e), Entry(c, File, Some(CppTitle))]) else Ok([IncludeSide(e)])
  }

  /**
   * The two resolvers agree except on the counterpart's existence test: a
   * directory at the candidate is paired by one and not the other, and a
   * missing candidate fails the tree provider's call.
   */
  lemma ResolversCompared(fs: Fs, e: Entry)
    ensures CppCandidate(e.path).None? ==> TreePair(fs, e) == Ok(ViewPair(fs, e))
    ensures CppCandidate(e.path).Some? && CppCandidate(e.path).value in fs && fs[CppCandidate(e.path).value].FileNode?
      ==> TreePair(fs, e) == Ok(ViewPair(fs, e))
    ensures CppCandidate(e.path).Some? && CppCandidate(e.path).value in fs && !fs[CppCandidate(e.path).value].FileNode?
      ==> |ViewPair(fs, e)| == 2 && TreePair(fs, e) == Ok([ViewPair(fs, e)[0]])
    ensures CppCandidate(e.path).Some? && CppCandidate(e.path).value !in fs
      ==> ViewPair(fs, e) == [IncludeSide(e)] && TreePair(fs, e) == Err(FileNotFound)
  {
    var v, t := ViewPair(fs, e), TreePair(fs, e);
    match CppCandidate(e.path)
    case None =>
    case Some(c) =>
      if c in fs {
        assert Exists(fs, c);
        assert |v| == 2;
      } else {
        assert !Exists(fs, c);
      }
  }
}
