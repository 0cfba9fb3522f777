/**
 * `locateAltResource`: the other half of a header/source pair, found by
 * swapping the first whole `cpp` path segment for `include` (or the first
 * `include` segment for `cpp`) and `.cpp` for `.h` (or back). Unlike the pair
 * resolver this matches separator-delimited segments and works both ways.
 */
module Siblings {
  import opened Base
  import opened Paths
  import opened FileSystem
  import opened Listing

  /** The split folders, and the extension each side's files get */
  const Folders: seq<string> := ["cpp", "include"]
  const Exts: seq<string> := [".cpp", ".h"]

  /** Folder `i` as a whole path segment */
  function Segment(i: nat): (r: string)
    requires i < 2
    ensures |r| == |Folders[i]| + 2 && r[0] == Sep && r[|r| - 1] == Sep
  {
    [Sep] + Folders[i] + [Sep]
  }

  /**
   * Try `i` of the locator: the path with its first segment `Folders[i]`
   * replaced by the other folder and its extension, if any, by the other
   * side's. None when the segment does not occur.
   */
  function AltCandidate(p: Path, i: nat): (r: Option<Path>)
    requires i < 2
    ensures r.None? <==> IndexOf(p, Segment(i)) < 0
  {
    var found := IndexOf(p, Segment(i)) + 1;
    if found == 0 then None
    else
      var ext := ExtName(p);
      var noExt := if |ext| > 0 then DropEnd(p, |ext|) else p;
      var altExt := if |ext| > 0 then Exts[1 - i] else "";
      Some(Join(Join(p[..found], Folders[1 - i]), SubstringFrom(noExt, found + |Folders[i]|)) + altExt)
  }

  /** The result of try `i`, when its candidate exists */
  function Try(fs: Fs, e: Entry, i: nat): (r: Option<Entry>)
    requires i < 2
    ensures r.Some? <==> AltCandidate(e.path, i).Some? && Exists(fs, AltCandidate(e.path, i).value)
    ensures r.Some? ==> r.value == Entry(AltCandidate(e.path, i).value, e.ftype, None)
  {
    match AltCandidate(e.path, i)
    case None => None
    case Some(c) => if Exists(fs, c) then Some(Entry(c, e.ftype, None)) else None
  }

  /** The sibling of an untitled entry: the `cpp` try first, then the `include` try */
  function Sibling(fs: Fs, e: Entry): (r: Option<Entry>)
    ensures e.title.Some? ==> r.None?
    ensures r.Some? ==> r.value.ftype == e.ftype && r.value.title.None? && Exists(fs, r.value.path)
    ensures r.Some? ==> r == Try(fs, e, 0) || r == Try(fs, e, 1)
    ensures e.title.None? && Try(fs, e, 0).Some? ==> r == Try(fs, e, 0)
  {
    if e.title.Some? then None
    else if Try(fs, e, 0).Some? then Try(fs, e, 0)
    else Try(fs, e, 1)
  }

  /** Try `i` hits exactly when its candidate exists. */
  lemma TryOf(fs: Fs, e: Entry, i: nat, alt: Option<Path>)
    requires i < 2 && alt == AltCandidate(e.path, i)
    ensures Try(fs, e, i) == if alt.Some? && Exists(fs, alt.value) then Some(Entry(alt.value, e.ftype, None)) else None
  {
  }

  /** `locateAltResource`: the two tries in a loop, returning at the first hit */
  method LocateAltResource(fs: Fs, e: Entry) returns (r: Option<Entry>)
    ensures r == Sibling(fs, e)
  {
    if e.title.Some? {
      return None;
    }
    for i := 0 to 2
      invariant i > 0 ==> Try(fs, e, 0).None?
      invariant i > 1 ==> Try(fs, e, 1).None?
    {
      var alt := AltCandidate(e.path, i);
      TryOf(fs, e, i, alt);
      if alt.Some? && Exists(fs, alt.value) {
        return Some(Entry(alt.value, e.ftype, None));
      }
    }
    return None;
  }

  /** The first segment `i` of `a + Segment(i) + rest` is the one after `a`. */
  lemma SegmentIndex(a: Path, i: nat, rest: string)
    requires i < 2 && IndexOf(a + Segment(i), Segment(i)) == |a|
    ensures IndexOf(a + Segment(i) + rest, Segment(i)) == |a|
  {
    IndexOfExtended(a, Segment(i), rest);
  }

  /** The extension of a side's file is that side's extension, and stripping it leaves the rest. */
  lemma SideExtension(dir: Path, name: string, i: nat)
    requires i < 2 && EndsWithSep(dir)
    requires name != "" && Sep !in name
    ensures ExtName(dir + name + Exts[i]) == Exts[i]
    ensures DropEnd(dir + name + Exts[i], |Exts[i]|) == dir + name
  {
    var x := if i == 0 then "cpp" else "h";
    assert Exts[i] == "." + x;
    var p := dir + name + Exts[i];
    assert p == dir + name + "." + x;
    ExtNameOfName(dir, name, x);
    DropSuffix(dir + name, Exts[i]);
  }

  /** What follows folder `i` in `a + Segment(i) + rest` */
  lemma AfterFolder(a: Path, i: nat, rest: string)
    requires i < 2
    ensures SubstringFrom(a + Segment(i) + rest, |a| + 1 + |Folders[i]|) == [Sep] + rest
  {
    var s := a + Segment(i) + rest;
    assert s[|a| + 1 + |Folders[i]|..] == [Sep] + rest;
  }

  /** Splicing the other folder after `a` and its separator, then the separator-led rest */
  lemma SpliceFolder(a: Path, i: nat, rest: string)
    requires i < 2
    ensures Join(Join((a + Segment(i) + rest)[..|a| + 1], Folders[1 - i]), [Sep] + rest) == a + Segment(1 - i) + rest
  {
    var s := a + Segment(i) + rest;
    assert s[..|a| + 1] == a + [Sep];
    var f := Folders[1 - i];
    assert f[0] != Sep && f[|f| - 1] != Sep;
    assert Join(a + [Sep], f) == a + [Sep] + f;
    assert Join(a + [Sep] + f, [Sep] + rest) == a + [Sep] + f + ([Sep] + rest);
  }

  /** Try `i` spelled out from the parts it is made of */
  lemma AltParts(p: Path, i: nat, a: Path, noExt: string, rest: string)
    requires i < 2
    requires IndexOf(p, Segment(i)) == |a|
    requires ExtName(p) == Exts[i] && noExt == DropEnd(p, |Exts[i]|)
    requires SubstringFrom(noExt, |a| + 1 + |Folders[i]|) == [Sep] + rest
    ensures AltCandidate(p, i) == Some(Join(Join(p[..|a| + 1], Folders[1 - i]), [Sep] + rest) + Exts[1 - i])
  {
  }

  /** The first segment `i` of a side-`i` file is the one after `a`. */
  lemma SwapIndex(a: Path, mid: string, name: string, i: nat)
    requires i < 2 && IndexOf(a + Segment(i), Segment(i)) == |a|
    ensures IndexOf(a + Segment(i) + mid + name + Exts[i], Segment(i)) == |a|
  {
    assert a + Segment(i) + mid + name + Exts[i] == a + Segment(i) + (mid + name + Exts[i]);
    SegmentIndex(a, i, mid + name + Exts[i]);
  }

  /** A side-`i` file has extension `Exts[i]`, and without it is `a + Segment(i) + mid + name`. */
  lemma SwapStem(a: Path, mid: string, name: string, i: nat)
    requires i < 2
    requires mid == "" || EndsWithSep(mid)
    requires name != "" && Sep !in name
    ensures ExtName(a + Segment(i) + mid + name + Exts[i]) == Exts[i]
    ensures DropEnd(a + Segment(i) + mid + name + Exts[i], |Exts[i]|) == a + Segment(i) + mid + name
  {
    var dir := a + Segment(i) + mid;
    assert EndsWithSep(dir);
    SideExtension(dir, name, i);
  }

  /** What follows folder `i` in `a + Segment(i) + mid + name` */
  lemma SwapTail(a: Path, mid: string, name: string, i: nat)
    requires i < 2
    ensures SubstringFrom(a + Segment(i) + mid + name, |a| + 1 + |Folders[i]|) == [Sep] + (mid + name)
  {
    assert a + Segment(i) + mid + name == a + Segment(i) + (mid + name);
    AfterFolder(a, i, mid + name);
  }

  /** Try `i` on `a + Segment(i) + mid + name + Exts[i]`, before its joins are worked out */
  lemma SwapSidesParts(a: Path, mid: string, name: string, i: nat)
    requires i < 2 && IndexOf(a + Segment(i), Segment(i)) == |a|
    requires mid == "" || EndsWithSep(mid)
    requires name != "" && Sep !in name
    ensures var p := a + Segment(i) + mid + name + Exts[i];
      AltCandidate(p, i) == Some(Join(Join(p[..|a| + 1], Folders[1 - i]), [Sep] + (mid + name)) + Exts[1 - i])
  {
    SwapIndex(a, mid, name, i);
    SwapStem(a, mid, name, i);
    SwapTail(a, mid, name, i);
    AltParts(a + Segment(i) + mid + name + Exts[i], i, a, a + Segment(i) + mid + name, mid + name);
  }

  /** The joins of that candidate: the other folder in place of folder `i` */
  lemma SwapSidesJoins(a: Path, mid: string, name: string, i: nat)
    requires i < 2
    ensures var p := a + Segment(i) + mid + name + Exts[i];
      Join(Join(p[..|a| + 1], Folders[1 - i]), [Sep] + (mid + name)) + Exts[1 - i]
        == a + Segment(1 - i) + mid + name + Exts[1 - i]
  {
    var p := a + Segment(i) + mid + name + Exts[i];
    var rest := mid + name;
    assert p == a + Segment(i) + (rest + Exts[i]);
    assert p[..|a| + 1] == (a + Segment(i) + rest)[..|a| + 1];
    SpliceFolder(a, i, rest);
    assert a + Segment(1 - i) + rest + Exts[1 - i] == a + Segment(1 - i) + mid + name + Exts[1 - i];
  }

  /**
   * Try `i` on a file of side `i` below the first segment of its folder gives
   * the file of the same name on the other side, with the other extension:
   * `a\cpp\mid\name.cpp` and `a\include\mid\name.h` are each other's candidates.
   */
  lemma SwapSides(a: Path, mid: string, name: string, i: nat)
    requires i < 2 && IndexOf(a + Segment(i), Segment(i)) == |a|
    requires mid == "" || EndsWithSep(mid)
    requires name != "" && Sep !in name
    ensures AltCandidate(a + Segment(i) + mid + name + Exts[i], i) == Some(a + Segment(1 - i) + mid + name + Exts[1 - i])
  {
    SwapSidesParts(a, mid, name, i);
    SwapSidesJoins(a, mid, name, i);
  }

  /** Swapping sides twice gives the original path back. */
  lemma SwapSidesRoundTrip(a: Path, mid: string, name: string, i: nat)
    requires i < 2
    requires IndexOf(a + Segment(i), Segment(i)) == |a| && IndexOf(a + Segment(1 - i), Segment(1 - i)) == |a|
    requires mid == "" || EndsWithSep(mid)
    requires name != "" && Sep !in name
    ensures var q := AltCandidate(a + Segment(i) + mid + name + Exts[i], i);
      q.Some? && AltCandidate(q.value, 1 - i) == Some(a + Segment(i) + mid + name + Exts[i])
  {
    SwapSides(a, mid, name, i);
    SwapSides(a, mid, name, 1 - i);
  }

  /** A source file whose header exists has that header as its sibling. */
  lemma SourceSibling(fs: Fs, a: Path, mid: string, name: string, ft: FileType)
    requires IndexOf(a + Segment(0), Segment(0)) == |a|
    requires mid == "" || EndsWithSep(mid)
    requires name != "" && Sep !in name
    requires a + Segment(1) + mid + name + Exts[1] in fs
    ensures Sibling(fs, Entry(a + Segment(0) + mid + name + Exts[0], ft, None))
      == Some(Entry(a + Segment(1) + mid + name + Exts[1], ft, None))
  {
    SwapSides(a, mid, name, 0);
  }

  /**
   * A header file outside any `cpp` segment whose source exists has that
   * source as its sibling.
   */
  lemma HeaderSibling(fs: Fs, a: Path, mid: string, name: string, ft: FileType)
    requires IndexOf(a + Segment(1), Segment(1)) == |a|
    requires IndexOf(a + Segment(1) + mid + name + Exts[1], Segment(0)) < 0
    requires mid == "" || EndsWithSep(mid)
    requires name != "" && Sep !in name
    requires a + Segment(0) + mid + name + Exts[0] in fs
    ensures Sibling(fs, Entry(a + Segment(1) + mid + name + Exts[1], ft, None))
      == Some(Entry(a + Segment(0) + mid + name + Exts[0], ft, None))
  {
    SwapSides(a, mid, name, 1);
  }
}
