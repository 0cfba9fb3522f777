/**
 * Directory listing as the tree view shows it: one entry per child, sorted
 * with directories (higher type codes) first and, within one kind, by the
 * lower-cased path (`getEntriesFromDir` and its comparator).
 */
module Listing {
  import opened Base
  import opened Paths
  import opened FileSystem

  /** Which half of a header/source pair an entry stands for */
  datatype Title = IncludeTitle | CppTitle

  /** A node of the tree view */
  datatype Entry = Entry(path: Path, ftype: FileType, title: Option<Title>)

  /** The sort comparator: higher type code first, then ascending lower-cased path */
  function Compare(a: Entry, b: Entry): (r: int)
    ensures -1 <= r <= 1
    ensures a.ftype != b.ftype ==> (r < 0 <==> a.ftype.Code() > b.ftype.Code())
    ensures a.ftype == b.ftype ==> (r < 0 <==> StrLess(Lower(a.path), Lower(b.path)))
  {
    if a.ftype == b.ftype then
      var na := Lower(a.path);
      var nb := Lower(b.path);
      if StrLess(na, nb) then -1 else if StrLess(nb, na) then 1 else 0
    else if a.ftype.Code() < b.ftype.Code() then 1 else -1
  }

  /** Swapping the arguments negates the comparison. */
  lemma CompareAntisymmetric(a: Entry, b: Entry)
    ensures Compare(a, b) == -Compare(b, a)
  {
    var na, nb := Lower(a.path), Lower(b.path);
    if a.ftype == b.ftype && StrLess(na, nb) { StrLessAsymmetric(na, nb); }
  }

  /** Two entries tie exactly when they have the same kind and the same lower-cased path. */
  lemma CompareZero(a: Entry, b: Entry)
    ensures Compare(a, b) == 0 <==> a.ftype == b.ftype && Lower(a.path) == Lower(b.path)
  {
    var na, nb := Lower(a.path), Lower(b.path);
    if na == nb { StrLessIrreflexive(na); }
    if na != nb { StrLessTotal(na, nb); }
  }

  /** "Sorts no later than" is transitive. */
  lemma CompareTransitive(a: Entry, b: Entry, c: Entry)
    requires Compare(a, b) <= 0 && Compare(b, c) <= 0
    ensures Compare(a, c) <= 0
  {
    var na, nb, nc := Lower(a.path), Lower(b.path), Lower(c.path);
    CompareZero(a, b);
    CompareZero(b, c);
    if a.ftype == b.ftype == c.ftype {
      if StrLess(na, nb) && StrLess(nb, nc) { StrLessTransitive(na, nb, nc); }
      if StrLess(nc, na) {
        if StrLess(na, nb) { StrLessTransitive(nc, na, nb); StrLessAsymmetric(nc, nb); }
        else { StrLessAsymmetric(nc, na); }
      }
    }
  }

  /** No entry sorts before an earlier one. */
  predicate Ordered(s: seq<Entry>) {
    forall i, j :: 0 <= i < j < |s| ==> Compare(s[i], s[j]) <= 0
  }

  /** An entry that sorts before every entry of an ordered listing can lead it. */
  lemma OrderedCons(h: Entry, t: seq<Entry>)
    requires Ordered(t)
    requires forall j :: 0 <= j < |t| ==> Compare(h, t[j]) <= 0
    ensures Ordered([h] + t)
  {
    var r := [h] + t;
    forall i, j | 0 <= i < j < |r| ensures Compare(r[i], r[j]) <= 0 {
      assert r[j] == t[j - 1];
      if i > 0 {
        assert r[i] == t[i - 1];
      }
    }
  }

  /** An entry that sorts before the head of an ordered listing sorts before all of it. */
  lemma BeforeHead(x: Entry, s: seq<Entry>)
    requires Ordered(s) && |s| > 0 && Compare(x, s[0]) <= 0
    ensures forall j :: 0 <= j < |s| ==> Compare(x, s[j]) <= 0
  {
    forall j | 0 <= j < |s| ensures Compare(x, s[j]) <= 0 {
      if j > 0 { CompareTransitive(x, s[0], s[j]); }
    }
  }

  /** The head of an ordered listing sorts before the rest with a later entry inserted. */
  lemma HeadBeforeInserted(x: Entry, s: seq<Entry>, t: seq<Entry>)
    requires Ordered(s) && |s| > 0 && Compare(x, s[0]) > 0
    requires multiset(t) == multiset(s[1..]) + multiset{x}
    ensures forall j :: 0 <= j < |t| ==> Compare(s[0], t[j]) <= 0
  {
    CompareAntisymmetric(x, s[0]);
    forall j | 0 <= j < |t| ensures Compare(s[0], t[j]) <= 0 {
      assert t[j] in multiset(t);
      if t[j] != x {
        assert t[j] in s[1..];
        var k :| 1 <= k < |s| && s[k] == t[j];
      }
    }
  }

  /** Insert `x` before the first entry it does not sort after (so equal entries keep their order). */
  function Insert(x: Entry, s: seq<Entry>): (r: seq<Entry>)
    requires Ordered(s)
    ensures multiset(r) == multiset(s) + multiset{x}
    ensures Ordered(r)
  {
    if s == [] then [x]
    else if Compare(x, s[0]) <= 0 then
      BeforeHead(x, s);
      OrderedCons(x, s);
      [x] + s
    else
      var t := Insert(x, s[1..]);
      HeadBeforeInserted(x, s, t);
      OrderedCons(s[0], t);
      assert s == [s[0]] + s[1..];
      [s[0]] + t
  }

  /** `Array.prototype.sort` with the comparator, as an insertion sort */
  function SortEntries(s: seq<Entry>): (r: seq<Entry>)
    ensures multiset(r) == multiset(s)
    ensures |r| == |s|
    ensures Ordered(r)
  {
    if s == [] then [] else
      assert s == [s[0]] + s[1..];
      Insert(s[0], SortEntries(s[1..]))
  }

  /** The entries of a sorted listing are ordered by kind code first and, within a kind, by lower-cased path. */
  lemma SortedListingOrder(s: seq<Entry>, i: int, j: int)
    requires 0 <= i < j < |s|
    ensures var r := SortEntries(s);
      r[i].ftype != r[j].ftype ==> r[i].ftype.Code() > r[j].ftype.Code()
    ensures var r := SortEntries(s);
      r[i].ftype == r[j].ftype ==> !StrLess(Lower(r[j].path), Lower(r[i].path))
  {
    var r := SortEntries(s);
    assert s[i] in multiset(s) && s[j] in multiset(s);
    assert |r| == |multiset(r)| == |multiset(s)| == |s|;
    CompareAntisymmetric(r[i], r[j]);
  }

  /** The entry `getEntriesFromDir` makes of one listed name */
  function ChildEntry(fs: Fs, d: Path, name: string): Entry
    requires Join(d, name) in fs
  {
    Entry(Join(d, name), TypeOf(fs, Join(d, name)), None)
  }

  /** `stat` every listed name in order; the first missing one fails the listing */
  function StatAll(fs: Fs, d: Path, names: seq<string>): (r: Result<seq<Entry>, string>)
    ensures r.Ok? <==> forall i :: 0 <= i < |names| ==> Join(d, names[i]) in fs
    ensures r.Err? ==> r.error == "ENOENT"
    ensures r.Ok? ==> |r.value| == |names|
    ensures r.Ok? ==> forall i :: 0 <= i < |names| ==> r.value[i] == ChildEntry(fs, d, names[i])
  {
    if names == [] then Ok([])
    else
      var last := names[|names| - 1];
      match StatAll(fs, d, names[..|names| - 1])
      case Err(e) => Err(e)
      case Ok(prev) =>
        if Join(d, last) in fs then Ok(prev + [ChildEntry(fs, d, last)]) else Err("ENOENT")
  }

  /**
   * The sorted listing of directory `d`. The directory must exist and every
   * listed name must `stat`; the entries are those of the listed names, sorted.
   */
  function ListEntries(fs: Fs, d: Path): (r: Result<seq<Entry>, FsError>)
    ensures r.Ok? <==> d in fs && fs[d].DirNode? && StatAll(fs, d, fs[d].names).Ok?
    ensures r.Ok? ==> multiset(r.value) == multiset(StatAll(fs, d, fs[d].names).value)
    ensures r.Ok? ==> Ordered(r.value)
    ensures d !in fs ==> r == Err(FileNotFound)
  {
    match ReadDir(fs, d)
    case Err(e) => Err(MassageError(e))
    case Ok(names) =>
      match StatAll(fs, d, names)
      case Err(e) => Err(MassageError(e))
      case Ok(raw) => Ok(SortEntries(raw))
  }

  /** Every listed entry is an existing child of `d`, of the kind `stat` gives it, untitled. */
  lemma ListedEntries(fs: Fs, d: Path, e: Entry)
    requires ListEntries(fs, d).Ok? && e in ListEntries(fs, d).value
    ensures e.path in fs && e.ftype == TypeOf(fs, e.path) && e.title == None
    ensures exists n :: n in fs[d].names && e.path == Join(d, n)
  {
    var raw := StatAll(fs, d, fs[d].names).value;
    assert e in multiset(ListEntries(fs, d).value);
    assert e in raw;
    var i :| 0 <= i < |raw| && raw[i] == e;
    assert fs[d].names[i] in fs[d].names;
  }

  /** `getEntriesFromDir`: `readdir`, then `stat` each name in turn, then sort */
  method GetEntriesFromDir(fs: Fs, d: Path) returns (r: Result<seq<Entry>, FsError>)
    ensures r == ListEntries(fs, d)
  {
    var listed := ReadDir(fs, d);
    if listed.Err? {
      return Err(MassageError(listed.error));
    }
    var names := listed.value;
    var result: seq<Entry> := [];
    var i := 0;
    while i < |names|
      invariant 0 <= i <= |names|
      invariant StatAll(fs, d, names[..i]) == Ok(result)
    {
      var child := Join(d, names[i]);
      var st := Stat(fs, child);
      if st.Err? {
        assert !(Join(d, names[i]) in fs);
        return Err(MassageError(st.error));
      }
      assert names[..i + 1][..i] == names[..i];
      result := result + [Entry(child, StatType(st.value), None)];
      i := i + 1;
    }
    assert names[..i] == names;
    r := Ok(SortEntries(result));
  }
}
