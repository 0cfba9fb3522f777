/**
 * `getTreeItem`: how each entry is drawn. A header or source file not
 * already inside a pair becomes a collapsible group row named after the file
 * without its extension, bound to open the header alone or the header and
 * its source side by side.
 */
module Rows {
  import opened Base
  import opened Paths
  import opened FileSystem
  import opened Listing
  import opened Pairing
  import opened Grouping

  /** A row's label: plain text, or a resource the editor names by its file name */
  datatype Label = Text(text: string) | Resource(uri: Path)

  /** The commands a row may be bound to */
  datatype Command = OpenFile(target: Path) | OpenFilesSplit(left: Path, right: Path)

  datatype TreeItem = TreeItem(caption: Label, collapsed: bool, command: Option<Command>,
                               contextValue: Option<string>, fileIcon: bool)

  /** The extensions that make a file a group */
  const GroupExts: seq<string> := [".cpp", ".h", ".hpp"]

  /** An untitled file whose extension is one of the group extensions */
  predicate IsGroupFile(e: Entry) {
    e.ftype == File && ExtName(e.path) in GroupExts && e.title.None?
  }

  /** `children.find(x => x.title === t)`: the first entry carrying title `t` */
  function FindTitle(s: seq<Entry>, t: Title): (r: Option<Entry>)
    ensures r.None? <==> forall i :: 0 <= i < |s| ==> s[i].title != Some(t)
    ensures r.Some? ==> exists i :: 0 <= i < |s| && s[i] == r.value && r.value.title == Some(t) &&
                                   forall k :: 0 <= k < i ==> s[k].title != Some(t)
  {
    if s == [] then None
    else if s[0].title == Some(t) then Some(s[0])
    else
      var r := FindTitle(s[1..], t);
      if r.Some? then
        var i :| 0 <= i < |s[1..]| && s[1..][i] == r.value && r.value.title == Some(t) &&
                 forall k :: 0 <= k < i ==> s[1..][k].title != Some(t);
        assert s[i + 1] == r.value;
        r
      else r
  }

  /** The row of a group: it opens the header, and beside it the source when the pair has one */
  function GroupRow(e: Entry, children: seq<Entry>): (r: TreeItem)
    requires 1 <= |children| && children[0] == IncludeSide(e)
    ensures r.caption == Text(ParseName(e.path)) && r.collapsed
    ensures r.contextValue == Some("cppView.Group") && r.fileIcon
  {
    var cpp := FindTitle(children, CppTitle);
    var header := FindTitle(children, IncludeTitle);
    assert children[0].title == Some(IncludeTitle);
    var cmd := if cpp.Some? then OpenFilesSplit(header.value.path, cpp.value.path) else OpenFile(header.value.path);
    TreeItem(Text(ParseName(e.path)), true, Some(cmd), Some("cppView.Group"), true)
  }

  /** `getTreeItem(element)`; only the tree provider can fail, through its pair resolver */
  function Row(prov: Provider, fs: Fs, e: Entry): (r: Result<TreeItem, FsError>)
    ensures r.Err? <==> IsGroupFile(e) && FilePair(prov, fs, e).Err?
    ensures prov == ViewProvider ==> r.Ok?
    ensures r.Ok? && IsGroupFile(e) ==>
      r.value.caption == Text(ParseName(e.path)) && r.value.collapsed &&
      r.value.contextValue == Some("cppView.Group") && r.value.fileIcon
    ensures r.Ok? && e.ftype == File && !IsGroupFile(e) ==>
      r.value == TreeItem(Resource(e.path), false, Some(OpenFile(e.path)), Some("cppView.Sub"), false)
    ensures e.ftype == Directory ==> r == Ok(TreeItem(Resource(e.path), true, None, None, false))
    ensures e.ftype != File && e.ftype != Directory ==> r == Ok(TreeItem(Text("error"), false, None, None, false))
  {
    if e.ftype == File then
      if IsGroupFile(e) then
        match FilePair(prov, fs, e)
        case Err(err) => Err(err)
        case Ok(children) => Ok(GroupRow(e, children))
      else Ok(TreeItem(Resource(e.path), false, Some(OpenFile(e.path)), Some("cppView.Sub"), false))
    else if e.ftype == Directory then Ok(TreeItem(Resource(e.path), true, None, None, false))
    else Ok(TreeItem(Text("error"), false, None, None, false))
  }

  /** A group row opens the header, and the source beside it exactly when the pair has a second entry. */
  lemma GroupRowCommand(e: Entry, children: seq<Entry>)
    requires 1 <= |children| <= 2 && children[0] == IncludeSide(e)
    requires |children| == 2 ==> children[1].title == Some(CppTitle)
    ensures GroupRow(e, children).command ==
      if |children| == 2 then Some(OpenFilesSplit(e.path, children[1].path)) else Some(OpenFile(e.path))
  {
    assert children[0].title == Some(IncludeTitle);
    if |children| == 2 {
      assert children[1].title == Some(CppTitle);
    }
  }

  /**
   * The command of a group row in the view provider: the header and its
   * source side by side when the source candidate exists, the header alone
   * otherwise.
   */
  lemma ViewGroupCommand(fs: Fs, e: Entry)
    requires IsGroupFile(e)
    ensures Row(ViewProvider, fs, e).Ok?
    ensures var c := CppCandidate(e.path);
      Row(ViewProvider, fs, e).value.command ==
        if c.Some? && c.value in fs then Some(OpenFilesSplit(e.path, c.value)) else Some(OpenFile(e.path))
  {
    var children := ViewPair(fs, e);
    assert Row(ViewProvider, fs, e) == Ok(GroupRow(e, children));
    GroupRowCommand(e, children);
  }

  /**
   * The command of a group row in the tree provider: split only when the
   * candidate is a file; a directory there leaves the header alone, and a
   * missing candidate fails the row.
   */
  lemma TreeGroupCommand(fs: Fs, e: Entry)
    requires IsGroupFile(e)
    ensures var c := CppCandidate(e.path);
      Row(TreeProvider, fs, e).Err? <==> c.Some? && c.value !in fs
    ensures var c := CppCandidate(e.path);
      Row(TreeProvider, fs, e).Ok? ==>
        Row(TreeProvider, fs, e).value.command ==
          if c.Some? && fs[c.value].FileNode? then Some(OpenFilesSplit(e.path, c.value)) else Some(OpenFile(e.path))
  {
    var t := TreePair(fs, e);
    assert FilePair(TreeProvider, fs, e) == t;
    if t.Ok? {
      assert Row(TreeProvider, fs, e) == Ok(GroupRow(e, t.value));
      GroupRowCommand(e, t.value);
    } else {
      assert Row(TreeProvider, fs, e) == Err(t.error);
    }
  }
}
