# C/C++ header–source tree view, modelled in Dafny

The VSCode CPP Viewer extension shows a workspace as a tree. In that tree a
C/C++ header (under an `include` folder) and its source (under the
matching `cpp` folder) appear together as one group. This project models
the core of the extension's two tree providers, in `src/cppView.ts` and
`src/cppViewTree.ts`, and proves properties of that model. The modelled
core is:

- the path arithmetic that finds a header's source, and a file's
  counterpart on the other side of a `cpp`/`include` split;
- the sorted directory listing;
- the recursive collapse of a folder into its `include` or `cpp` child;
- the rows the tree draws and the commands bound to them;
- the commands that make, delete and rename entries on both sides of a
  split;
- the file operations of the alternative provider (`_writeFile`,
  `_rename`, `delete`, `createDirectory`, `getEntryFromDir`), with their
  error translation (`massageError`), the stat classification
  (`FileStat.type`) and the typing of watch events.

The model is organised as follows:

- **Filesystem.** The filesystem is a value, `FileSystem.Fs`: a map from
  path to node. A directory node keeps its names in listing order. The
  operations the extension calls on it are total functions that return
  either the new map or the OS error code:
  - `fs.stat` and `readdir`;
  - `rimraf`;
  - `mkdirp`, `mkdir` and `writeFile`;
  - `unlink` and `rename`.

  The raw error codes are the ones Node reports on Windows. A path below a
  file is ENOENT (path not found). A `rename` onto a directory, or of a
  directory onto an existing object, is EPERM (access denied).
- **State changes.** Commands that change the disk work on a
  `FileSystem.Disk` object whose one field is that map. Each of its
  methods is proved against the function above it.
- **Prompts.** What the user types into an input box is a parameter.
  Each box that `rename` may open has its own answer in
  `Commands.Answers`, so two boxes proposing the same text may still be
  answered differently.
- **Separator.** Paths use the Windows separator `\`. Both resolvers
  splice the literal `"\\cpp\\"` or `path.sep`, and those coincide only
  there. The literal `"\\cpp\\"` is kept as its own constant,
  `Pairing.CppSegment`.
- **Two locators.** The raw-substring rule of the pair resolver and the
  segment-anchored rule of the sibling locator are two separate functions,
  `Pairing.CppCandidate` and `Siblings.AltCandidate`.
- **Two providers.** Both providers share one grouping model, set apart
  by `Grouping.Provider`. `ViewProvider` is `src/cppView.ts`, where a
  missing counterpart is simply left out. `TreeProvider` is
  `src/cppViewTree.ts`, where the counterpart is `stat`ed, so a missing
  one fails the call.

## Model

| member | source | states |
|---|---|---|
| Paths.IndexOf | src/cppView.ts:87 | `indexOf`: -1 or the first position where the text occurs; no earlier occurrence |
| Paths.LastIndexOfChar | src/cppView.ts:119 | a position of the character, or -1 |
| Paths.LastIndexOfCharIsLast | src/cppView.ts:119 | no occurrence of the character lies after the position found, so it is the last one (and -1 means none) |
| Paths.SubstringFrom | src/cppView.ts:94 | `substring(k)`: the text after the first k characters; empty past the end |
| Paths.DropEnd | src/cppView.ts:94 | `slice(0, -k)`: the text without its last k characters, and "" when k is 0 (the `-0` case) or at least the length |
| Paths.Join | src/cppView.ts:90-95 | `path.join` of two parts: empty parts vanish, and exactly one separator is added between non-empty parts that have none at the junction |
| Paths.Basename | src/cppView.ts:119 | `path.basename`: separator-free and no longer than the path |
| Paths.BasenameSuffix | src/cppView.ts:119 | the base name is a suffix of the path |
| Paths.BasenameFollowsSep | src/cppView.ts:231 | cutting the base name off a path leaves "" or a prefix ending in a separator |
| Paths.Dirname | src/cppView.ts:311 | `path.dirname`: the path is its directory, a separator and its base name |
| Paths.ExtName | src/cppView.ts:156 | `path.extname`: "" or a dot-led proper suffix of the base name |
| Paths.ParseName | src/cppView.ts:157 | `path.parse(..).name`: the base name is the name followed by the extension |
| Paths.ExtNameOfName | src/cppView.ts:156-157 | for `dir\name.ext`, the extension is `.ext` and the parsed name is `name` |
| Paths.ExtNameFromBasename | src/cppView.ts:156-157 | a base name `name.ext` has extension `.ext` and parsed name `name` |
| Paths.Lower | src/cppView.ts:51-52 | `toLowerCase`: the same length, every character lowered |
| Paths.StrLessIrreflexive | src/cppView.ts:53-57 | string `<` never holds between a string and itself |
| Paths.StrLessAsymmetric | src/cppView.ts:53-57 | string `<` never holds both ways |
| Paths.StrLessTotal | src/cppView.ts:53-57 | of two different strings, one is `<` the other |
| Paths.StrLessTransitive | src/cppView.ts:53-57 | string `<` is transitive |
| FileSystem.MassageError | src/cppViewTree.ts:313-331 | ENOENT, EISDIR and EEXIST map to FileNotFound, FileIsADirectory and FileExists; EPERM and 'EACCESS' map to NoPermissions; each holds in both directions, and every other code passes through unchanged |
| FileSystem.MassageErrorPassesEacces | src/cppViewTree.ts:326 | the real POSIX code EACCES is passed through raw, and the misspelt 'EACCESS' gives NoPermissions |
| FileSystem.StatType | src/cppViewTree.ts:412-414 | exactly one kind: File when `isFile`, else Directory, else SymbolicLink, else Unknown, each in both directions |
| FileSystem.Stat | src/cppViewTree.ts:359-363 | `stat` succeeds exactly on existing paths and fails with ENOENT |
| FileSystem.ReadDir | src/cppView.ts:409-413 | `readdir` lists a directory's names in order; it fails with ENOENT on a missing path and ENOTDIR on a non-directory |
| FileSystem.RemoveTree | src/cppView.ts:433-437 | `rimraf`: exactly the path and everything below it disappear; other nodes keep their kind |
| FileSystem.MakeDirs | src/cppView.ts:439-443 | `mkdirp`: on success the path is a directory, nothing is lost and files are untouched; otherwise EEXIST |
| FileSystem.MakeDirsSucceeds | src/cppView.ts:439-443 | `mkdirp` succeeds exactly when the nearest existing one of the path and its ancestors is a directory, or none exists |
| FileSystem.MakeDir | src/cppView.ts:266 | `mkdirSync` succeeds exactly when the path is new and its parent is a directory, and adds an empty directory |
| FileSystem.WriteFile | src/cppView.ts:427-431 | `writeFile` succeeds exactly when the path is not a directory and its parent is one, and stores the content; on a directory it fails with EISDIR |
| FileSystem.Unlink | src/cppView.ts:451-455 | `unlink` succeeds exactly on a non-directory and removes it; else EPERM or ENOENT; on success nothing else disappears and only the parent's listing changes |
| FileSystem.Rename | src/cppView.ts:445-449 | `fs.rename` succeeds exactly when the source exists and the target is itself, or is outside the source with a directory parent and either does not exist (a trailing separator naming a directory counts as existing) or is a non-directory replaced by a non-directory; any other failure past the parent check is EPERM; the target then holds the source's node and the whole subtree moves below it; outside the target's subtree an object exists exactly when it existed and was not below the source; every other object keeps its node, except for the two parents' listings |
| FileSystem.Lift | src/cppView.ts:361-367 | a failed step keeps the old state and reports the translated error; a successful one reports none |
| FileSystem.MoveInto | src/cppView.ts:311-314 | create the target's missing parent, then rename: with the parent present this is the rename itself; success leaves every file of the source's subtree at its place below the target, nothing outside the target's subtree below the source, and every other object present, files unchanged; a failure with the parent present changes nothing |
| FileSystem.MoveReplacesFile | src/cppView.ts:311-314 | moving a file onto another file in an existing folder succeeds and replaces it |
| FileSystem.MoveCreatesFolder | src/cppView.ts:311-314 | moving a file to a new path (no trailing separator) whose folder can be made succeeds, creating the folder |
| FileSystem.MoveOntoItself | src/cppView.ts:314 | moving an entry onto its own path changes nothing and succeeds |
| FileSystem.MoveOntoFolderRefused | src/cppView.ts:307-314 | a target that is an existing folder spelt with a trailing separator is refused with NoPermissions and nothing changes |
| FileSystem.MoveDirectoryOntoFileRefused | src/cppViewTree.ts:118 | a directory moved onto an existing object is refused with NoPermissions and nothing changes |
| FileSystem.Disk.RemoveRecursive | src/cppView.ts:433-437 | the disk after `rimraf` is `RemoveTree` of the disk before |
| FileSystem.Disk.MakeDirectories | src/cppView.ts:439-443 | the disk after `mkdirp` is `MakeDirs` of the disk before, or unchanged with its error |
| FileSystem.Disk.MakeDirectory | src/cppView.ts:266 | the disk after `mkdirSync` is `MakeDir` of the disk before, or unchanged with its error |
| FileSystem.Disk.Write | src/cppView.ts:268 | the disk after `writeFile` is `WriteFile` of the disk before, or unchanged with its error |
| FileSystem.Disk.Remove | src/cppView.ts:451-455 | the disk after `unlink` is `Unlink` of the disk before, or unchanged with its error |
| FileSystem.Disk.Move | src/cppView.ts:445-449 | the disk after `fs.rename` is `Rename` of the disk before, or unchanged with its error |
| Listing.Compare | src/cppView.ts:49-60 | the sort comparator: entries of different type are ordered by descending type code, entries of one type by ascending lower-cased path |
| Listing.CompareAntisymmetric | src/cppView.ts:49-60 | swapping the arguments negates the comparison |
| Listing.CompareZero | src/cppView.ts:49-60 | the comparison is 0 exactly when type and lower-cased path are equal |
| Listing.CompareTransitive | src/cppView.ts:49-60 | the comparator's order is transitive |
| Listing.Insert | src/cppView.ts:49-60 | inserting into an ordered listing keeps it ordered and adds exactly the one entry |
| Listing.SortEntries | src/cppView.ts:47-60 | the sorted listing is a permutation of the input and ordered by the comparator |
| Listing.SortedListingOrder | src/cppView.ts:47-60 | in the sorted listing an earlier entry has a higher type code, or the same type and a path not after the later one |
| Listing.StatAll | src/cppView.ts:40-45 | every listed name is `stat`ed in order; any missing one fails with ENOENT |
| Listing.ListEntries | src/cppView.ts:37-61 | the entries of a directory: a permutation of its `stat`ed children in comparator order; a missing directory is FileNotFound |
| Listing.ListedEntries | src/cppView.ts:43-48 | every listed entry exists, is typed by `stat`, is untitled and is the directory joined with one of its names |
| Listing.GetEntriesFromDir | src/cppView.ts:37-61 | the loop that lists and `stat`s the children, then sorts them, gives `ListEntries` |
| Pairing.CppCandidate | src/cppView.ts:86-95 | a candidate exists exactly when `include` occurs anywhere in the path; it ends in `.cpp` |
| Pairing.HeaderPairsWithSource | src/cppView.ts:87-95 | the header `dir\include\name.ext` (first `include` at that folder) pairs with `dir\cpp\name.cpp` |
| Pairing.ExtensionlessCandidate | src/cppView.ts:94 | for a file without an extension, `slice(0, -0)` empties the stem, so the candidate is only the prefix with `\cpp\` and `.cpp` |
| Pairing.IncludeFileCandidate | src/cppView.ts:94 | a file named exactly `include` pairs with `dir\cpp\.cpp` |
| Pairing.ViewPair | src/cppView.ts:81-107 | one or two entries: the file tagged `include` first, then the candidate tagged `cpp` exactly when it exists |
| Pairing.TreePair | src/cppViewTree.ts:158-184 | as above, but the candidate is added only when `stat` says it is a file, and a missing candidate fails with FileNotFound |
| Pairing.ResolversCompared | src/cppViewTree.ts:173-179 | the two resolvers agree except that a directory candidate is shown only by the first and a missing candidate fails only the second |
| Grouping.FilePair | src/cppView.ts:81-107 | the children of a file: 1 or 2 entries, the `include`-tagged input first and any second tagged `cpp`; never a failure in the view provider |
| Grouping.RootChildren | src/cppView.ts:142-150 | with no element: the workspace's sorted listing, or [] without a workspace |
| Grouping.GetChildren | src/cppView.ts:80-113 | `getChildren(element)`: a file gives its pair, a folder is listed and scanned, anything else gives []; the result is the recursive specification `Children` |
| Grouping.ScanFolder | src/cppView.ts:114-138 | the loop over the listing that replaces a folder by its `cpp`/`include` child's children computes the specification `Scan` from the start |
| Grouping.ScanStep | src/cppView.ts:118-126 | one turn of that loop: a failure is the scan's failure, otherwise the scan from the next entry with the new state is the same scan |
| Grouping.ListedDeeper | src/cppView.ts:111-125 | every entry of a folder's listing is strictly deeper than the folder, so the recursion into it ends |
| Grouping.GetChildrenOf | src/cppView.ts:78-151 | `getChildren` with or without an element gives the root listing or the element's children |
| Grouping.ScanKeeps | src/cppView.ts:118-127 | after a match, with no `include` left, the collected children are the result |
| Grouping.ScanPassesThrough | src/cppView.ts:118-138 | with no `include` or `cpp` entry, the listing itself is the result |
| Grouping.ScanEndsAt | src/cppView.ts:118-127 | the last entry that is taken decides the result |
| Grouping.ScanTakesLastInclude | src/cppView.ts:118-127 | `include` wins: the result is the children of the last `include` entry |
| Grouping.ScanAdvances | src/cppView.ts:118-127 | a scan that does not fail at an entry is the scan from the next entry with some gathered state |
| Grouping.ScanTakesFirstCpp | src/cppView.ts:118-127 | with no `include` entry, the result is the children of the first `cpp` entry |
| Grouping.ScanSkipsTo | src/cppView.ts:118-127 | a run of entries that are neither `cpp` nor `include` (nor, once matched, `include`) leaves what the loop has gathered unchanged |
| Grouping.GroupShowsChosen | src/cppView.ts:113-132 | a folder with an `include` or `cpp` entry shows that chosen entry's children, whatever its type |
| Grouping.GroupWithoutSplit | src/cppView.ts:113-138 | a folder without such entries shows its sorted listing; an empty folder shows [] |
| Grouping.GroupMissingChild | src/cppView.ts:40-45 | a folder listing a name that does not `stat` fails with FileNotFound, as a group and as a directory's children, in both providers |
| Grouping.OtherKindsHaveNoChildren | src/cppView.ts:80-150 | an entry that is neither file nor directory has no children |
| Grouping.ViewFileNeverFails | src/cppView.ts:81-107 | in the view provider a file's children are always its pair |
| Rows.FindTitle | src/cppView.ts:163-164 | `find`: the first entry with the title, or none exactly when no entry has it |
| Rows.Row | src/cppView.ts:152-193 | a group file gets a collapsed row named without extension, context `cppView.Group` and a file icon; other files get an `openFile` row with context `cppView.Sub`; directories get a collapsed row without command; anything else is the `error` row; only the tree provider's pair can fail a row |
| Rows.GroupRowCommand | src/cppView.ts:162-169 | a group row opens the header and its source side by side when the pair has a source, else the header alone |
| Rows.ViewGroupCommand | src/cppView.ts:162-169 | in the view provider a group row opens the split exactly when the candidate exists |
| Rows.TreeGroupCommand | src/cppViewTree.ts:244-251 | in the tree provider a group row fails exactly when the candidate is missing, and opens the split exactly when it is a file |
| Siblings.Segment | src/cppView.ts:325 | a folder name as a whole segment: separator, name, separator |
| Siblings.AltCandidate | src/cppView.ts:325-333 | a counterpart path exists exactly when the path contains the side's segment |
| Siblings.Try | src/cppView.ts:329-337 | a side yields an entry exactly when its candidate exists, and that entry keeps the input's type |
| Siblings.Sibling | src/cppView.ts:318-340 | a titled entry has no sibling; the `cpp` side is tried first; a found sibling exists, keeps the type and is untitled |
| Siblings.LocateAltResource | src/cppView.ts:318-340 | the loop with its early return computes `Sibling` |
| Siblings.SwapSides | src/cppView.ts:325-333 | `a\cpp\mid\name.cpp` and `a\include\mid\name.h` are each other's candidates |
| Siblings.SwapSidesRoundTrip | src/cppView.ts:325-333 | the counterpart's counterpart is the original path |
| Siblings.SourceSibling | src/cppView.ts:324-336 | a source's existing header is its sibling |
| Siblings.HeaderSibling | src/cppView.ts:324-336 | a header's existing source is its sibling when the path has no `cpp` segment |
| Commands.Kept | src/cppView.ts:230-233 | a folder path is always kept; a group path is kept only if its parent folder exists |
| Commands.SplitSide | src/cppView.ts:239-241 | the first side whose segment occurs in the folder path, `cpp` first |
| Commands.MakePlan | src/cppView.ts:216-260 | `make`'s path list: at most two paths; at least one off a split; two folders at a split; `dir\name` alone when there is no split and no side |
| Commands.FindSplit | src/cppView.ts:220-225 | the loop finds whether a child is named `cpp` or `include` |
| Commands.PlanAtSplit | src/cppView.ts:227-235 | the loop at a split builds `SplitPaths`: each folder's target in turn, kept as `Kept` says |
| Commands.AddKept | src/cppView.ts:229-233 | one turn of that loop appends the target exactly when `Kept` keeps it |
| Commands.PlanElsewhere | src/cppView.ts:236-260 | the loop off a split, with its `break` and the `paths[0] +=` extension, builds `OffSplitPaths`: `dir\name` alone when no side's segment occurs |
| Commands.AddOtherSide | src/cppView.ts:249-256 | the turn that finds a side: the other side's target when `Kept`, and for a group the side's extension on the first path |
| Commands.PlanPaths | src/cppView.ts:217-260 | the imperative planning of `make` gives `MakePlan` |
| Commands.SplitPlan | src/cppView.ts:227-235 | at a split the plan is `dir\cpp\name[.cpp]` then `dir\include\name[.h]`, each kept for a group only when its folder exists |
| Commands.NestedPlan | src/cppView.ts:236-258 | inside `a\cpp\rest` (or `a\include\rest`) the plan is `dir\name` with its side's extension, then the same name in the other tree with the other extension when that folder exists (a folder is always kept) |
| Commands.CreateOne | src/cppView.ts:264-270 | creating one path adds at most that path as an empty file or directory, when its parent is a directory; a failure is swallowed; other files are untouched |
| Commands.CreateAll | src/cppView.ts:262-271 | creating every path adds only those paths and changes no other file |
| Commands.CreatePaths | src/cppView.ts:262-271 | the creation loop gives `CreateAll` |
| Commands.MakeCreatesPlanned | src/cppView.ts:262-271 | every planned path whose write can succeed when its turn comes (parent a directory; no directory there, or for a folder nothing there) ends as an empty file for a group or a directory for a folder |
| Commands.Make | src/cppView.ts:210-273 | an empty name does nothing; an unlistable folder reports its error; otherwise the state is `CreateAll` of the plan: nothing but planned paths appears, and each planned path that can be written is there (`MakeCreatesPlanned`) |
| Commands.Deleted | src/cppView.ts:275-281 | after `delete` exactly the entry's tree and its sibling's tree are gone |
| Commands.Delete | src/cppView.ts:275-281 | the two `rimraf` calls give `Deleted` |
| Commands.DeleteTakesHeader | src/cppView.ts:275-281 | deleting a source also removes its existing header |
| Commands.TargetInSameFolder | src/cppView.ts:307 | the renamed path keeps the folder and has the new name as its base name |
| Commands.TargetOfOwnName | src/cppView.ts:307 | renaming to the current base name targets the same path |
| Commands.PromptNameRestores | src/cppView.ts:289-294 | the proposed name plus the extension gives back the base name |
| Commands.PlanRename | src/cppView.ts:283-306 | the moves of `rename` with no name: the entry's own move, and one for the sibling exactly when there is a sibling |
| Commands.RenamePairKeepsExtensions | src/cppView.ts:295-300 | with a sibling, both sides get the pair box's answer as their name, each keeping its own folder and extension |
| Commands.RenamePairAcceptingProposal | src/cppView.ts:297-299 | accepting the proposed name moves a paired entry onto itself |
| Commands.RenameAloneAcceptingProposal | src/cppView.ts:304-307 | accepting the proposed name moves a lone entry onto itself, with no sibling move |
| Commands.RenameAloneClearedRefused | src/cppView.ts:303-314 | clearing a lone entry's box targets its folder with a trailing separator: the target exists (so the warning shows), and the move is refused with NoPermissions, changing nothing |
| Commands.RenameTo | src/cppView.ts:304-314 | with a known name (or, for an empty one, the answer to its own box): warns exactly when the target exists, yet still creates a missing folder and moves |
| Commands.RenameSide | src/cppView.ts:288-300 | with a sibling, asks the pair's box and moves the sibling to the answer plus its extension, dropping its error; returns the answer plus the entry's extension |
| Commands.Rename | src/cppView.ts:283-315 | `rename` with no name: the sibling's move, then the entry's move on the resulting disk, with the warnings of both |
| TreeProvider.EventType | src/cppViewTree.ts:29 | `change` is Changed; any other event is Created when the path exists and Deleted when it does not (each both ways) |
| TreeProvider.EventAfterWrite | src/cppViewTree.ts:29 | a path just written is reported as Created |
| TreeProvider.EventAfterRemove | src/cppViewTree.ts:29 | a path just removed is reported as Deleted |
| TreeProvider.WriteFileResult | src/cppViewTree.ts:74-89 | missing and no `create`: FileNotFound, unchanged; missing with `create`: FileExists and unchanged when mkdirp of the parent fails, else the write on the state mkdirp leaves; existing and no `overwrite`: FileExists, unchanged; existing and `overwrite`: written; any success stores the content, leaves the parent a directory, loses no path, adds only directories besides the file, and keeps every other file |
| TreeProvider.WriteCreatesFile | src/cppViewTree.ts:76-88 | a missing file with `create` is written after its folder is made |
| TreeProvider.WriteOntoDirectory | src/cppViewTree.ts:83-88 | overwriting a directory fails with FileIsADirectory and changes nothing |
| TreeProvider.WriteFileOp | src/cppViewTree.ts:70-89 | the operation gives `WriteFileResult` |
| TreeProvider.DeleteResult | src/cppViewTree.ts:91-97 | recursive: exactly the subtree goes and nothing fails; otherwise a single unlink, with FileNotFound or NoPermissions; any success removes exactly the subtree and changes no other object except the parent's listing |
| TreeProvider.DeleteOp | src/cppViewTree.ts:91-97 | the operation gives `DeleteResult` |
| TreeProvider.RenameResult | src/cppViewTree.ts:103-119 | an existing target without `overwrite` is FileExists and changes nothing; a new target is moved to, creating its folder |
| TreeProvider.RenameOverwritesFile | src/cppViewTree.ts:104-118 | with `overwrite` an existing file target (no trailing separator) is removed and replaced by the moved file |
| TreeProvider.RenameOntoItselfLosesEntry | src/cppViewTree.ts:104-118 | renaming an entry onto itself with `overwrite` removes it before the move, so the move fails and the entry is gone |
| TreeProvider.RenameOp | src/cppViewTree.ts:99-119 | the operation gives `RenameResult` |
| TreeProvider.CreateDirectory | src/cppViewTree.ts:62-64 | `createDirectory` is `mkdirp`; on success the path is a directory |
| TreeProvider.EntryFromDir | src/cppViewTree.ts:139-154 | no base gives nothing; an unlistable base fails; otherwise nothing exactly when no child has that name, else that child typed by `stat` |
| TreeProvider.ListedChildFound | src/cppViewTree.ts:143-151 | when every listed name exists, a listed child is always found |
| TreeProvider.ListedChildMissing | src/cppViewTree.ts:143-151 | a listed child that does not `stat` fails the lookup with FileNotFound |
| TreeProvider.GetEntryFromDir | src/cppViewTree.ts:139-154 | the linear search gives `EntryFromDir` |

## Left out

- Watchers and event emitters (`fs.watch`, `onDidChangeTreeData`, `onDidChangeFile`). Only the rule that types a watch event is modelled.
- Editor UI: `showInputBox`, `showTextDocument`, `openFile`/`openFilesSplit`, `showErrorMessage`, command registration and the tree view. Prompt answers are parameters. The "File Already Exists!" message is the returned `warned` flag.
- Cancelled prompts: `showInputBox` can return `undefined`, which JavaScript would concatenate as the text "undefined". Answers are always strings here.
- `normalizeNFC` is treated as the identity. `checkCancellation` is never called.
- Paths: Node's `path.join` normalisation of `.`/`..` and repeated separators is not modelled. Neither is the POSIX separator, nor full Unicode `toLowerCase`. Paths use `\` and ASCII lower-casing.
- Trailing separators: `Paths.Dirname` and `Paths.Basename` do not strip one as Node's `path.dirname` and `path.basename` do, and `FileSystem.RemoveTree` does not resolve one to the folder. Only `FileSystem.Exists` and, through it, `FileSystem.Rename` treat `d\x\` as the folder `d\x`. So `make` with a name ending in `\` creates nothing here (the ENOENT of `mkdirSync` is swallowed), where Node creates the folder.
- `readFile` and the `size`, `ctime` and `mtime` getters only pass data through.
- Concurrency: the un-awaited `rimraf` calls of `delete` and the un-awaited sibling rename of `rename` run as sequential steps.
- Commands.RenameSide: a rejection of the un-awaited sibling rename is dropped. In the source it is an unhandled promise rejection.
- Commands.RenameTo: when the nested call for the sibling receives an empty name (an empty answer for a sibling without extension), the source looks for the sibling's own sibling again. Here the sibling's own box (proposing its base name) is asked instead.
- Grouping.GetChildren: the recursion needs `FileSystem.Valid`: every name a directory lists is non-empty and contains no separator, as `readdir` always reports. A listed name need not exist; such a folder fails with FileNotFound (`Grouping.GroupMissingChild`).
- Symbolic links: `stat` follows links, and the model has no link objects at all. A link under `cpp` or `include` that points back to an ancestor makes the source's `getChildren` recurse until a path fails; the model cannot express such a cycle.
- Path lookup is case-sensitive here. On Windows `existsSync` and `stat` ignore case, so `d\cpp\x.cpp` would find `d\CPP\x.cpp` in the source (in `ViewPair`, `Try` and `FolderExists`) but not in the model.
- FileSystem.RemoveTree: rimraf never fails here. On Windows it can fail with EBUSY or EPERM. `delete` of the view then drops an unhandled rejection, and `delete` of the alternative provider rejects with that error; neither failure is modelled.
- Listing.SortEntries: it is an insertion sort that keeps equal entries in their input order, like `Array.prototype.sort`, but that stability is not stated as a contract.
- Commands.Make: errors of `mkdirSync`/`writeFileSync` are logged to the console and otherwise swallowed. The model keeps the swallowing but not the logging.
- `src/extension.ts` only wires the providers up and is not part of this model.
