/** The observer's side of the workspace tree: reading the modified files from git's report, walking
    the disk, and rolling the flags up to the directories. */
module Workspace {
  import opened Wrappers
  import opened Explorer
  import opened GitStatus

  datatype DiskEntry =
    | PlainFile(name: string)
    | Directory(name: string, readable: bool, entries: seq<DiskEntry>)

  predicate IsHidden(name: string) { name != "" && name[0] == '.' }

  predicate AnyModified(nodes: seq<Node>) {
    exists i :: 0 <= i < |nodes| && nodes[i].modified
  }

  /** An empty list of children is left out of the answer, so the explorer sees a leaf. */
  function DirNode(name: string, children: seq<Node>): Node {
    if children == [] then Leaf(name, true, false) else Folder(name, AnyModified(children), children)
  }

  function Walked(entries: seq<DiskEntry>, parent: string, modified: set<string>): seq<Node>
    decreases entries
  {
    if entries == [] then []
    else
      var e, path := entries[0], PathOf(parent, entries[0].name);
      var rest := Walked(entries[1..], parent, modified);
      if IsHidden(e.name) then rest
      else if e.PlainFile? then [Leaf(e.name, false, path in modified)] + rest
      else [DirNode(e.name, if e.readable then Walked(e.entries, path, modified) else [])] + rest
  }

  /** walkDir. */
  method WalkDir(readable: bool, entries: seq<DiskEntry>, parent: string, modified: set<string>)
    returns (nodes: seq<Node>)
    ensures nodes == if readable then Walked(entries, parent, modified) else []
    decreases entries
  {
    nodes := [];
    if !readable {
      return;
    }
    for i := 0 to |entries|
      invariant nodes + Walked(entries[i..], parent, modified) == Walked(entries, parent, modified)
    {
      hide Walked, AnyModified;
      var entry := entries[i];
      var path := PathOf(parent, entry.name);
      OneEntryWalked(nodes, entries, i, parent, modified);
      if IsHidden(entry.name) {
        continue;
      }
      if entry.Directory? {
        var children := WalkDir(entry.readable, entry.entries, path, modified);
        var dirMod := SomeModified(children);
        var node := if children == [] then Leaf(entry.name, true, dirMod) else Folder(entry.name, dirMod, children);
        nodes := nodes + [node];
      } else {
        nodes := nodes + [Leaf(entry.name, false, path in modified)];
      }
    }
    assert entries[|entries|..] == [];
  }

  lemma OneEntryWalked(nodes: seq<Node>, entries: seq<DiskEntry>, i: nat, parent: string, modified: set<string>)
    requires i < |entries|
    ensures
      var e, path := entries[i], PathOf(parent, entries[i].name);
      var rest := Walked(entries[i + 1..], parent, modified);
      nodes + Walked(entries[i..], parent, modified) ==
      if IsHidden(e.name) then nodes + rest
      else if e.PlainFile? then nodes + [Leaf(e.name, false, path in modified)] + rest
      else nodes + [DirNode(e.name, if e.readable then Walked(e.entries, path, modified) else [])] + rest
  {
    var tail := entries[i..];
    assert tail[0] == entries[i] && tail[1..] == entries[i + 1..];
  }

  method SomeModified(children: seq<Node>) returns (dirMod: bool)
    ensures dirMod == AnyModified(children)
    ensures children == [] ==> !dirMod
  {
    dirMod := false;
    for i := 0 to |children|
      invariant !dirMod && forall k :: 0 <= k < i ==> !children[k].modified
    {
      if children[i].modified {
        return true;
      }
    }
  }

  /** The paths of the files that are not hidden and lie in no hidden or unreadable directory. */
  function FilesBelow(entries: seq<DiskEntry>, parent: string): seq<string>
    decreases entries
  {
    if entries == [] then []
    else
      var e, path := entries[0], PathOf(parent, entries[0].name);
      (if IsHidden(e.name) then []
       else if e.PlainFile? then [path]
       else if e.readable then FilesBelow(e.entries, path)
       else [])
      + FilesBelow(entries[1..], parent)
  }

  /** The names lead to a file through directories that can be read, and none starts with a dot. */
  ghost predicate FileAt(entries: seq<DiskEntry>, parts: seq<string>)
    decreases |parts|
  {
    && parts != [] && (parts[0] == "" || parts[0][0] != '.')
    && exists i :: 0 <= i < |entries| && entries[i].name == parts[0] && FileUnder(entries[i], parts)
  }

  ghost predicate FileUnder(e: DiskEntry, parts: seq<string>)
    requires parts != []
    decreases |parts|, 0
  {
    if |parts| == 1 then e.PlainFile? else e.Directory? && e.readable && FileAt(e.entries, parts[1..])
  }

  lemma FileInTail(entries: seq<DiskEntry>, parts: seq<string>)
    requires entries != [] && parts != []
    ensures FileAt(entries, parts) <==>
      || (!IsHidden(parts[0]) && entries[0].name == parts[0] && FileUnder(entries[0], parts))
      || FileAt(entries[1..], parts)
  {
    hide FileUnder;
    if FileAt(entries, parts) {
      var i :| 0 <= i < |entries| && entries[i].name == parts[0] && FileUnder(entries[i], parts);
      assert i > 0 ==> entries[1..][i - 1] == entries[i];
    }
    if FileAt(entries[1..], parts) {
      var i :| 0 <= i < |entries[1..]| && entries[1..][i].name == parts[0] && FileUnder(entries[1..][i], parts);
      assert entries[i + 1] == entries[1..][i];
    }
  }

  /** A file of the first entry, or one of the others. */
  lemma FileBegins(entries: seq<DiskEntry>, parts: seq<string>)
    requires entries != [] && parts != []
    requires FileAt(entries[1..], parts) ||
      (!IsHidden(parts[0]) && entries[0].name == parts[0] &&
       if |parts| == 1 then entries[0].PlainFile?
       else entries[0].Directory? && entries[0].readable && FileAt(entries[0].entries, parts[1..]))
    ensures FileAt(entries, parts)
  {
    FileInTail(entries, parts);
  }

  /** Only files that can be reached without a name that starts with a dot are listed, ... */
  lemma {:induction false} ListedIsReachable(entries: seq<DiskEntry>, parent: string, path: string)
    returns (parts: seq<string>)
    requires WellNamedDisk(entries) && path in FilesBelow(entries, parent)
    ensures parts != [] && FileAt(entries, parts) && path == FullPath(parent, parts)
    decreases entries
  {
    hide FileAt, FileUnder;
    var e, p := entries[0], PathOf(parent, entries[0].name);
    if path in FilesBelow(entries[1..], parent) {
      parts := ListedIsReachable(entries[1..], parent, path);
    } else if e.PlainFile? {
      parts := [e.name];
    } else {
      var rest := ListedIsReachable(e.entries, p, path);
      parts := [e.name] + rest;
      OneStepDown(parent, parts);
    }
    FileBegins(entries, parts);
  }

  /** ... and all of them. */
  lemma {:induction false} ReachableIsListed(entries: seq<DiskEntry>, parent: string, parts: seq<string>)
    requires WellNamedDisk(entries) && FileAt(entries, parts)
    ensures FullPath(parent, parts) in FilesBelow(entries, parent)
    decreases entries
  {
    var first := entries[0];
    FileInTail(entries, parts);
    if FileAt(entries[1..], parts) {
      ReachableIsListed(entries[1..], parent, parts);
    } else if |parts| > 1 {
      ReachableIsListed(first.entries, PathOf(parent, first.name), parts[1..]);
      OneStepDown(parent, parts);
    }
  }

  // The flags --------------------------------------------------------------------------------------

  predicate SomeIn(paths: seq<string>, modified: set<string>) {
    exists p :: p in paths && p in modified
  }

  lemma {:induction false} AnyModifiedIff(entries: seq<DiskEntry>, parent: string, modified: set<string>)
    ensures AnyModified(Walked(entries, parent, modified)) <==> SomeIn(FilesBelow(entries, parent), modified)
    decreases entries
  {
    if entries != [] {
      var e, path := entries[0], PathOf(parent, entries[0].name);
      var rest := Walked(entries[1..], parent, modified);
      AnyModifiedIff(entries[1..], parent, modified);
      if !IsHidden(e.name) {
        if e.PlainFile? {
          AnyModifiedSplits(Leaf(e.name, false, path in modified), rest);
        } else if e.readable {
          AnyModifiedIff(e.entries, path, modified);
          AnyModifiedSplits(DirNode(e.name, Walked(e.entries, path, modified)), rest);
        } else {
          AnyModifiedSplits(DirNode(e.name, []), rest);
        }
      }
    }
  }

  lemma AnyModifiedSplits(node: Node, rest: seq<Node>)
    ensures AnyModified([node] + rest) <==> node.modified || AnyModified(rest)
  {
    assert ([node] + rest)[0] == node;
    assert forall i :: 0 <= i < |rest| ==> ([node] + rest)[i + 1] == rest[i];
  }

  /** The nodes stand for the entries: files carry their own flag, and a directory, at any depth, is
      flagged exactly when some file below it, neither hidden nor out of reach, is modified. */
  ghost predicate Mirrors(nodes: seq<Node>, entries: seq<DiskEntry>, parent: string, modified: set<string>)
    decreases entries
  {
    if entries == [] then nodes == []
    else if IsHidden(entries[0].name) then Mirrors(nodes, entries[1..], parent, modified)
    else
      nodes != [] && nodes[0].name == entries[0].name &&
      var path := PathOf(parent, nodes[0].name);
      && Mirrors(nodes[1..], entries[1..], parent, modified)
      && match entries[0]
         case PlainFile(_) => nodes[0] == Leaf(nodes[0].name, false, path in modified)
         case Directory(_, readable, below) =>
           && (nodes[0].Folder? || nodes[0].isDir)
           && (nodes[0].modified <==> readable && SomeIn(FilesBelow(below, path), modified))
           && (if readable then Mirrors(if nodes[0].Folder? then nodes[0].children else [], below, path, modified)
               else nodes[0].Leaf?)
  }

  lemma {:induction false} WalkMirrorsDisk(entries: seq<DiskEntry>, parent: string, modified: set<string>)
    ensures Mirrors(Walked(entries, parent, modified), entries, parent, modified)
    decreases entries
  {
    if entries != [] {
      var e, path := entries[0], PathOf(parent, entries[0].name);
      var nodes := Walked(entries, parent, modified);
      WalkMirrorsDisk(entries[1..], parent, modified);
      if !IsHidden(e.name) {
        assert nodes[1..] == Walked(entries[1..], parent, modified);
        if e.Directory? {
          if e.readable {
            WalkMirrorsDisk(e.entries, path, modified);
            AnyModifiedIff(e.entries, path, modified);
          }
          var children := if e.readable then Walked(e.entries, path, modified) else [];
          assert nodes[0] == DirNode(e.name, children);
        }
      }
    }
  }

  // From the disk to the screen ----------------------------------------------------------------------

  ghost predicate WellNamedDisk(entries: seq<DiskEntry>)
    decreases entries
  {
    entries != [] ==>
      && entries[0].name != "" && '/' !in entries[0].name
      && (forall i :: 1 <= i < |entries| ==> entries[i].name != entries[0].name)
      && (entries[0].Directory? ==> WellNamedDisk(entries[0].entries))
      && WellNamedDisk(entries[1..])
  }

  /** Every file that can be reached is in the tree, under its own path and flag. */
  lemma {:induction false} FilesAreInTree(
    entries: seq<DiskEntry>, modified: set<string>, depth: nat, parent: string, ancestors: seq<string>, path: string)
    returns (e: Entry)
    requires path in FilesBelow(entries, parent)
    ensures e in AllEntries(Walked(entries, parent, modified), depth, parent, ancestors)
    ensures e.isLeaf && !e.item.isDir && e.item.path == path && (e.item.modified <==> path in modified)
    decreases entries
  {
    var d, p := entries[0], PathOf(parent, entries[0].name);
    var nodes := Walked(entries, parent, modified);
    if path in FilesBelow(entries[1..], parent) {
      e := FilesAreInTree(entries[1..], modified, depth, parent, ancestors, path);
      if !IsHidden(d.name) {
        assert nodes[1..] == Walked(entries[1..], parent, modified);
        EntriesOf(nodes, depth, parent, ancestors, e);
      }
    } else if d.PlainFile? {
      e := Entry(ItemOf(nodes[0], depth, parent), true, ancestors);
      EntriesOf(nodes, depth, parent, ancestors, e);
    } else {
      e := FilesAreInTree(d.entries, modified, depth + 1, p, ancestors + [p], path);
      assert nodes[0] == DirNode(d.name, Walked(d.entries, p, modified));
      assert Below(nodes[0], depth, parent, ancestors) ==
             AllEntries(Walked(d.entries, p, modified), depth + 1, p, ancestors + [p]);
      EntriesOf(nodes, depth, parent, ancestors, e);
    }
  }

  /** From the disk to the screen: every modified file, and the active one, is shown with its flag as
      soon as the explorer has opened what it collects. */
  lemma ModifiedFilesAreShown(
    entries: seq<DiskEntry>, modified: set<string>, prior: set<string>, active: string, path: string)
    returns (item: Item)
    requires path in FilesBelow(entries, "") && (path in modified || path == active)
    ensures
      var nodes := Walked(entries, "", modified);
      item in VisibleItems(nodes, prior + Collected(nodes, "", active), 0, "")
    ensures item.path == path && !item.isDir && (item.modified <==> path in modified)
  {
    var e := FilesAreInTree(entries, modified, 0, "", [], path);
    RelevantIsVisible(Walked(entries, "", modified), prior, active, e);
    item := e.item;
  }

  // From git's report to the screen --------------------------------------------------------------------

  /** git reports an untracked directory by one entry that ends in a slash. It flags no file. */
  lemma {:induction false} DirectoryEntryFlagsNothing(
    entries: seq<DiskEntry>, parent: string, modified: set<string>, dir: string)
    requires WellNamedDisk(entries) && dir != "" && dir[|dir| - 1] == '/'
    ensures Walked(entries, parent, modified + {dir}) == Walked(entries, parent, modified)
    decreases entries
  {
    if entries != [] {
      var e, path := entries[0], PathOf(parent, entries[0].name);
      DirectoryEntryFlagsNothing(entries[1..], parent, modified, dir);
      if !IsHidden(e.name) && e.Directory? && e.readable {
        DirectoryEntryFlagsNothing(e.entries, path, modified, dir);
      }
    }
  }

  /** What the observer makes of a report, in the tree. */
  function TreeOf(entries: seq<DiskEntry>, changes: seq<Change>): seq<Node> {
    Walked(entries, "", FilesOf(Lines(TrimSpace(Report(changes)))))
  }

  /** Exactly which reachable files carry a flag: the reported ones, but for the first one if its line is
      not read right; instead of it, a file with the name that its line is misread for. */
  lemma FlagIff(entries: seq<DiskEntry>, changes: seq<Change>, path: string) returns (e: Entry)
    requires changes != [] && AllReportable(changes) && path in FilesBelow(entries, "")
    requires forall i, j :: 0 <= i < j < |changes| ==> changes[i].path != changes[j].path
    ensures e in Tree(TreeOf(entries, changes)) && e.isLeaf && !e.item.isDir && e.item.path == path
    ensures FirstIsRead(changes) ==> (e.item.modified <==> path in Changed(changes))
    ensures !FirstIsRead(changes) ==>
      (e.item.modified <==> path in Changed(changes[1..]) || FileOf(Shifted(changes[0])) == Some(path))
    ensures !FirstIsRead(changes) && path == changes[0].path ==> !e.item.modified
  {
    var first := changes[0];
    e := FilesAreInTree(entries, FilesOf(Lines(TrimSpace(Report(changes)))), 0, "", [], path);
    assert first in changes && Reportable(first);
    SeenIff(changes);
    ParsedLines(changes);
    ShiftedLine(first);
    hide FilesOf, Lines, TrimSpace, Report, FileOf, Shifted, FilesBelow;
    assert forall c :: c in changes[1..] ==> c.path != first.path;
  }
}
