/** The workspace tree: what the explorer shows for a set of expanded directories, which directories
    it opens by itself, and how the observer flags what has been modified. */
module Explorer {
  import opened Text

  /** A leaf is a file, or a directory of which no children are given: the observer leaves an empty
      list of children out. */
  datatype Node =
    | Leaf(name: string, isDir: bool, modified: bool)
    | Folder(name: string, modified: bool, children: seq<Node>)

  datatype Item = Item(name: string, path: string, isDir: bool, modified: bool, depth: nat)

  function PathOf(parent: string, name: string): string {
    if parent == "" then name else parent + "/" + name
  }

  function ItemOf(node: Node, depth: nat, parent: string): Item {
    Item(node.name, PathOf(parent, node.name), node.Folder? || node.isDir, node.modified, depth)
  }

  // What is shown --------------------------------------------------------------------------------

  function VisibleItems(nodes: seq<Node>, expanded: set<string>, depth: nat, parent: string): seq<Item>
    decreases nodes
  {
    if nodes == [] then []
    else
      var node, path := nodes[0], PathOf(parent, nodes[0].name);
      [ItemOf(node, depth, parent)]
      + (if node.Folder? && path in expanded then VisibleItems(node.children, expanded, depth + 1, path) else [])
      + VisibleItems(nodes[1..], expanded, depth, parent)
  }

  /** buildVisibleItems. */
  method BuildVisibleItems(nodes: seq<Node>, expanded: set<string>, depth: nat, parent: string)
    returns (result: seq<Item>)
    ensures result == VisibleItems(nodes, expanded, depth, parent)
    decreases nodes
  {
    result := [];
    for i := 0 to |nodes|
      invariant result + VisibleItems(nodes[i..], expanded, depth, parent) ==
                VisibleItems(nodes, expanded, depth, parent)
    {
      hide VisibleItems;
      var node := nodes[i];
      var path := if parent != "" then parent + "/" + node.name else node.name;
      OneNodeShown(result, nodes, i, expanded, depth, parent);
      var isDir := node.Folder? || node.isDir;
      result := result + [Item(node.name, path, isDir, node.modified, depth)];
      if node.Folder? && path in expanded {
        var below := BuildVisibleItems(node.children, expanded, depth + 1, path);
        result := result + below;
      }
    }
    assert nodes[|nodes|..] == [];
  }

  lemma OneNodeShown(result: seq<Item>, nodes: seq<Node>, i: nat, expanded: set<string>, depth: nat, parent: string)
    requires i < |nodes|
    ensures
      var path, rest := PathOf(parent, nodes[i].name), VisibleItems(nodes[i + 1..], expanded, depth, parent);
      result + VisibleItems(nodes[i..], expanded, depth, parent) ==
      var shown := result + [ItemOf(nodes[i], depth, parent)];
      if nodes[i].Folder? && path in expanded
      then shown + VisibleItems(nodes[i].children, expanded, depth + 1, path) + rest
      else shown + rest
  {
    var path, rest := PathOf(parent, nodes[i].name), VisibleItems(nodes[i + 1..], expanded, depth, parent);
    var item := [ItemOf(nodes[i], depth, parent)];
    var below :=
      if nodes[i].Folder? && path in expanded then VisibleItems(nodes[i].children, expanded, depth + 1, path) else [];
    assert nodes[i..][0] == nodes[i] && nodes[i..][1..] == nodes[i + 1..];
    assert VisibleItems(nodes[i..], expanded, depth, parent) == item + below + rest;
    hide VisibleItems;
    Assoc(result, item + below, rest);
    Assoc(result, item, below);
    assert result + item + [] == result + item;
  }

  /** A node of the tree with the paths of the directories above it, outermost first. */
  datatype Entry = Entry(item: Item, isLeaf: bool, ancestors: seq<string>)

  /** The whole tree in preorder. */
  function AllEntries(nodes: seq<Node>, depth: nat, parent: string, ancestors: seq<string>): seq<Entry>
    decreases nodes
  {
    if nodes == [] then []
    else
      [Entry(ItemOf(nodes[0], depth, parent), nodes[0].Leaf?, ancestors)]
      + Below(nodes[0], depth, parent, ancestors)
      + AllEntries(nodes[1..], depth, parent, ancestors)
  }

  function Below(node: Node, depth: nat, parent: string, ancestors: seq<string>): seq<Entry>
    decreases node
  {
    if node.Leaf? then []
    else
      var path := PathOf(parent, node.name);
      AllEntries(node.children, depth + 1, path, ancestors + [path])
  }

  function Tree(nodes: seq<Node>): seq<Entry> { AllEntries(nodes, 0, "", []) }

  predicate IsOpen(e: Entry, expanded: set<string>) {
    forall a :: a in e.ancestors ==> a in expanded
  }

  /** The items of the entries below expanded directories only. */
  function OpenItems(entries: seq<Entry>, expanded: set<string>): seq<Item> {
    if entries == [] then []
    else (if IsOpen(entries[0], expanded) then [entries[0].item] else []) + OpenItems(entries[1..], expanded)
  }

  lemma {:induction false} OpenItemsSplit(x: seq<Entry>, y: seq<Entry>, expanded: set<string>)
    ensures OpenItems(x + y, expanded) == OpenItems(x, expanded) + OpenItems(y, expanded)
    decreases |x|
  {
    hide OpenItems, IsOpen;
    if x == [] {
      assert x + y == y;
      NothingOpen(x, expanded);
    } else {
      var rest := x[1..];
      assert (x + y)[0] == x[0] && (x + y)[1..] == rest + y;
      OpenItemsHead(x, expanded);
      OpenItemsHead(x + y, expanded);
      OpenItemsSplit(rest, y, expanded);
      Assoc(if IsOpen(x[0], expanded) then [x[0].item] else [], OpenItems(rest, expanded), OpenItems(y, expanded));
    }
  }

  lemma OpenItemsHead(x: seq<Entry>, expanded: set<string>)
    requires x != []
    ensures OpenItems(x, expanded) ==
      (if IsOpen(x[0], expanded) then [x[0].item] else []) + OpenItems(x[1..], expanded)
  {}

  lemma {:induction false} NothingOpen(entries: seq<Entry>, expanded: set<string>)
    requires forall e :: e in entries ==> !IsOpen(e, expanded)
    ensures OpenItems(entries, expanded) == []
  {
    if entries != [] {
      NothingOpen(entries[1..], expanded);
    }
  }

  lemma {:induction false} OpenItemsContain(entries: seq<Entry>, expanded: set<string>, item: Item)
    ensures item in OpenItems(entries, expanded) <==>
      exists e :: e in entries && e.item == item && IsOpen(e, expanded)
  {
    if entries != [] {
      OpenItemsContain(entries[1..], expanded, item);
      assert forall e :: e in entries <==> e == entries[0] || e in entries[1..];
    }
  }

  lemma {:induction false} AncestorsStay(nodes: seq<Node>, depth: nat, parent: string, ancestors: seq<string>, e: Entry)
    requires e in AllEntries(nodes, depth, parent, ancestors)
    ensures ancestors <= e.ancestors
    decreases nodes
  {
    if e in AllEntries(nodes[1..], depth, parent, ancestors) {
      AncestorsStay(nodes[1..], depth, parent, ancestors, e);
    } else if e in Below(nodes[0], depth, parent, ancestors) {
      var path := PathOf(parent, nodes[0].name);
      AncestorsStay(nodes[0].children, depth + 1, path, ancestors + [path], e);
    }
  }

  /** What the explorer shows is the preorder of the nodes below expanded directories only. */
  lemma {:induction false} VisibleIsOpen(
    nodes: seq<Node>, expanded: set<string>, depth: nat, parent: string, ancestors: seq<string>)
    requires forall a :: a in ancestors ==> a in expanded
    ensures VisibleItems(nodes, expanded, depth, parent) ==
            OpenItems(AllEntries(nodes, depth, parent, ancestors), expanded)
    decreases nodes
  {
    if nodes != [] {
      var path := PathOf(parent, nodes[0].name);
      var head := Entry(ItemOf(nodes[0], depth, parent), nodes[0].Leaf?, ancestors);
      var below := Below(nodes[0], depth, parent, ancestors);
      var rest := AllEntries(nodes[1..], depth, parent, ancestors);
      VisibleIsOpen(nodes[1..], expanded, depth, parent, ancestors);
      OpenItemsSplit([head] + below, rest, expanded);
      OpenItemsSplit([head], below, expanded);
      assert OpenItems([head], expanded) == [head.item];
      if nodes[0].Folder? {
        if path in expanded {
          VisibleIsOpen(nodes[0].children, expanded, depth + 1, path, ancestors + [path]);
        } else {
          ClosedBelow(nodes[0], expanded, depth, parent, ancestors);
        }
      }
    }
  }

  lemma ClosedBelow(node: Node, expanded: set<string>, depth: nat, parent: string, ancestors: seq<string>)
    requires node.Folder? && PathOf(parent, node.name) !in expanded
    ensures OpenItems(Below(node, depth, parent, ancestors), expanded) == []
  {
    var path := PathOf(parent, node.name);
    forall e | e in Below(node, depth, parent, ancestors)
      ensures !IsOpen(e, expanded)
    {
      AncestorsStay(node.children, depth + 1, path, ancestors + [path], e);
      assert e.ancestors[|ancestors|] == path;
    }
    NothingOpen(Below(node, depth, parent, ancestors), expanded);
  }

  // What is opened by itself -----------------------------------------------------------------------

  function HasRelevant(nodes: seq<Node>, parent: string, active: string): bool
    decreases nodes
  {
    nodes != [] &&
    var path := PathOf(parent, nodes[0].name);
    || nodes[0].modified
    || (if nodes[0].Folder? then HasRelevant(nodes[0].children, path, active) else path == active)
    || HasRelevant(nodes[1..], parent, active)
  }

  function Collected(nodes: seq<Node>, parent: string, active: string): set<string>
    decreases nodes
  {
    if nodes == [] then {}
    else
      var path := PathOf(parent, nodes[0].name);
      (if nodes[0].Folder? then
         Collected(nodes[0].children, path, active)
         + (if HasRelevant(nodes[0].children, path, active) || nodes[0].modified then {path} else {})
       else {})
      + Collected(nodes[1..], parent, active)
  }

  class PathSet {
    var paths: set<string>

    constructor ()
      ensures paths == {}
    {
      paths := {};
    }
  }

  /** collectExpandedPaths. */
  method CollectExpandedPaths(nodes: seq<Node>, parent: string, result: PathSet, active: string)
    returns (hasRelevant: bool)
    modifies result
    ensures hasRelevant == HasRelevant(nodes, parent, active)
    ensures result.paths == old(result.paths) + Collected(nodes, parent, active)
    decreases nodes
  {
    hasRelevant := false;
    for i := 0 to |nodes|
      invariant HasRelevant(nodes, parent, active) <==> hasRelevant || HasRelevant(nodes[i..], parent, active)
      invariant old(result.paths) + Collected(nodes, parent, active) ==
                result.paths + Collected(nodes[i..], parent, active)
    {
      OneNodeCollected(nodes, i, parent, active);
      hide HasRelevant, Collected;
      var relevant := CollectNode(nodes[i], parent, result, active);
      hasRelevant := hasRelevant || relevant;
    }
    assert nodes[|nodes|..] == [];
  }

  method CollectNode(node: Node, parent: string, result: PathSet, active: string) returns (relevant: bool)
    modifies result
    ensures relevant == NodeIsRelevant(node, parent, active)
    ensures result.paths == old(result.paths) + CollectedAt(node, parent, active)
    decreases node
  {
    var path := if parent != "" then parent + "/" + node.name else node.name;
    if node.Folder? {
      var childRelevant := CollectExpandedPaths(node.children, path, result, active);
      relevant := childRelevant || node.modified;
      if relevant {
        result.paths := result.paths + {path};
      }
    } else {
      relevant := node.modified || path == active;
    }
  }

  function NodeIsRelevant(node: Node, parent: string, active: string): bool {
    var path := PathOf(parent, node.name);
    node.modified || (if node.Folder? then HasRelevant(node.children, path, active) else path == active)
  }

  function CollectedAt(node: Node, parent: string, active: string): set<string> {
    var path := PathOf(parent, node.name);
    if node.Leaf? then {}
    else Collected(node.children, path, active) + if NodeIsRelevant(node, parent, active) then {path} else {}
  }

  lemma OneNodeCollected(nodes: seq<Node>, i: nat, parent: string, active: string)
    requires i < |nodes|
    ensures HasRelevant(nodes[i..], parent, active) <==>
      NodeIsRelevant(nodes[i], parent, active) || HasRelevant(nodes[i + 1..], parent, active)
    ensures Collected(nodes[i..], parent, active) ==
      CollectedAt(nodes[i], parent, active) + Collected(nodes[i + 1..], parent, active)
  {
    var tail := nodes[i..];
    assert tail[0] == nodes[i] && tail[1..] == nodes[i + 1..];
  }

  /** What should be seen: anything modified, and the active file. */
  predicate IsRelevant(e: Entry, active: string) {
    e.item.modified || (e.isLeaf && e.item.path == active)
  }

  /** A directory that has to be open for the entry: one above it, or the entry itself. */
  predicate Opens(e: Entry, base: nat, path: string) {
    || (exists k :: base <= k < |e.ancestors| && e.ancestors[k] == path)
    || (!e.isLeaf && e.item.path == path)
  }

  lemma EntriesOf(nodes: seq<Node>, depth: nat, parent: string, ancestors: seq<string>, e: Entry)
    requires nodes != []
    ensures e in AllEntries(nodes, depth, parent, ancestors) <==>
      || e == Entry(ItemOf(nodes[0], depth, parent), nodes[0].Leaf?, ancestors)
      || e in Below(nodes[0], depth, parent, ancestors)
      || e in AllEntries(nodes[1..], depth, parent, ancestors)
  {}

  lemma {:induction false} RelevantIff(
    nodes: seq<Node>, depth: nat, parent: string, ancestors: seq<string>, active: string)
    ensures HasRelevant(nodes, parent, active) <==>
      exists e :: e in AllEntries(nodes, depth, parent, ancestors) && IsRelevant(e, active)
    decreases nodes
  {
    if nodes != [] {
      var path := PathOf(parent, nodes[0].name);
      var head := Entry(ItemOf(nodes[0], depth, parent), nodes[0].Leaf?, ancestors);
      RelevantIff(nodes[1..], depth, parent, ancestors, active);
      if nodes[0].Folder? {
        RelevantIff(nodes[0].children, depth + 1, path, ancestors + [path], active);
        assert Below(nodes[0], depth, parent, ancestors) ==
          AllEntries(nodes[0].children, depth + 1, path, ancestors + [path]);
      }
      assert head in AllEntries(nodes, depth, parent, ancestors);
      forall e
        ensures e in AllEntries(nodes, depth, parent, ancestors) <==>
          || e == head
          || e in Below(nodes[0], depth, parent, ancestors)
          || e in AllEntries(nodes[1..], depth, parent, ancestors)
      {
        EntriesOf(nodes, depth, parent, ancestors, e);
      }
    }
  }

  /** A directory is collected exactly when something relevant lies below it or it is modified itself. */
  lemma {:induction false} CollectedIff(
    nodes: seq<Node>, depth: nat, parent: string, ancestors: seq<string>, active: string, path: string)
    ensures path in Collected(nodes, parent, active) <==>
      exists e :: e in AllEntries(nodes, depth, parent, ancestors) && IsRelevant(e, active) &&
        Opens(e, |ancestors|, path)
    decreases nodes
  {
    if nodes != [] {
      var head := Entry(ItemOf(nodes[0], depth, parent), nodes[0].Leaf?, ancestors);
      CollectedIff(nodes[1..], depth, parent, ancestors, active, path);
      assert head in AllEntries(nodes, depth, parent, ancestors);
      forall e
        ensures e in AllEntries(nodes, depth, parent, ancestors) <==>
          || e == head
          || e in Below(nodes[0], depth, parent, ancestors)
          || e in AllEntries(nodes[1..], depth, parent, ancestors)
      {
        EntriesOf(nodes, depth, parent, ancestors, e);
      }
      if nodes[0].Folder? {
        var p := PathOf(parent, nodes[0].name);
        CollectedIff(nodes[0].children, depth + 1, p, ancestors + [p], active, path);
        RelevantIff(nodes[0].children, depth + 1, p, ancestors + [p], active);
        assert Below(nodes[0], depth, parent, ancestors) ==
          AllEntries(nodes[0].children, depth + 1, p, ancestors + [p]);
        forall e | e in Below(nodes[0], depth, parent, ancestors)
          ensures Opens(e, |ancestors|, path) <==> path == p || Opens(e, |ancestors| + 1, path)
        {
          AncestorsStay(nodes[0].children, depth + 1, p, ancestors + [p], e);
          assert e.ancestors[|ancestors|] == p;
        }
      }
    }
  }

  /** Whatever was expanded before, once the collected directories are expanded too every modified
      node and the active file are shown. */
  lemma RelevantIsVisible(nodes: seq<Node>, prior: set<string>, active: string, e: Entry)
    requires e in Tree(nodes) && IsRelevant(e, active)
    ensures e.item in VisibleItems(nodes, prior + Collected(nodes, "", active), 0, "")
  {
    var expanded := prior + Collected(nodes, "", active);
    forall a | a in e.ancestors
      ensures a in expanded
    {
      var k :| 0 <= k < |e.ancestors| && e.ancestors[k] == a;
      CollectedIff(nodes, 0, "", [], active, a);
      assert Opens(e, 0, a);
    }
    VisibleIsOpen(nodes, expanded, 0, "", []);
    OpenItemsContain(Tree(nodes), expanded, e.item);
  }

  // Paths ----------------------------------------------------------------------------------------

  function Names(nodes: seq<Node>): set<string> { set n | n in nodes :: n.name }

  /** Names as a file system gives them: not empty, without slashes, different among siblings. */
  predicate WellNamed(nodes: seq<Node>)
    decreases nodes
  {
    nodes != [] ==>
      && nodes[0].name != "" && '/' !in nodes[0].name
      && nodes[0].name !in Names(nodes[1..])
      && (nodes[0].Folder? ==> WellNamed(nodes[0].children))
      && WellNamed(nodes[1..])
  }

  function Parts(path: string): seq<string> { if path == "" then [] else Split(path) }

  lemma PartsOfChild(parent: string, name: string)
    requires name != "" && '/' !in name
    ensures Parts(PathOf(parent, name)) == Parts(parent) + [name]
  {
    SplitJoin([name]);
    if parent != "" {
      SplitAcross(parent, name);
    }
  }

  /** Below a parent, the next part of a path is the name of one of its children. */
  lemma {:induction false} PartsBelow(nodes: seq<Node>, depth: nat, parent: string, ancestors: seq<string>, e: Entry)
    requires WellNamed(nodes) && e in AllEntries(nodes, depth, parent, ancestors)
    ensures |Parts(e.item.path)| > |Parts(parent)|
    ensures Parts(parent) <= Parts(e.item.path)
    ensures Parts(e.item.path)[|Parts(parent)|] in Names(nodes)
    decreases nodes
  {
    var path := PathOf(parent, nodes[0].name);
    PartsOfChild(parent, nodes[0].name);
    EntriesOf(nodes, depth, parent, ancestors, e);
    if e in AllEntries(nodes[1..], depth, parent, ancestors) {
      PartsBelow(nodes[1..], depth, parent, ancestors, e);
    } else if e in Below(nodes[0], depth, parent, ancestors) {
      PartsBelow(nodes[0].children, depth + 1, path, ancestors + [path], e);
      assert Parts(e.item.path)[|Parts(parent)|] == Parts(path)[|Parts(parent)|];
    }
  }

  ghost predicate DistinctPaths(entries: seq<Entry>) {
    forall i, j :: 0 <= i < j < |entries| ==> entries[i].item.path != entries[j].item.path
  }

  lemma {:induction false} PathsAreDistinct(nodes: seq<Node>, depth: nat, parent: string, ancestors: seq<string>)
    requires WellNamed(nodes)
    ensures DistinctPaths(AllEntries(nodes, depth, parent, ancestors))
    decreases nodes
  {
    if nodes != [] {
      var name := nodes[0].name;
      var head := Entry(ItemOf(nodes[0], depth, parent), nodes[0].Leaf?, ancestors);
      var below := Below(nodes[0], depth, parent, ancestors);
      var rest := AllEntries(nodes[1..], depth, parent, ancestors);
      var k := |Parts(parent)|;
      PathsAreDistinct(nodes[1..], depth, parent, ancestors);
      PartsOfChild(parent, name);
      forall e | e in rest
        ensures |Parts(e.item.path)| > k && Parts(e.item.path)[k] != name
      {
        PartsBelow(nodes[1..], depth, parent, ancestors, e);
      }
      if nodes[0].Folder? {
        BelowIsDistinct(nodes[0], depth, parent, ancestors);
      }
    }
  }

  lemma {:induction false} BelowIsDistinct(node: Node, depth: nat, parent: string, ancestors: seq<string>)
    requires node.Folder? && WellNamed(node.children) && node.name != "" && '/' !in node.name
    ensures DistinctPaths(Below(node, depth, parent, ancestors))
    ensures forall e :: e in Below(node, depth, parent, ancestors) ==>
      && |Parts(e.item.path)| > |Parts(parent)| + 1
      && Parts(e.item.path)[|Parts(parent)|] == node.name
    decreases node
  {
    var path := PathOf(parent, node.name);
    PartsOfChild(parent, node.name);
    PathsAreDistinct(node.children, depth + 1, path, ancestors + [path]);
    forall e | e in Below(node, depth, parent, ancestors)
      ensures |Parts(e.item.path)| > |Parts(parent)| + 1 && Parts(e.item.path)[|Parts(parent)|] == node.name
    {
      PartsBelow(node.children, depth + 1, path, ancestors + [path], e);
      assert Parts(path) <= Parts(e.item.path);
    }
  }

  lemma {:induction false} OpenItemsStayDistinct(entries: seq<Entry>, expanded: set<string>)
    requires DistinctPaths(entries)
    ensures forall i, j :: 0 <= i < j < |OpenItems(entries, expanded)| ==>
      OpenItems(entries, expanded)[i].path != OpenItems(entries, expanded)[j].path
  {
    if entries != [] {
      var rest := OpenItems(entries[1..], expanded);
      OpenItemsStayDistinct(entries[1..], expanded);
      forall i | 0 <= i < |rest|
        ensures rest[i].path != entries[0].item.path
      {
        OpenItemsContain(entries[1..], expanded, rest[i]);
        var e :| e in entries[1..] && e.item == rest[i];
        var k :| 0 <= k < |entries[1..]| && entries[1..][k] == e;
        assert entries[k + 1] == e;
      }
    }
  }

  /** No path is shown twice. */
  lemma VisiblePathsAreDistinct(nodes: seq<Node>, expanded: set<string>, i: nat, j: nat)
    requires WellNamed(nodes) && i < j < |VisibleItems(nodes, expanded, 0, "")|
    ensures VisibleItems(nodes, expanded, 0, "")[i].path != VisibleItems(nodes, expanded, 0, "")[j].path
  {
    VisibleIsOpen(nodes, expanded, 0, "", []);
    PathsAreDistinct(nodes, 0, "", []);
    OpenItemsStayDistinct(Tree(nodes), expanded);
  }

  /** The paths above a path: what precedes each of its slashes. */
  function Above(path: string): (above: seq<string>)
    ensures |above| == |Parts(path)| - 1 || (path == "" && above == [])
    ensures forall k :: 0 <= k < |above| ==> above[k] == Join(Parts(path)[..k + 1])
  {
    if path == "" then [] else seq(|Parts(path)| - 1, k requires 0 <= k < |Parts(path)| => Join(Parts(path)[..k + 1]))
  }

  lemma AboveChild(parent: string, name: string)
    requires name != "" && '/' !in name
    ensures Above(PathOf(parent, name)) == if parent == "" then [] else Above(parent) + [parent]
  {
    var path := PathOf(parent, name);
    PartsOfChild(parent, name);
    if parent != "" {
      var above := Above(parent) + [parent];
      JoinSplit(parent);
      forall k | 0 <= k < |above|
        ensures Above(path)[k] == above[k]
      {
        assert Parts(path)[..k + 1] == Parts(parent)[..k + 1];
        assert Parts(parent)[..|Parts(parent)|] == Parts(parent);
      }
    }
  }

  /** The directories above an entry are what its path says, and their number is its depth. */
  lemma {:induction false} AncestorsAreAbove(nodes: seq<Node>, depth: nat, parent: string, e: Entry)
    requires WellNamed(nodes)
    requires depth == |if parent == "" then [] else Above(parent) + [parent]|
    requires e in AllEntries(nodes, depth, parent, if parent == "" then [] else Above(parent) + [parent])
    ensures e.ancestors == Above(e.item.path) && e.item.depth == |e.ancestors|
    decreases nodes
  {
    var ancestors := if parent == "" then [] else Above(parent) + [parent];
    var path := PathOf(parent, nodes[0].name);
    AboveChild(parent, nodes[0].name);
    EntriesOf(nodes, depth, parent, ancestors, e);
    if e in AllEntries(nodes[1..], depth, parent, ancestors) {
      AncestorsAreAbove(nodes[1..], depth, parent, e);
    } else if e in Below(nodes[0], depth, parent, ancestors) {
      AncestorsAreAbove(nodes[0].children, depth + 1, path, e);
    }
  }

  /** An item of the tree is shown exactly when every directory its path names is expanded. */
  lemma ShownIff(nodes: seq<Node>, expanded: set<string>, e: Entry)
    requires WellNamed(nodes) && e in Tree(nodes)
    ensures e.item in VisibleItems(nodes, expanded, 0, "") <==>
      forall a :: a in Above(e.item.path) ==> a in expanded
  {
    VisibleIsOpen(nodes, expanded, 0, "", []);
    OpenItemsContain(Tree(nodes), expanded, e.item);
    forall f | f in Tree(nodes) && f.item == e.item
      ensures f.ancestors == Above(e.item.path)
    {
      AncestorsAreAbove(nodes, 0, "", f);
    }
  }

  // Told of the tree itself ----------------------------------------------------------------------------

  /** The names of `parts` lead from the top of the tree to the node. */
  ghost predicate LiesAt(nodes: seq<Node>, parts: seq<string>, node: Node)
    decreases |parts|
  {
    parts != [] && exists i :: 0 <= i < |nodes| && nodes[i].name == parts[0] && LiesUnder(nodes[i], parts, node)
  }

  ghost predicate LiesUnder(first: Node, parts: seq<string>, node: Node)
    requires parts != []
    decreases |parts|, 0
  {
    if |parts| == 1 then first == node else first.Folder? && LiesAt(first.children, parts[1..], node)
  }

  function FullPath(parent: string, parts: seq<string>): string {
    if parent == "" then Join(parts) else parent + "/" + Join(parts)
  }

  lemma OneStepDown(parent: string, parts: seq<string>)
    requires |parts| > 1 && parts[0] != ""
    ensures FullPath(PathOf(parent, parts[0]), parts[1..]) == FullPath(parent, parts)
  {
    var rest := Join(parts[1..]);
    assert parent + "/" + parts[0] + "/" + rest == parent + "/" + (parts[0] + "/" + rest);
  }

  lemma LiesInTail(nodes: seq<Node>, parts: seq<string>, node: Node)
    requires nodes != [] && parts != []
    ensures LiesAt(nodes, parts, node) <==>
      (nodes[0].name == parts[0] && LiesUnder(nodes[0], parts, node)) || LiesAt(nodes[1..], parts, node)
  {
    hide LiesUnder;
    if LiesAt(nodes, parts, node) {
      var i :| 0 <= i < |nodes| && nodes[i].name == parts[0] && LiesUnder(nodes[i], parts, node);
      assert i > 0 ==> nodes[1..][i - 1] == nodes[i];
    }
    if LiesAt(nodes[1..], parts, node) {
      var i :| 0 <= i < |nodes[1..]| && nodes[1..][i].name == parts[0] && LiesUnder(nodes[1..][i], parts, node);
      assert nodes[i + 1] == nodes[1..][i];
    }
  }

  /** The line of a node: its name, its path, whether it is a directory, its flag and its depth. */
  ghost predicate IsLineOf(item: Item, node: Node, depth: nat, parent: string, parts: seq<string>) {
    && parts != [] && item.name == node.name == parts[|parts| - 1] && item.path == FullPath(parent, parts)
    && (item.isDir <==> node.Folder? || node.isDir) && (item.modified <==> node.modified)
    && item.depth == depth + |parts| - 1
  }

  ghost predicate Unfolded(expanded: set<string>, parent: string, parts: seq<string>) {
    forall k :: 1 <= k < |parts| ==> FullPath(parent, parts[..k]) in expanded
  }

  lemma UnfoldedDown(expanded: set<string>, parent: string, parts: seq<string>)
    requires |parts| > 1 && parts[0] != ""
    ensures Unfolded(expanded, parent, parts) <==>
      PathOf(parent, parts[0]) in expanded && Unfolded(expanded, PathOf(parent, parts[0]), parts[1..])
  {
    assert parts[..1] == [parts[0]] && Join([parts[0]]) == parts[0];
    forall k | 2 <= k < |parts|
      ensures FullPath(parent, parts[..k]) == FullPath(PathOf(parent, parts[0]), parts[1..][..k - 1])
    {
      OneStepDown(parent, parts[..k]);
      assert parts[..k][1..] == parts[1..][..k - 1];
    }
    if Unfolded(expanded, PathOf(parent, parts[0]), parts[1..]) && PathOf(parent, parts[0]) in expanded {
      forall k | 1 <= k < |parts|
        ensures FullPath(parent, parts[..k]) in expanded
      {
        assert k > 1 ==> FullPath(PathOf(parent, parts[0]), parts[1..][..k - 1]) in expanded;
      }
    }
    if Unfolded(expanded, parent, parts) {
      forall k | 1 <= k < |parts[1..]|
        ensures FullPath(PathOf(parent, parts[0]), parts[1..][..k]) in expanded
      {
        assert FullPath(parent, parts[..k + 1]) in expanded;
      }
    }
  }

  /** What is shown is the line of a node of the tree that lies in expanded directories only. */
  lemma {:induction false} ShownIsNode(
    nodes: seq<Node>, expanded: set<string>, depth: nat, parent: string, item: Item)
    returns (parts: seq<string>, node: Node)
    requires WellNamed(nodes) && item in VisibleItems(nodes, expanded, depth, parent)
    ensures LiesAt(nodes, parts, node) && IsLineOf(item, node, depth, parent, parts)
    ensures Unfolded(expanded, parent, parts)
    decreases nodes
  {
    hide *;
    NothingShown(nodes, expanded, depth, parent, item);
    ShownFirst(nodes, expanded, depth, parent, item);
    WellNamedParts(nodes);
    var first, path := nodes[0], PathOf(parent, nodes[0].name);
    if item == ItemOf(first, depth, parent) {
      parts, node := [first.name], first;
      LineOfFirst(first, depth, parent, parts);
      FirstLies(first, parts, expanded, parent);
    } else if first.Folder? && path in expanded && item in VisibleItems(first.children, expanded, depth + 1, path) {
      var below;
      below, node := ShownIsNode(first.children, expanded, depth + 1, path, item);
      SomethingLies(first.children, below, node);
      parts := [first.name] + below;
      assert parts[1..] == below;
      LineGoesDown(item, node, depth, parent, parts);
      UnfoldedDown(expanded, parent, parts);
      LiesDown(first, parts, node);
    } else {
      parts, node := ShownIsNode(nodes[1..], expanded, depth, parent, item);
      SomethingLies(nodes[1..], parts, node);
    }
    LiesInTail(nodes, parts, node);
  }

  lemma NothingShown(nodes: seq<Node>, expanded: set<string>, depth: nat, parent: string, item: Item)
    requires item in VisibleItems(nodes, expanded, depth, parent)
    ensures nodes != []
  {}

  lemma FirstLies(first: Node, parts: seq<string>, expanded: set<string>, parent: string)
    requires parts == [first.name]
    ensures LiesUnder(first, parts, first) && Unfolded(expanded, parent, parts)
  {}

  lemma LiesDown(first: Node, parts: seq<string>, node: Node)
    requires |parts| > 1 && first.Folder? && LiesAt(first.children, parts[1..], node)
    ensures LiesUnder(first, parts, node)
  {}

  lemma ShownFirst(nodes: seq<Node>, expanded: set<string>, depth: nat, parent: string, item: Item)
    requires nodes != []
    ensures var first, path := nodes[0], PathOf(parent, nodes[0].name);
      item in VisibleItems(nodes, expanded, depth, parent) <==>
        || item == ItemOf(first, depth, parent) || item in VisibleItems(nodes[1..], expanded, depth, parent)
        || (first.Folder? && path in expanded && item in VisibleItems(first.children, expanded, depth + 1, path))
  {
    hide ItemOf, PathOf;
  }

  /** And every such node has its line. */
  lemma {:induction false} NodeIsShown(
    nodes: seq<Node>, expanded: set<string>, depth: nat, parent: string, parts: seq<string>, node: Node)
    returns (item: Item)
    requires WellNamed(nodes) && LiesAt(nodes, parts, node) && Unfolded(expanded, parent, parts)
    ensures item in VisibleItems(nodes, expanded, depth, parent) && IsLineOf(item, node, depth, parent, parts)
    decreases nodes
  {
    hide *;
    SomethingLies(nodes, parts, node);
    LiesInTail(nodes, parts, node);
    WellNamedParts(nodes);
    var first, path := nodes[0], PathOf(parent, nodes[0].name);
    if first.name == parts[0] && LiesUnder(first, parts, node) {
      UnderFirst(first, parts, node);
      if |parts| == 1 {
        item := ItemOf(first, depth, parent);
        LineOfFirst(first, depth, parent, parts);
      } else {
        UnfoldedDown(expanded, parent, parts);
        item := NodeIsShown(first.children, expanded, depth + 1, path, parts[1..], node);
        LineGoesDown(item, node, depth, parent, parts);
      }
    } else {
      item := NodeIsShown(nodes[1..], expanded, depth, parent, parts, node);
    }
    ShownFirst(nodes, expanded, depth, parent, item);
  }

  lemma SomethingLies(nodes: seq<Node>, parts: seq<string>, node: Node)
    requires LiesAt(nodes, parts, node)
    ensures nodes != [] && parts != []
  {}

  lemma WellNamedParts(nodes: seq<Node>)
    requires WellNamed(nodes) && nodes != []
    ensures nodes[0].name != "" && WellNamed(nodes[1..]) && (nodes[0].Folder? ==> WellNamed(nodes[0].children))
  {}

  lemma UnderFirst(first: Node, parts: seq<string>, node: Node)
    requires parts != [] && LiesUnder(first, parts, node)
    ensures if |parts| == 1 then first == node else first.Folder? && LiesAt(first.children, parts[1..], node)
  {}

  lemma LineOfFirst(first: Node, depth: nat, parent: string, parts: seq<string>)
    requires parts == [first.name]
    ensures IsLineOf(ItemOf(first, depth, parent), first, depth, parent, parts)
  {}

  lemma LineGoesDown(item: Item, node: Node, depth: nat, parent: string, parts: seq<string>)
    requires |parts| > 1 && parts[0] != ""
    requires IsLineOf(item, node, depth + 1, PathOf(parent, parts[0]), parts[1..])
    ensures IsLineOf(item, node, depth, parent, parts)
  {
    OneStepDown(parent, parts);
    hide FullPath, PathOf;
  }
}
