/** The operator's watcher of the role directories: it reports a role when its time of last update is
    not the one recorded, and when a recorded role has gone. */
module RoleWatcher {
  import opened Wrappers
  import opened Paths
  import opened FileSystem
  import opened RoleStore

  /** An entry of the directory of roles; the time is there if the metadata can be read. */
  datatype DirEntry = DirEntry(name: string, isDir: bool, updatedAt: Option<int>)

  datatype Scan = Unreadable | Listing(entries: seq<DirEntry>)

  ghost predicate DistinctNames(entries: seq<DirEntry>) {
    forall i, j :: 0 <= i < j < |entries| ==> entries[i].name != entries[j].name
  }

  // What the scans tell of one role -------------------------------------------------------------

  datatype Sight = Gone | Blind | Read(updatedAt: int)

  function SightAt(e: DirEntry): Sight {
    if !e.isDir then Gone else match e.updatedAt case Some(t) => Read(t) case None => Blind
  }

  function SightIn(entries: seq<DirEntry>, name: string): Sight {
    if entries == [] then Gone
    else if entries[0].name == name && entries[0].isDir then SightAt(entries[0])
    else SightIn(entries[1..], name)
  }

  function SightOf(scan: Scan, name: string): Sight {
    match scan case Unreadable => Blind case Listing(entries) => SightIn(entries, name)
  }

  function Readable(s: Sight): Sight { if s.Read? then s else Blind }

  function Recall(recorded: Option<int>, s: Sight): Option<int> {
    match s case Gone => None case Blind => recorded case Read(t) => Some(t)
  }

  predicate Notices(recorded: Option<int>, s: Sight) {
    recorded.Some? && !s.Blind? && s != Read(recorded.value)
  }

  /** What is recorded of a role after the sights of it. */
  function Recorded(h: seq<Sight>): Option<int> {
    if h == [] then None else Recall(Recorded(h[..|h| - 1]), h[|h| - 1])
  }

  /** How often the role has been reported. */
  function Reports(h: seq<Sight>): nat {
    if h == [] then 0
    else Reports(h[..|h| - 1]) + if Notices(Recorded(h[..|h| - 1]), h[|h| - 1]) then 1 else 0
  }

  // The object ------------------------------------------------------------------------------------

  class Watcher {
    var lastUpdatedAt: map<string, int>

    constructor ()
      ensures lastUpdatedAt == map[]
    {
      lastUpdatedAt := map[];
    }

    function RecordOf(name: string): Option<int>
      reads this
    {
      if name in lastUpdatedAt then Some(lastUpdatedAt[name]) else None
    }

    /** scanForChanges. */
    method ScanForChanges(scan: Scan) returns (changed: seq<string>)
      requires scan.Listing? ==> DistinctNames(scan.entries)
      modifies this
      ensures forall name :: RecordOf(name) == Recall(old(RecordOf(name)), SightOf(scan, name))
      ensures forall name :: name in changed <==> old(Notices(RecordOf(name), SightOf(scan, name)))
      ensures forall i, j :: 0 <= i < j < |changed| ==> changed[i] != changed[j]
    {
      if scan.Unreadable? {
        return [];
      }
      var seen := {};
      changed, seen := ReadAll(scan.entries);
      changed := ForgetGone(scan.entries, seen, changed);
    }

    /** The first loop: what can be read is recorded, and reported unless this is the first time. */
    method ReadAll(entries: seq<DirEntry>) returns (changed: seq<string>, seen: set<string>)
      requires DistinctNames(entries)
      modifies this
      ensures forall name :: name in seen <==> !SightIn(entries, name).Gone?
      ensures forall name :: RecordOf(name) == Recall(old(RecordOf(name)), Readable(SightIn(entries, name)))
      ensures forall name :: name in changed <==> Notices(old(RecordOf(name)), Readable(SightIn(entries, name)))
      ensures forall i, j :: 0 <= i < j < |changed| ==> changed[i] != changed[j]
    {
      changed, seen := [], {};
      for i := 0 to |entries|
        invariant forall name :: name in seen <==> !SightIn(entries[..i], name).Gone?
        invariant forall name :: RecordOf(name) == Recall(old(RecordOf(name)), Readable(SightIn(entries[..i], name)))
        invariant forall name :: name in changed <==>
          Notices(old(RecordOf(name)), Readable(SightIn(entries[..i], name)))
        invariant forall k, l :: 0 <= k < l < |changed| ==> changed[k] != changed[l]
      {
        var e := entries[i];
        OneMoreEntry(entries, i);
        if !e.isDir {
          continue;
        }
        seen := seen + {e.name};
        if e.updatedAt.None? {
          continue;
        }
        var t := e.updatedAt.value;
        if e.name !in lastUpdatedAt || lastUpdatedAt[e.name] != t {
          if e.name in lastUpdatedAt {
            changed := changed + [e.name];
          }
          lastUpdatedAt := lastUpdatedAt[e.name := t];
        }
      }
      assert entries[..|entries|] == entries;
    }

    /** The second loop: a recorded role whose directory was not seen is reported and forgotten. */
    method ForgetGone(ghost entries: seq<DirEntry>, seen: set<string>, sofar: seq<string>)
      returns (changed: seq<string>)
      requires forall name :: name in seen <==> !SightIn(entries, name).Gone?
      requires forall name :: name in sofar ==> name in seen
      requires forall i, j :: 0 <= i < j < |sofar| ==> sofar[i] != sofar[j]
      modifies this
      ensures forall name :: RecordOf(name) == if name in seen then old(RecordOf(name)) else None
      ensures forall name :: name in changed <==> name in sofar || (name !in seen && name in old(lastUpdatedAt))
      ensures forall i, j :: 0 <= i < j < |changed| ==> changed[i] != changed[j]
    {
      changed := sofar;
      var names := lastUpdatedAt.Keys;
      while names != {}
        invariant names <= lastUpdatedAt.Keys <= old(lastUpdatedAt).Keys
        invariant forall name :: name in lastUpdatedAt ==> lastUpdatedAt[name] == old(lastUpdatedAt)[name]
        invariant forall name :: name in old(lastUpdatedAt) && name !in names ==>
          (name in lastUpdatedAt <==> name in seen)
        invariant forall name :: name in changed <==>
          name in sofar || (name !in seen && name in old(lastUpdatedAt) && name !in names)
        invariant forall i, j :: 0 <= i < j < |changed| ==> changed[i] != changed[j]
        decreases names
      {
        var name :| name in names;
        names := names - {name};
        if name !in seen {
          lastUpdatedAt := lastUpdatedAt - {name};
          changed := changed + [name];
        }
      }
    }
  }

  function SightWith(entries: seq<DirEntry>, i: nat, name: string): Sight
    requires i < |entries|
  {
    if name == entries[i].name then SightAt(entries[i]) else SightIn(entries[..i], name)
  }

  lemma OneMoreEntry(entries: seq<DirEntry>, i: nat)
    requires i < |entries| && DistinctNames(entries)
    ensures forall name {:trigger SightIn(entries[..i + 1], name)} ::
      SightIn(entries[..i + 1], name) == SightWith(entries, i, name)
    ensures SightIn(entries[..i], entries[i].name).Gone?
  {
    forall name
      ensures SightIn(entries[..i + 1], name) == SightWith(entries, i, name)
    {
      assert entries[..i + 1] == entries[..i] + [entries[i]];
      SightSplits(entries[..i], [entries[i]], name);
      assert SightIn([entries[i]], name) == if name == entries[i].name then SightAt(entries[i]) else Gone;
      if name == entries[i].name {
        Unnamed(entries[..i], name);
      }
    }
    Unnamed(entries[..i], entries[i].name);
  }

  lemma {:induction false} SightSplits(x: seq<DirEntry>, y: seq<DirEntry>, name: string)
    ensures SightIn(x + y, name) == if SightIn(x, name).Gone? then SightIn(y, name) else SightIn(x, name)
    decreases |x|
  {
    if x == [] {
      assert x + y == y;
    } else {
      assert (x + y)[0] == x[0] && (x + y)[1..] == x[1..] + y;
      SightSplits(x[1..], y, name);
    }
  }

  lemma {:induction false} Unnamed(entries: seq<DirEntry>, name: string)
    requires forall e :: e in entries ==> e.name != name
    ensures SightIn(entries, name).Gone?
  {
    if entries != [] {
      Unnamed(entries[1..], name);
    }
  }

  // Over runs of scans -------------------------------------------------------------------------------

  /** The sights that told something. */
  function Clear(h: seq<Sight>): seq<Sight> {
    if h == [] then []
    else Clear(h[..|h| - 1]) + if h[|h| - 1].Blind? then [] else [h[|h| - 1]]
  }

  /** The places at which a time that was read is followed by something else. */
  function Changes(clear: seq<Sight>): nat {
    if |clear| < 2 then 0
    else
      var last, before := clear[|clear| - 1], clear[|clear| - 2];
      Changes(clear[..|clear| - 1]) + if before.Read? && last != before then 1 else 0
  }

  /** A role is reported once for every change between two successive sights of it, whatever scans
      fail in between, and never for the first sight. */
  lemma {:induction false} ReportedOncePerChange(h: seq<Sight>)
    ensures Reports(h) == Changes(Clear(h))
    ensures Recorded(h) ==
      if Clear(h) != [] && Clear(h)[|Clear(h)| - 1].Read? then Some(Clear(h)[|Clear(h)| - 1].updatedAt) else None
    decreases |h|
  {
    if h != [] {
      var before := h[..|h| - 1];
      ReportedOncePerChange(before);
      if h[|h| - 1].Blind? {
        assert Clear(h) == Clear(before);
      } else {
        assert Clear(h)[..|Clear(h)| - 1] == Clear(before);
      }
    }
  }

  // Together with the role store -----------------------------------------------------------------------

  /** What a scan sees of a role in the tree. */
  function SightInTree(t: Tree, role: Path): Sight {
    if role !in t.dirs then Gone
    else if CanTouch(t, role) then Read(t.files[MetaPath(role)].updatedAt)
    else Blind
  }

  predicate SomeSucceeded(answers: seq<bool>) {
    exists i :: 0 <= i < |answers| && answers[i]
  }

  /** The operation does not name the metadata, and renames no directory. */
  predicate NamesFilesIn(t: Tree, role: Path, op: RoleStore.Op) {
    Accepted(op.name) ==>
      && JoinPath(role, op.name) != MetaPath(role)
      && (op.Move? && Accepted(op.newName) ==>
            JoinPath(role, op.newName) != MetaPath(role) && JoinPath(role, op.name) !in t.dirs)
  }

  predicate NamesFilesAlong(t: Tree, role: Path, ops: seq<RoleStore.Op>)
    decreases |ops|
  {
    ops == [] || (NamesFilesIn(t, role, ops[0]) && NamesFilesAlong(ApplyTree(t, role, ops[0]).0, role, ops[1..]))
  }

  /** The role's metadata can be stamped. */
  ghost predicate IsLive(t: Tree, role: Path) {
    WellFormed(t) && NormalPath(role) && CanTouch(t, role)
  }

  /** Touching a tree whose metadata are still what they were. */
  lemma TouchStamps(t: Tree, t': Tree, role: Path, now: int)
    requires IsLive(t, role) && WellFormed(t')
    requires MetaPath(role) in t'.files && t'.files[MetaPath(role)] == t.files[MetaPath(role)]
    ensures CanTouch(t', role) && IsLive(Touch(t', role, now), role)
    ensures SightInTree(Touch(t', role, now), role) == Read(now)
  {
    var done := Touch(t', role, now);
    assert role < MetaPath(role) && MetaPath(role) in done.files;
    assert done.dirs == t'.dirs && done.files.Keys == t'.files.Keys;
  }

  lemma PutStamps(t: Tree, role: Path, p: Path, text: string, now: int)
    requires IsLive(t, role) && NormalPath(p) && p != MetaPath(role)
    ensures var (t', ok) := PutAt(t, role, p, text, now);
      && IsLive(t', role)
      && SightInTree(t', role) == if ok then Read(now) else SightInTree(t, role)
  {
    var made := MkdirAll(t, Dir(p));
    assert role < MetaPath(role) && NormalPath(Dir(p));
    MkdirKeepsWellFormed(t, Dir(p));
    if StatOf(t, MetaPath(role)) != NotExist && CanMkdir(t, Dir(p)) && CanWrite(made, p) {
      WriteKeepsWellFormed(made, p, Text(text));
      TouchStamps(t, WriteFile(made, p, Text(text)), role, now);
    } else {
      assert role in made.dirs;
    }
  }

  lemma DeleteStamps(t: Tree, role: Path, p: Path, now: int)
    requires IsLive(t, role) && p != MetaPath(role)
    ensures var (t', ok) := DeleteAt(t, role, p, now);
      && IsLive(t', role)
      && SightInTree(t', role) == if ok then Read(now) else SightInTree(t, role)
  {
    if StatOf(t, p) != NotExist && CanRemove(t, p) {
      RemoveKeepsWellFormed(t, p);
      CleanUpKeepsWellFormed(Remove(t, p), Dir(p), role);
      TouchStamps(t, CleanUp(Remove(t, p), Dir(p), role), role, now);
    }
  }

  lemma RenameStamps(t: Tree, role: Path, from: Path, to: Path, now: int)
    requires IsLive(t, role) && NormalPath(to) && from != MetaPath(role) && to != MetaPath(role)
    ensures var (t', ok) := RenameAt(t, role, from, to, now);
      && IsLive(t', role)
      && SightInTree(t', role) == if ok then Read(now) else SightInTree(t, role)
  {
    var made := MkdirAll(t, Dir(to));
    assert role < MetaPath(role) && NormalPath(Dir(to));
    MkdirKeepsWellFormed(t, Dir(to));
    if StatOf(t, from) != NotExist && CanMkdir(t, Dir(to)) && CanRename(made, from, to) {
      RenameKeepsWellFormed(made, from, to);
      CleanUpKeepsWellFormed(Rename(made, from, to), Dir(from), role);
      TouchStamps(t, CleanUp(Rename(made, from, to), Dir(from), role), role, now);
    } else {
      assert role in made.dirs;
    }
  }

  /** Operations on the files of a role that the watcher has recorded are reported by the next scan
      exactly when one of them succeeded, provided each reads a clock value other than the recorded one,
      which is the one the metadata hold. */
  lemma {:induction false} MutationsAreReported(t: Tree, role: Path, ops: seq<RoleStore.Op>, recorded: int)
    requires IsLive(t, role) && NamesFilesAlong(t, role, ops)
    requires forall op :: op in ops ==> op.now != recorded
    ensures var (t', answers) := RunTree(t, role, ops);
      && SightInTree(t', role).Read?
      && (SomeSucceeded(answers) ==> Notices(Some(recorded), SightInTree(t', role)))
      && (!SomeSucceeded(answers) ==> SightInTree(t', role) == SightInTree(t, role))
      && (SightInTree(t, role) == Read(recorded) ==>
           (Notices(Some(recorded), SightInTree(t', role)) <==> SomeSucceeded(answers)))
    decreases |ops|
  {
    assert role < MetaPath(role);
    if ops != [] {
      var op := ops[0];
      var (next, ok) := ApplyTree(t, role, op);
      assert IsLive(next, role) && SightInTree(next, role) == (if ok then Read(op.now) else SightInTree(t, role)) by {
        hide PutAt, DeleteAt, RenameAt;
        if Accepted(op.name) {
          JoinStaysUnder(role, op.name);
          var p := JoinPath(role, op.name);
          match op
          case Put(name, text, now) => PutStamps(t, role, p, text, now);
          case Delete(name, now) => DeleteStamps(t, role, p, now);
          case Move(name, newName, now) =>
            if Accepted(newName) {
              JoinStaysUnder(role, newName);
              RenameStamps(t, role, p, JoinPath(role, newName), now);
            }
        }
      }
      assert IsLive(next, role) && SightInTree(next, role) == if ok then Read(op.now) else SightInTree(t, role);
      hide ApplyTree, IsLive, NamesFilesIn, SightInTree;
      assert forall op :: op in ops[1..] ==> op in ops;
      MutationsAreReported(next, role, ops[1..], recorded);
      var answers := RunTree(next, role, ops[1..]).1;
      assert ([ok] + answers)[0] == ok && forall i :: 0 <= i < |answers| ==> ([ok] + answers)[i + 1] == answers[i];
      assert ops[0] in ops;
    }
  }

  function UpdatedAt(t: Tree, role: Path): Option<int> {
    if CanTouch(t, role) then Some(t.files[MetaPath(role)].updatedAt) else None
  }

  /** The entries of the directory of roles in a tree, in any order. */
  ghost predicate Lists(entries: seq<DirEntry>, t: Tree, base: Path) {
    && DistinctNames(entries)
    && (forall e :: e in entries ==>
          && (e.isDir <==> base + [e.name] in t.dirs)
          && e.updatedAt == UpdatedAt(t, base + [e.name]))
    && (forall d :: d in t.dirs && d != [] && Dir(d) == base ==> exists e :: e in entries && e.name == d[|base|])
  }

  lemma {:induction false} SightOfEntry(entries: seq<DirEntry>, e: DirEntry)
    requires DistinctNames(entries) && e in entries
    ensures SightIn(entries, e.name) == SightAt(e)
  {
    if entries[0] == e {
      Unnamed(entries[1..], e.name);
    } else {
      assert e in entries[1..] && entries[0].name != e.name;
      SightOfEntry(entries[1..], e);
    }
  }

  /** What a scan says and records of a role: nothing new when its time cannot be read, a report when the
      time is another one than recorded, and a report and nothing recorded when there is no directory. */
  lemma ScanTells(scan: Scan, name: string, recorded: Option<int>)
    requires scan.Listing? ==> DistinctNames(scan.entries)
    ensures
      var reported, kept := Notices(recorded, SightOf(scan, name)), Recall(recorded, SightOf(scan, name));
      match scan
      case Unreadable => !reported && kept == recorded
      case Listing(entries) =>
        && (forall t :: DirEntry(name, true, Some(t)) in entries ==>
              kept == Some(t) && (reported <==> recorded.Some? && recorded.value != t))
        && (DirEntry(name, true, None) in entries ==> !reported && kept == recorded)
        && ((forall e :: e in entries && e.name == name ==> !e.isDir) ==>
              kept == None && (reported <==> recorded.Some?))
  {
    if scan.Listing? {
      if e :| e in scan.entries && e.name == name {
        SightOfEntry(scan.entries, e);
      } else {
        Unnamed(scan.entries, name);
      }
    }
  }

  /** A scan of a tree sees of a role what the tree holds. */
  lemma ScanSeesTree(entries: seq<DirEntry>, t: Tree, base: Path, name: string)
    requires Lists(entries, t, base)
    ensures SightIn(entries, name) == SightInTree(t, base + [name])
  {
    var role := base + [name];
    assert Dir(role) == base && role[|base|] == name;
    if e :| e in entries && e.name == name {
      SightOfEntry(entries, e);
    } else {
      Unnamed(entries, name);
    }
  }

  /** So the scan that follows the operations notices the role exactly when one of them succeeded. */
  lemma NextScanNotices(
    t: Tree, base: Path, name: string, ops: seq<RoleStore.Op>, recorded: int, entries: seq<DirEntry>)
    requires var role := base + [name];
      && IsLive(t, role) && NamesFilesAlong(t, role, ops) && SightInTree(t, role) == Read(recorded)
      && Lists(entries, RunTree(t, role, ops).0, base)
    requires forall op :: op in ops ==> op.now != recorded
    ensures Notices(Some(recorded), SightOf(Listing(entries), name)) <==>
      SomeSucceeded(RunTree(t, base + [name], ops).1)
  {
    hide *;
    MutationsAreReported(t, base + [name], ops, recorded);
    ScanSeesTree(entries, RunTree(t, base + [name], ops).0, base, name);
    ListingShows(entries, name);
  }

  lemma ListingShows(entries: seq<DirEntry>, name: string)
    ensures SightOf(Listing(entries), name) == SightIn(entries, name)
  {}
}
