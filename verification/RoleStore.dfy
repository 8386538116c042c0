/** The role store: role files kept in a directory tree that its callers see as a flat map. */
module RoleStore {
  import opened Paths
  import opened FileSystem

  const METADATA_FILE := ".metadata.json"

  function MetaPath(role: Path): Path { role + [METADATA_FILE] }

  // The operations as functions on the tree ------------------------------------------

  /** cleanEmptyParents: removes empty directories upwards from `dir`, stopping at `stop`. */
  function CleanUp(t: Tree, dir: Path, stop: Path): Tree
    decreases |dir|
  {
    if dir == stop || dir == [] || dir !in t.dirs || HasEntries(t, dir) then t
    else CleanUp(Remove(t, dir), Dir(dir), stop)
  }

  predicate CanTouch(t: Tree, role: Path) {
    MetaPath(role) in t.files && t.files[MetaPath(role)].Metadata?
  }

  /** touchMetadata. */
  function Touch(t: Tree, role: Path, now: int): Tree {
    if CanTouch(t, role) then t.(files := t.files[MetaPath(role) := t.files[MetaPath(role)].(updatedAt := now)]) else t
  }

  function PutAt(t: Tree, role: Path, p: Path, text: string, now: int): (Tree, bool) {
    if StatOf(t, MetaPath(role)) == NotExist then (t, false)
    else if !CanMkdir(t, Dir(p)) then (t, false)
    else
      var made := MkdirAll(t, Dir(p));
      if !CanWrite(made, p) then (made, false)
      else
        var written := WriteFile(made, p, Text(text));
        (Touch(written, role, now), CanTouch(written, role))
  }

  function DeleteAt(t: Tree, role: Path, p: Path, now: int): (Tree, bool) {
    if StatOf(t, p) == NotExist || !CanRemove(t, p) then (t, false)
    else
      var cleaned := CleanUp(Remove(t, p), Dir(p), role);
      (Touch(cleaned, role, now), CanTouch(cleaned, role))
  }

  function RenameAt(t: Tree, role: Path, from: Path, to: Path, now: int): (Tree, bool) {
    if StatOf(t, from) == NotExist || !CanMkdir(t, Dir(to)) then (t, false)
    else
      var made := MkdirAll(t, Dir(to));
      if !CanRename(made, from, to) then (made, false)
      else
        var cleaned := CleanUp(Rename(made, from, to), Dir(from), role);
        (Touch(cleaned, role, now), CanTouch(cleaned, role))
  }

  datatype Lookup = Found(content: Content) | Missing

  function GetAt(t: Tree, p: Path): Lookup {
    if p in t.files then Found(t.files[p]) else Missing
  }

  // The flat map behind the tree ----------------------------------------------------------

  type Flat = map<Path, Content>

  /** The files of a role as its callers see them: every file below it but the metadata. */
  function FlatOf(t: Tree, role: Path): Flat {
    map f | f in t.files && role < f && f != MetaPath(role) :: t.files[f]
  }

  /** The metadata is intact and no directory below the role is left empty of files. */
  ghost predicate Coherent(t: Tree, role: Path) {
    && WellFormed(t)
    && CanTouch(t, role)
    && (forall d :: d in t.dirs && role < d ==> Covered(t, d))
  }

  ghost predicate Covered(t: Tree, d: Path) {
    exists f :: f in t.files && d < f
  }

  /** In a coherent tree the directories below the role are exactly the ancestors of its files. */
  lemma DirectoriesAreAncestors(t: Tree, role: Path, d: Path)
    requires Coherent(t, role) && role < d
    ensures d in t.dirs <==> exists f :: f in FlatOf(t, role) && d < f
  {
    if d in t.dirs {
      assert Covered(t, d);
      var f :| f in t.files && d < f;
      assert role < f;
      assert |MetaPath(role)| == |role| + 1 < |f|;
      assert f in FlatOf(t, role);
    }
  }

  /** Where no file can be put: at the role itself, below another file, or over a directory. */
  predicate Conflicts(m: Flat, role: Path, p: Path) {
    p == role || MetaPath(role) < p || exists q :: q in m && (q < p || p < q)
  }

  // Cleaning up empty parents ---------------------------------------------------------------

  /** Only directories on the way down to `dir` may be empty of files. */
  ghost predicate CoveredOffPath(t: Tree, role: Path, dir: Path) {
    && WellFormed(t)
    && CanTouch(t, role)
    && (forall d :: d in t.dirs && role < d && !(d <= dir) ==> Covered(t, d))
  }

  lemma {:induction false} CleanUpRestoresCoherence(t: Tree, role: Path, dir: Path)
    requires CoveredOffPath(t, role, dir) && role <= dir && dir in t.dirs
    ensures Coherent(CleanUp(t, dir, role), role)
    ensures CleanUp(t, dir, role).files == t.files
    ensures forall d :: d in t.dirs && d !in CleanUp(t, dir, role).dirs ==> role < d <= dir
    ensures CleanUp(t, dir, role).dirs <= t.dirs
    decreases |dir|
  {
    if dir == role {
    } else if HasEntries(t, dir) {
      EntriesCover(t, role, dir);
      forall d | d in t.dirs && role < d
        ensures Covered(t, d)
      {
        assert d <= dir ==> Covered(t, d);
      }
    } else {
      RemoveKeepsWellFormed(t, dir);
      var next := Remove(t, dir);
      forall d | d in next.dirs && role < d && !(d <= Dir(dir))
        ensures Covered(next, d)
      {
        assert !(d <= dir);
        assert Covered(t, d);
      }
      CleanUpRestoresCoherence(next, role, Dir(dir));
    }
  }

  lemma EntriesCover(t: Tree, role: Path, dir: Path)
    requires CoveredOffPath(t, role, dir) && role < dir && HasEntries(t, dir)
    ensures forall d :: d <= dir ==> Covered(t, d)
  {
    var child := EntryOf(t, dir);
    hide WellFormed, HasEntries, CanTouch;
    if child in t.files {
      CoversAbove(t, dir, child);
    } else {
      assert Covered(t, child);
      var f :| f in t.files && child < f;
      CoversAbove(t, dir, f);
    }
  }

  lemma EntryOf(t: Tree, dir: Path) returns (child: Path)
    requires HasEntries(t, dir)
    ensures (child in t.files || child in t.dirs) && dir < child
  {
    var entry :| (entry in t.files || entry in t.dirs) && entry != [] && Dir(entry) == dir;
    assert dir == Dir(entry) < entry;
    child := entry;
  }

  lemma CoversAbove(t: Tree, dir: Path, f: Path)
    requires f in t.files && dir < f
    ensures forall d :: d <= dir ==> Covered(t, d)
  {}

  // Each operation refines the flat map -------------------------------------------------------

  /** Nothing at or above the role, and nothing beside it, is different. */
  ghost predicate UntouchedOutside(t: Tree, t': Tree, role: Path) {
    && (forall d :: !(role < d) ==> (d in t.dirs <==> d in t'.dirs))
    && (forall f :: !(role < f) ==> (f in t.files <==> f in t'.files))
    && (forall f :: !(role < f) && f in t.files ==> t'.files[f] == t.files[f])
  }

  /** The metadata keeps description and creation time and carries the new stamp. */
  ghost predicate Stamped(t: Tree, t': Tree, role: Path, now: int)
    requires CanTouch(t, role)
  {
    MetaPath(role) in t'.files && t'.files[MetaPath(role)] == t.files[MetaPath(role)].(updatedAt := now)
  }

  lemma UntouchedTransitive(t: Tree, t': Tree, t'': Tree, role: Path)
    requires UntouchedOutside(t, t', role) && UntouchedOutside(t', t'', role)
    ensures UntouchedOutside(t, t'', role)
  {}

  lemma RoleIsDirectory(t: Tree, role: Path)
    requires WellFormed(t) && CanTouch(t, role)
    ensures role in t.dirs && forall q :: q <= role ==> q in t.dirs && q !in t.files
  {
    assert role < MetaPath(role);
  }

  lemma CoveredBy(t: Tree, d: Path, f: Path)
    requires f in t.files && d < f
    ensures Covered(t, d)
  {}

  lemma FlatOfWrite(t: Tree, t': Tree, role: Path, p: Path, c: Content)
    requires role < p && p != MetaPath(role) && t'.files == t.files[p := c]
    ensures FlatOf(t', role) == FlatOf(t, role)[p := c]
  {}

  lemma FlatOfRemove(t: Tree, t': Tree, role: Path, p: Path)
    requires t'.files == t.files - {p}
    ensures FlatOf(t', role) == FlatOf(t, role) - {p}
  {}

  /** With one file gone, and new directories only on the way to `p`, all directories stay covered
      except those on the way to the file that went. */
  lemma StaysCovered(t: Tree, t': Tree, role: Path, p: Path, gone: Path)
    requires forall d :: d in t.dirs && role < d ==> Covered(t, d)
    requires t.files.Keys - {gone} <= t'.files.Keys && p in t'.files
    requires forall d :: d in t'.dirs && d !in t.dirs ==> d < p
    ensures forall d :: d in t'.dirs && role < d && !(d < gone) ==> Covered(t', d)
  {
    forall d | d in t'.dirs && role < d && !(d < gone)
      ensures Covered(t', d)
    {
      var f := p;
      if d in t.dirs {
        assert Covered(t, d);
        f :| f in t.files && d < f;
      }
      CoveredBy(t', d, f);
    }
  }

  lemma RemoveStaysBelow(t: Tree, role: Path, p: Path)
    requires role < p
    ensures UntouchedOutside(t, Remove(t, p), role)
  {}

  lemma FilesOnTheWay(t: Tree, role: Path, p: Path)
    requires Coherent(t, role) && role < p
    ensures BelowAFile(t, p) <==> MetaPath(role) < p || exists q :: q in FlatOf(t, role) && q < p
    ensures CanMkdir(t, Dir(p)) <==> !BelowAFile(t, p)
  {
    RoleIsDirectory(t, role);
    if q :| q in t.files && q < p {
      assert !(q <= role);
      assert q == Dir(p) || q < Dir(p);
      assert q != MetaPath(role) ==> q in FlatOf(t, role);
    }
  }

  /** Making directories that exist already does nothing. */
  lemma MkdirOfExisting(t: Tree, d: Path)
    requires WellFormed(t) && d in t.dirs
    ensures MkdirAll(t, d) == t && CanMkdir(t, d)
  {
    assert t.dirs + Prefixes(d) == t.dirs;
  }

  lemma MkdirStaysBelow(t: Tree, role: Path, d: Path)
    requires WellFormed(t) && CanTouch(t, role) && role <= d && CanMkdir(t, d)
    ensures UntouchedOutside(t, MkdirAll(t, d), role)
  {
    RoleIsDirectory(t, role);
    forall q | q <= d && !(role < q)
      ensures q in t.dirs
    {
      assert q <= role;
    }
  }

  lemma TouchIsInvisible(t: Tree, role: Path, now: int)
    requires Coherent(t, role)
    ensures Coherent(Touch(t, role, now), role)
    ensures FlatOf(Touch(t, role, now), role) == FlatOf(t, role)
    ensures Stamped(t, Touch(t, role, now), role, now)
  {
    var t' := Touch(t, role, now);
    assert t'.files.Keys == t.files.Keys;
    forall d | d in t'.dirs && role < d
      ensures Covered(t', d)
    {
      assert Covered(t, d);
      var f :| f in t.files && d < f;
      CoveredBy(t', d, f);
    }
  }

  /** What holds of an operation's tree before the metadata is stamped. */
  ghost predicate Unstamped(t: Tree, t': Tree, role: Path, m: Flat)
    requires CanTouch(t, role)
  {
    && Coherent(t', role)
    && FlatOf(t', role) == m
    && t'.files[MetaPath(role)] == t.files[MetaPath(role)]
    && UntouchedOutside(t, t', role)
  }

  ghost predicate Done(t: Tree, t': Tree, role: Path, m: Flat, now: int)
    requires CanTouch(t, role)
  {
    && Coherent(t', role)
    && FlatOf(t', role) == m
    && Stamped(t, t', role, now)
    && UntouchedOutside(t, t', role)
  }

  lemma StampingFinishes(t: Tree, t': Tree, role: Path, m: Flat, now: int)
    requires CanTouch(t, role) && Unstamped(t, t', role, m)
    ensures Done(t, Touch(t', role, now), role, m, now)
  {
    TouchIsInvisible(t', role, now);
    assert UntouchedOutside(t', Touch(t', role, now), role);
  }

  // PutFile ---------------------------------------------------------------------------------

  lemma PutRefines(t: Tree, role: Path, p: Path, text: string, now: int)
    requires Coherent(t, role) && role <= p && NormalPath(p) && p != MetaPath(role)
    ensures var m := FlatOf(t, role); var (t', ok) := PutAt(t, role, p, text, now);
      if Conflicts(m, role, p) then !ok && t' == t
      else ok && Done(t, t', role, m[p := Text(text)], now)
  {
    RoleIsDirectory(t, role);
    if role < p {
      FilesOnTheWay(t, role, p);
      DirectoriesAreAncestors(t, role, p);
      if p in t.dirs {
        MkdirOfExisting(t, Dir(p));
      } else if CanMkdir(t, Dir(p)) {
        PutSucceeds(t, role, p, text);
        StampingFinishes(t, WriteFile(MkdirAll(t, Dir(p)), p, Text(text)), role, FlatOf(t, role)[p := Text(text)], now);
      }
    } else {
      MkdirOfExisting(t, Dir(p));
    }
  }

  lemma PutSucceeds(t: Tree, role: Path, p: Path, text: string)
    requires Coherent(t, role) && role < p && NormalPath(p) && p != MetaPath(role)
    requires CanMkdir(t, Dir(p)) && p !in t.dirs
    ensures CanWrite(MkdirAll(t, Dir(p)), p)
    ensures Unstamped(t, WriteFile(MkdirAll(t, Dir(p)), p, Text(text)), role, FlatOf(t, role)[p := Text(text)])
  {
    var made := MkdirAll(t, Dir(p));
    var written := WriteFile(made, p, Text(text));
    assert CanWrite(made, p);
    FlatOfWrite(t, written, role, p, Text(text));
    assert Coherent(written, role) && UntouchedOutside(t, written, role) by {
      MkdirKeepsWellFormed(t, Dir(p));
      MkdirStaysBelow(t, role, Dir(p));
      WriteKeepsWellFormed(made, p, Text(text));
      hide WellFormed, Covered, UntouchedOutside, FlatOf;
      UntouchedTransitive(t, made, written, role);
      StaysCovered(t, written, role, p, role);
    }
  }

  // DeleteFile ------------------------------------------------------------------------------

  lemma CleaningFinishes(t: Tree, t': Tree, role: Path, dir: Path, m: Flat)
    requires CanTouch(t, role) && CoveredOffPath(t', role, dir) && role <= dir && dir in t'.dirs
    requires FlatOf(t', role) == m && UntouchedOutside(t, t', role)
    requires t'.files[MetaPath(role)] == t.files[MetaPath(role)]
    ensures Unstamped(t, CleanUp(t', dir, role), role, m)
  {
    CleanUpRestoresCoherence(t', role, dir);
    hide CleanUp;
    assert UntouchedOutside(t', CleanUp(t', dir, role), role);
    UntouchedTransitive(t, t', CleanUp(t', dir, role), role);
  }

  lemma DeleteRefines(t: Tree, role: Path, p: Path, now: int)
    requires Coherent(t, role) && role <= p && p != MetaPath(role)
    ensures var m := FlatOf(t, role); var (t', ok) := DeleteAt(t, role, p, now);
      if p !in m then !ok && t' == t
      else ok && Done(t, t', role, m - {p}, now)
  {
    RoleIsDirectory(t, role);
    if p in t.files {
      RemovalLeavesPath(t, role, p);
      CleaningFinishes(t, Remove(t, p), role, Dir(p), FlatOf(t, role) - {p});
      StampingFinishes(t, CleanUp(Remove(t, p), Dir(p), role), role, FlatOf(t, role) - {p}, now);
    } else if p in t.dirs {
      DirectoryIsNotEmpty(t, role, p);
    }
  }

  lemma RemovalLeavesPath(t: Tree, role: Path, p: Path)
    requires Coherent(t, role) && role < p && p in t.files && p != MetaPath(role)
    ensures CoveredOffPath(Remove(t, p), role, Dir(p))
    ensures role <= Dir(p) && Dir(p) in Remove(t, p).dirs
    ensures FlatOf(Remove(t, p), role) == FlatOf(t, role) - {p}
    ensures UntouchedOutside(t, Remove(t, p), role)
  {
    RemoveKeepsWellFormed(t, p);
    var next := Remove(t, p);
    RemoveStaysBelow(t, role, p);
    assert Dir(p) < p && Dir(p) in t.dirs;
    hide WellFormed, Covered, UntouchedOutside;
    StaysCovered(t, next, role, MetaPath(role), p);
    FlatOfRemove(t, next, role, p);
    hide FlatOf;
  }

  lemma DirectoryIsNotEmpty(t: Tree, role: Path, d: Path)
    requires Coherent(t, role) && role <= d && d in t.dirs
    ensures HasEntries(t, d)
  {
    var f := MetaPath(role);
    if role < d {
      assert Covered(t, d);
      f :| f in t.files && d < f;
    }
    assert d < f && f in t.files;
    var child := f[..|d| + 1];
    assert child != [] && Dir(child) == d;
    assert child == f || child < f;
  }

  // RenameFile ------------------------------------------------------------------------------

  /** What a file rename does to the flat map. */
  function Renamed(m: Flat, from: Path, to: Path): Flat
    requires from in m
  {
    (m - {from})[to := m[from]]
  }

  /** The old name leads through a file, and the new name's directory is missing but can be made. */
  predicate Stray(m: Flat, role: Path, from: Path, to: Path) {
    && (MetaPath(role) < from || exists q :: q in m && q < from)
    && role < to
    && Dir(to) != role
    && !(MetaPath(role) < to)
    && !(exists q :: q in m && (q < to || Dir(to) < q))
  }

  /** A rename that is not stray either moves the file or changes nothing at all. */
  lemma RenameRefines(t: Tree, role: Path, from: Path, to: Path, now: int)
    requires Coherent(t, role) && role <= from && role <= to && NormalPath(to)
    requires from !in t.dirs && from != MetaPath(role) && to != MetaPath(role)
    ensures var m := FlatOf(t, role); var (t', ok) := RenameAt(t, role, from, to, now);
      if from in m && !Conflicts(m, role, to) then ok && Done(t, t', role, Renamed(m, from, to), now)
      else !ok && (t' != t <==> Stray(m, role, from, to))
  {
    RoleIsDirectory(t, role);
    if from in t.files {
      RenameOfFile(t, role, from, to, now);
    } else {
      RenameOfNothing(t, role, from, to, now);
    }
  }

  lemma RenameOfFile(t: Tree, role: Path, from: Path, to: Path, now: int)
    requires Coherent(t, role) && role < from && role <= to && NormalPath(to)
    requires from in t.files && from != MetaPath(role) && to != MetaPath(role)
    ensures var m := FlatOf(t, role); var (t', ok) := RenameAt(t, role, from, to, now);
      if Conflicts(m, role, to) then !ok && t' == t
      else ok && Done(t, t', role, Renamed(m, from, to), now)
  {
    RoleIsDirectory(t, role);
    if to == role {
      MkdirOfExisting(t, Dir(to));
    } else {
      FilesOnTheWay(t, role, to);
      DirectoriesAreAncestors(t, role, to);
      if to in t.dirs {
        MkdirOfExisting(t, Dir(to));
      } else if CanMkdir(t, Dir(to)) {
        RenameMoves(t, role, from, to, now);
      }
    }
  }

  lemma RenameMoves(t: Tree, role: Path, from: Path, to: Path, now: int)
    requires Coherent(t, role) && role < from && role < to && NormalPath(to)
    requires from in t.files && from != MetaPath(role) && to != MetaPath(role)
    requires CanMkdir(t, Dir(to)) && to !in t.dirs
    ensures var (t', ok) := RenameAt(t, role, from, to, now);
      ok && Done(t, t', role, Renamed(FlatOf(t, role), from, to), now)
  {
    assert from in FlatOf(t, role) && CanTouch(t, role);
    hide *;
    var m := Renamed(FlatOf(t, role), from, to);
    RenameSucceeds(t, role, from, to);
    RenameGoes(t, role, from, to, now);
    var moved := Rename(MkdirAll(t, Dir(to)), from, to);
    CleaningFinishes(t, moved, role, Dir(from), m);
    StaysTouchable(t, CleanUp(moved, Dir(from), role), role, m);
    StampingFinishes(t, CleanUp(moved, Dir(from), role), role, m, now);
  }

  lemma RenameGoes(t: Tree, role: Path, from: Path, to: Path, now: int)
    requires from in t.files && CanMkdir(t, Dir(to)) && CanRename(MkdirAll(t, Dir(to)), from, to)
    ensures var cleaned := CleanUp(Rename(MkdirAll(t, Dir(to)), from, to), Dir(from), role);
      RenameAt(t, role, from, to, now) == (Touch(cleaned, role, now), CanTouch(cleaned, role))
  {
    hide CanMkdir, CanRename, MkdirAll, Rename, CleanUp, Touch, CanTouch;
  }

  lemma StaysTouchable(t: Tree, t': Tree, role: Path, m: Flat)
    requires CanTouch(t, role) && Unstamped(t, t', role, m)
    ensures CanTouch(t', role)
  {
    hide FlatOf, UntouchedOutside;
  }

  lemma RenameSucceeds(t: Tree, role: Path, from: Path, to: Path)
    requires Coherent(t, role) && role < from && role < to && NormalPath(to)
    requires from in t.files && from != MetaPath(role) && to != MetaPath(role)
    requires CanMkdir(t, Dir(to)) && to !in t.dirs
    ensures var moved := Rename(MkdirAll(t, Dir(to)), from, to);
      && CanRename(MkdirAll(t, Dir(to)), from, to)
      && CoveredOffPath(moved, role, Dir(from))
      && role <= Dir(from) && Dir(from) in moved.dirs
      && FlatOf(moved, role) == Renamed(FlatOf(t, role), from, to)
      && UntouchedOutside(t, moved, role)
      && MetaPath(role) in t.files && moved.files[MetaPath(role)] == t.files[MetaPath(role)]
  {
    assert MetaPath(role) in t.files;
    hide *;
    var moved := Rename(MkdirAll(t, Dir(to)), from, to);
    RenameShape(t, role, from, to);
    RenameCovers(t, moved, role, from, to);
    RenameFlat(t, moved, role, from, to);
  }

  lemma RenameFlat(t: Tree, moved: Tree, role: Path, from: Path, to: Path)
    requires role < from && role < to && from != MetaPath(role) && to != MetaPath(role) && from in t.files
    requires moved.files == (t.files - {from})[to := t.files[from]]
    ensures FlatOf(moved, role) == Renamed(FlatOf(t, role), from, to)
  {
    var removed := Tree(t.dirs, t.files - {from});
    FlatOfRemove(t, removed, role, from);
    FlatOfWrite(removed, moved, role, to, t.files[from]);
  }

  lemma RenameCovers(t: Tree, moved: Tree, role: Path, from: Path, to: Path)
    requires Coherent(t, role) && role < from && role < to && from in t.files && from != MetaPath(role)
    requires moved.dirs == t.dirs + Prefixes(Dir(to)) && WellFormed(moved) && to != MetaPath(role)
    requires moved.files == (t.files - {from})[to := t.files[from]]
    ensures CoveredOffPath(moved, role, Dir(from))
    ensures role <= Dir(from) && Dir(from) in moved.dirs
  {
    FileHasDirectory(t, role, from);
    assert Dir(from) in moved.dirs;
    assert CanTouch(moved, role);
    hide Covered, WellFormed, Prefixes, CanTouch, Dir, MetaPath;
    assert t.files.Keys - {from} <= moved.files.Keys;
    StaysCovered(t, moved, role, to, from);
  }

  lemma FileHasDirectory(t: Tree, role: Path, f: Path)
    requires WellFormed(t) && f in t.files && role < f
    ensures role <= Dir(f) < f && Dir(f) in t.dirs
  {
    assert Dir(f) < f;
  }

  lemma RenameShape(t: Tree, role: Path, from: Path, to: Path)
    requires Coherent(t, role) && role < from && role < to && NormalPath(to)
    requires from in t.files && CanMkdir(t, Dir(to)) && to !in t.dirs
    ensures var made := MkdirAll(t, Dir(to)); var moved := Rename(made, from, to);
      && CanRename(made, from, to)
      && WellFormed(moved)
      && UntouchedOutside(t, moved, role)
      && moved == Tree(t.dirs + Prefixes(Dir(to)), (t.files - {from})[to := t.files[from]])
  {
    var made := MkdirAll(t, Dir(to));
    MkdirKeepsWellFormed(t, Dir(to));
    MkdirStaysBelow(t, role, Dir(to));
    RenameKeepsWellFormed(made, from, to);
    hide WellFormed, UntouchedOutside;
    UntouchedTransitive(t, made, Rename(made, from, to), role);
  }

  lemma RenameOfNothing(t: Tree, role: Path, from: Path, to: Path, now: int)
    requires Coherent(t, role) && role < from && role <= to && NormalPath(to)
    requires from !in t.dirs && from !in t.files && to != MetaPath(role)
    ensures var (t', ok) := RenameAt(t, role, from, to, now);
      !ok && (t' != t <==> Stray(FlatOf(t, role), role, from, to))
  {
    FilesOnTheWay(t, role, from);
    MakesDirectories(t, role, to);
    hide FlatOf, MkdirAll, CanMkdir, Prefixes, WellFormed;
  }

  /** When the name `to` calls for directories that are not there yet. */
  lemma MakesDirectories(t: Tree, role: Path, to: Path)
    requires Coherent(t, role) && role <= to && to != MetaPath(role)
    ensures CanMkdir(t, Dir(to)) && MkdirAll(t, Dir(to)) != t <==>
      (role < to && Dir(to) != role && !(MetaPath(role) < to) &&
       !(exists q :: q in FlatOf(t, role) && (q < to || Dir(to) < q)))
  {
    RoleIsDirectory(t, role);
    if to == role {
      MkdirOfExisting(t, Dir(to));
    } else {
      FilesOnTheWay(t, role, to);
      if Dir(to) == role {
        MkdirOfExisting(t, role);
      } else {
        DirectoriesAreAncestors(t, role, Dir(to));
        if Dir(to) in t.dirs {
          MkdirOfExisting(t, Dir(to));
        } else {
          assert Dir(to) in Prefixes(Dir(to));
        }
      }
    }
  }

  /** A stray rename is answered with an error and leaves an empty directory behind. */
  lemma StrayRenameBreaksCoherence(t: Tree, role: Path, from: Path, to: Path, now: int)
    requires Coherent(t, role) && role < from && NormalPath(to) && to != MetaPath(role)
    requires from !in t.dirs && from !in t.files
    requires Stray(FlatOf(t, role), role, from, to)
    ensures var (t', ok) := RenameAt(t, role, from, to, now);
      !ok && FlatOf(t', role) == FlatOf(t, role) && !Coherent(t', role)
  {
    RenameOfNothing(t, role, from, to, now);
    var (t', _) := RenameAt(t, role, from, to, now);
    assert Dir(to) in Prefixes(Dir(to));
    assert t'.files == t.files;
    assert role < Dir(to);
    assert forall f :: f in t.files && Dir(to) < f ==> f in FlatOf(t, role);
  }

  /** And callers see it: where a file could have been put before, it cannot any more, and deleting what
      never was a file succeeds. */
  lemma StrayRenameIsSeen(t: Tree, role: Path, from: Path, to: Path, text: string, now: int, later: int)
    requires Coherent(t, role) && role < from && NormalPath(to) && to != MetaPath(role)
    requires from !in t.dirs && from !in t.files
    requires Stray(FlatOf(t, role), role, from, to)
    ensures var (t', d) := (RenameAt(t, role, from, to, now).0, Dir(to));
      && PutAt(t, role, d, text, later).1 && !PutAt(t', role, d, text, later).1
      && !DeleteAt(t, role, d, later).1 && DeleteAt(t', role, d, later).1
  {
    var t', d, m := RenameAt(t, role, from, to, now).0, Dir(to), FlatOf(t, role);
    StrayMakesDirectory(t, role, from, to, now);
    hide Stray, RenameAt, Conflicts, CleanUp, Coherent, FlatOf;
    PutRefines(t, role, d, text, later);
    DeleteRefines(t, role, d, later);
    RemoveKeepsWellFormed(t', d);
    CleanUpKeepsWellFormed(Remove(t', d), Dir(d), role);
  }

  lemma StrayMakesDirectory(t: Tree, role: Path, from: Path, to: Path, now: int)
    requires Coherent(t, role) && role < from && NormalPath(to) && to != MetaPath(role)
    requires from !in t.dirs && from !in t.files
    requires Stray(FlatOf(t, role), role, from, to)
    ensures var (t', d) := (RenameAt(t, role, from, to, now).0, Dir(to));
      && t'.files == t.files && WellFormed(t')
      && role < d && NormalPath(d) && d in t'.dirs && !HasEntries(t', d)
      && d !in FlatOf(t, role) && !Conflicts(FlatOf(t, role), role, d) && d != MetaPath(role)
      && CanTouch(t', role)
  {
    var t', d, m := RenameAt(t, role, from, to, now).0, Dir(to), FlatOf(t, role);
    RenameOfNothing(t, role, from, to, now);
    RoleIsDirectory(t, role);
    assert t'.files == t.files && t'.dirs == t.dirs + Prefixes(d);
    assert role < d && d < to;
    hide RenameAt;
    DirectoriesAreAncestors(t, role, d);
    StrayDirectoryIsEmpty(t, t', role, to);
    MkdirKeepsWellFormed(t, d);
  }

  lemma StrayDirectoryIsEmpty(t: Tree, t': Tree, role: Path, to: Path)
    requires Coherent(t, role) && to != [] && role < Dir(to) && Dir(to) !in t.dirs
    requires t'.files == t.files && t'.dirs == t.dirs + Prefixes(Dir(to))
    ensures !HasEntries(t', Dir(to)) && Dir(to) in t'.dirs
  {
    assert Dir(to) in Prefixes(Dir(to));
  }

  lemma {:induction false} CleanUpKeepsWellFormed(t: Tree, dir: Path, role: Path)
    requires WellFormed(t)
    ensures WellFormed(CleanUp(t, dir, role)) && CleanUp(t, dir, role).files == t.files
    decreases |dir|
  {
    if dir != role && dir != [] && dir in t.dirs && !HasEntries(t, dir) {
      RemoveKeepsWellFormed(t, dir);
      CleanUpKeepsWellFormed(Remove(t, dir), Dir(dir), role);
    }
  }

  // Whatever the state of the role -------------------------------------------------------------

  /** The files after an operation that left `files`: its answer tells whether the metadata could be read, and
      if so they carry the new stamp. */
  ghost predicate Finishes(files: map<Path, Content>, meta: Path, now: int, t': Tree, ok: bool) {
    && (ok <==> meta in files && files[meta].Metadata?)
    && t'.files == if ok then files[meta := files[meta].(updatedAt := now)] else files
  }

  ghost predicate FileAtOrAbove(t: Tree, d: Path) {
    exists f :: f in t.files && f <= d
  }

  lemma TouchFinishes(t: Tree, role: Path, now: int)
    ensures Finishes(t.files, MetaPath(role), now, Touch(t, role, now), CanTouch(t, role))
    ensures Touch(t, role, now).dirs == t.dirs
  {}

  /** A put on any tree: without the role's metadata file it answers false and changes nothing; neither does
      it under a file or in place of a directory; otherwise the file is written with the directories on its
      way, even if the answer is false because the metadata cannot be read. */
  lemma PutOutcome(t: Tree, role: Path, p: Path, text: string, now: int)
    requires WellFormed(t) && NormalPath(p) && p != []
    ensures var (t', ok) := PutAt(t, role, p, text, now);
      if StatOf(t, MetaPath(role)) == NotExist || FileAtOrAbove(t, Dir(p)) || p in t.dirs then
        t' == t && !ok
      else
        && (forall d :: d in t'.dirs <==> d in t.dirs || d < p)
        && Finishes(t.files[p := Text(text)], MetaPath(role), now, t', ok)
  {
    var d := Dir(p);
    assert FileAtOrAbove(t, d) <==> !CanMkdir(t, d) by {
      assert forall f :: f in t.files && f <= d ==> f == d || f < d;
    }
    assert forall q :: q in Prefixes(d) <==> q < p;
    if StatOf(t, MetaPath(role)) != NotExist && CanMkdir(t, d) {
      if p in t.dirs {
        assert d in t.dirs;
        MkdirOfExisting(t, d);
      } else {
        var written := WriteFile(MkdirAll(t, d), p, Text(text));
        assert d in MkdirAll(t, d).dirs && p !in MkdirAll(t, d).dirs;
        TouchFinishes(written, role, now);
      }
    }
  }

  /** A delete on any tree: a file goes, and of the directories none but empty ones on its way to the role;
      an empty directory goes likewise; anything else stays as it is. Without readable metadata the answer is
      false although the file has gone. */
  lemma DeleteOutcome(t: Tree, role: Path, p: Path, now: int)
    requires WellFormed(t)
    ensures var (t', ok) := DeleteAt(t, role, p, now);
      if p in t.files || (p in t.dirs && p != [] && !HasEntries(t, p)) then
        && Finishes(t.files - {p}, MetaPath(role), now, t', ok)
        && t'.dirs <= t.dirs && (p in t.dirs ==> p !in t'.dirs) && WellFormed(t')
        && (forall d :: d in t.dirs && d !in t'.dirs ==> d == p || (d <= Dir(p) && d != role))
      else
        t' == t && !ok
  {
    if StatOf(t, p) != NotExist && CanRemove(t, p) {
      RemoveKeepsWellFormed(t, p);
      var removed := Remove(t, p);
      assert removed.files == t.files - {p};
      CleanUpKeepsWellFormed(removed, Dir(p), role);
      CleanUpOnlyUpwards(removed, Dir(p), role);
      var cleaned := CleanUp(removed, Dir(p), role);
      TouchFinishes(cleaned, role, now);
      TouchKeepsWellFormed(cleaned, role, now);
    }
  }

  lemma TouchKeepsWellFormed(t: Tree, role: Path, now: int)
    requires WellFormed(t)
    ensures WellFormed(Touch(t, role, now))
  {
    assert Touch(t, role, now).files.Keys == t.files.Keys;
  }

  lemma {:induction false} CleanUpOnlyUpwards(t: Tree, dir: Path, stop: Path)
    ensures CleanUp(t, dir, stop).dirs <= t.dirs
    ensures forall d :: d in t.dirs && d !in CleanUp(t, dir, stop).dirs ==> d <= dir && d != stop
    decreases |dir|
  {
    if dir != stop && dir != [] && dir in t.dirs && !HasEntries(t, dir) {
      CleanUpOnlyUpwards(Remove(t, dir), Dir(dir), stop);
    }
  }

  /** A rename of a file on any tree: it moves over whatever file had the new name, unless a file lies on
      the way or a directory has the new name. Without readable metadata the answer is false although the
      file has moved. */
  lemma RenameOutcome(t: Tree, role: Path, from: Path, to: Path, now: int)
    requires WellFormed(t) && NormalPath(to) && to != [] && from in t.files
    ensures var (t', ok) := RenameAt(t, role, from, to, now);
      if FileAtOrAbove(t, Dir(to)) || to in t.dirs then
        t' == t && !ok
      else
        && Finishes((t.files - {from})[to := t.files[from]], MetaPath(role), now, t', ok)
        && (forall d :: d in t'.dirs ==> d in t.dirs || d < to)
        && WellFormed(t')
  {
    var d := Dir(to);
    assert FileAtOrAbove(t, d) <==> !CanMkdir(t, d) by {
      assert forall f :: f in t.files && f <= d ==> f == d || f < d;
    }
    assert forall q :: q in Prefixes(d) <==> q < to;
    if CanMkdir(t, d) {
      if to in t.dirs {
        assert d in t.dirs;
        MkdirOfExisting(t, d);
      } else {
        var made := MkdirAll(t, d);
        assert d in made.dirs && to !in made.dirs;
        MovedFile(t, made, role, from, to, now);
      }
    }
  }

  lemma MovedFile(t: Tree, made: Tree, role: Path, from: Path, to: Path, now: int)
    requires WellFormed(t) && NormalPath(to) && to != [] && from in t.files
    requires CanMkdir(t, Dir(to)) && made == MkdirAll(t, Dir(to)) && CanRename(made, from, to)
    ensures var (t', ok) := RenameAt(t, role, from, to, now);
      && Finishes((t.files - {from})[to := t.files[from]], MetaPath(role), now, t', ok)
      && (forall d :: d in t'.dirs ==> d in t.dirs || d <= Dir(to))
      && WellFormed(t')
  {
    MkdirKeepsWellFormed(t, Dir(to));
    RenameKeepsWellFormed(made, from, to);
    var moved := Rename(made, from, to);
    CleanUpKeepsWellFormed(moved, Dir(from), role);
    CleanUpOnlyUpwards(moved, Dir(from), role);
    var cleaned := CleanUp(moved, Dir(from), role);
    assert RenameAt(t, role, from, to, now) == (Touch(cleaned, role, now), CanTouch(cleaned, role));
    TouchFinishes(cleaned, role, now);
    TouchKeepsWellFormed(cleaned, role, now);
  }

  // Runs ------------------------------------------------------------------------------------

  datatype Op =
    | Put(name: string, text: string, now: int)
    | Delete(name: string, now: int)
    | Move(name: string, newName: string, now: int)

  function ApplyTree(t: Tree, role: Path, op: Op): (Tree, bool) {
    if !Accepted(op.name) then (t, false)
    else match op
      case Put(name, text, now) => PutAt(t, role, JoinPath(role, name), text, now)
      case Delete(name, now) => DeleteAt(t, role, JoinPath(role, name), now)
      case Move(name, newName, now) =>
        if Accepted(newName) then RenameAt(t, role, JoinPath(role, name), JoinPath(role, newName), now) else (t, false)
  }

  /** The same operations on the flat map. */
  function ApplyFlat(m: Flat, role: Path, op: Op): (Flat, bool) {
    if !Accepted(op.name) then (m, false)
    else
      var p := JoinPath(role, op.name);
      match op
      case Put(_, text, _) => if Conflicts(m, role, p) then (m, false) else (m[p := Text(text)], true)
      case Delete(_, _) => if p in m then (m - {p}, true) else (m, false)
      case Move(_, newName, _) =>
        var q := JoinPath(role, newName);
        if Accepted(newName) && p in m && !Conflicts(m, role, q) then (Renamed(m, p, q), true) else (m, false)
  }

  predicate IsDirectoryName(m: Flat, role: Path, p: Path) {
    p == role || exists q :: q in m && p < q
  }

  /** No accepted name means the metadata, and no rename is of a directory. */
  predicate NamesFiles(m: Flat, role: Path, op: Op) {
    var p := JoinPath(role, op.name);
    Accepted(op.name) ==>
      && p != MetaPath(role)
      && (op.Move? && Accepted(op.newName) ==>
            JoinPath(role, op.newName) != MetaPath(role) && !IsDirectoryName(m, role, p))
  }

  predicate IsStray(m: Flat, role: Path, op: Op) {
    op.Move? && Accepted(op.name) && Accepted(op.newName) &&
      Stray(m, role, JoinPath(role, op.name), JoinPath(role, op.newName))
  }

  predicate Allowed(m: Flat, role: Path, op: Op) {
    NamesFiles(m, role, op) && !IsStray(m, role, op)
  }

  function RunTree(t: Tree, role: Path, ops: seq<Op>): (Tree, seq<bool>)
    decreases |ops|
  {
    if ops == [] then (t, [])
    else
      var (next, ok) := ApplyTree(t, role, ops[0]);
      var (last, answers) := RunTree(next, role, ops[1..]);
      (last, [ok] + answers)
  }

  function RunFlat(m: Flat, role: Path, ops: seq<Op>): (Flat, seq<bool>)
    decreases |ops|
  {
    if ops == [] then (m, [])
    else
      var (next, ok) := ApplyFlat(m, role, ops[0]);
      var (last, answers) := RunFlat(next, role, ops[1..]);
      (last, [ok] + answers)
  }

  predicate AllowedRun(m: Flat, role: Path, ops: seq<Op>)
    decreases |ops|
  {
    ops == [] || (Allowed(m, role, ops[0]) && AllowedRun(ApplyFlat(m, role, ops[0]).0, role, ops[1..]))
  }

  /** The operation on the tree does what it does on the flat map, and keeps the tree in shape. */
  ghost predicate Refines(t: Tree, role: Path, op: Op)
    requires CanTouch(t, role)
  {
    var (t', ok) := ApplyTree(t, role, op);
    var (m', ok') := ApplyFlat(FlatOf(t, role), role, op);
    && ok == ok'
    && Coherent(t', role)
    && FlatOf(t', role) == m'
    && UntouchedOutside(t, t', role)
    && (!ok ==> t' == t)
    && (ok ==> Stamped(t, t', role, op.now))
  }

  /** Exactly which operations on files do so: all but stray renames. */
  lemma StepRefinesIff(t: Tree, role: Path, op: Op)
    requires Coherent(t, role) && NormalPath(role) && NamesFiles(FlatOf(t, role), role, op)
    ensures Refines(t, role, op) <==> !IsStray(FlatOf(t, role), role, op)
  {
    if IsStray(FlatOf(t, role), role, op) {
      StrayDoesNotRefine(t, role, op);
    } else if op.Move? {
      MoveIsRefined(t, role, op);
    } else if Accepted(op.name) {
      var p := JoinPath(role, op.name);
      JoinStaysUnder(role, op.name);
      assert WellFormed(t) && CanTouch(t, role);
      hide Coherent, FlatOf, PutAt, DeleteAt, RenameAt, UntouchedOutside, WellFormed;
      match op
      case Put(name, text, now) => PutRefines(t, role, p, text, now);
      case Delete(name, now) => DeleteRefines(t, role, p, now);
    } else {
      hide FlatOf, PutAt, DeleteAt, RenameAt;
    }
  }

  lemma MoveIsRefined(t: Tree, role: Path, op: Op)
    requires Coherent(t, role) && NormalPath(role) && op.Move? && Allowed(FlatOf(t, role), role, op)
    ensures CanTouch(t, role) && Refines(t, role, op)
  {
    assert WellFormed(t) && CanTouch(t, role);
    hide Coherent, FlatOf, RenameAt, UntouchedOutside, WellFormed;
    if Accepted(op.name) && Accepted(op.newName) {
      var p := JoinPath(role, op.name);
      JoinStaysUnder(role, op.name);
      JoinStaysUnder(role, op.newName);
      if role < p {
        DirectoriesAreAncestors(t, role, p);
      }
      RenameRefines(t, role, p, JoinPath(role, op.newName), op.now);
    }
  }

  lemma StrayDoesNotRefine(t: Tree, role: Path, op: Op)
    requires Coherent(t, role) && NormalPath(role) && IsStray(FlatOf(t, role), role, op)
    ensures CanTouch(t, role) && !Refines(t, role, op)
  {
    var p, q := JoinPath(role, op.name), JoinPath(role, op.newName);
    JoinStaysUnder(role, op.name);
    JoinStaysUnder(role, op.newName);
    StrayNamesNothing(t, role, p, q);
    StrayRenameBreaksCoherence(t, role, p, q, op.now);
    assert CanTouch(t, role);
    hide Coherent, RenameAt, FlatOf, CanTouch, Accepted, JoinPath, UntouchedOutside, WellFormed;
  }

  lemma StrayNamesNothing(t: Tree, role: Path, from: Path, to: Path)
    requires Coherent(t, role) && role <= from && Stray(FlatOf(t, role), role, from, to)
    ensures role < from && from !in t.dirs && from !in t.files
  {
    RoleIsDirectory(t, role);
    if q :| q in FlatOf(t, role) && q < from {
      assert q in t.files;
    }
    assert MetaPath(role) in t.files;
  }

  predicate NamesFilesThroughout(m: Flat, role: Path, ops: seq<Op>)
    decreases |ops|
  {
    ops == [] || (NamesFiles(m, role, ops[0]) && NamesFilesThroughout(ApplyFlat(m, role, ops[0]).0, role, ops[1..]))
  }

  ghost predicate RefinesThroughout(t: Tree, role: Path, ops: seq<Op>)
    decreases |ops|
  {
    ops == [] || (CanTouch(t, role) && Refines(t, role, ops[0]) &&
      RefinesThroughout(ApplyTree(t, role, ops[0]).0, role, ops[1..]))
  }

  /** A sequence of operations on files refines the flat map at every step if and only if it holds no
      stray rename. */
  lemma {:induction false} RunRefinesIff(t: Tree, role: Path, ops: seq<Op>)
    requires Coherent(t, role) && NormalPath(role) && NamesFilesThroughout(FlatOf(t, role), role, ops)
    ensures RefinesThroughout(t, role, ops) <==> AllowedRun(FlatOf(t, role), role, ops)
    decreases |ops|
  {
    if ops != [] {
      StepRefinesIff(t, role, ops[0]);
      hide ApplyTree, ApplyFlat, Coherent, FlatOf, NamesFiles, IsStray;
      if Refines(t, role, ops[0]) {
        RunRefinesIff(ApplyTree(t, role, ops[0]).0, role, ops[1..]);
      }
    }
  }

  /** Under any sequence of allowed operations the tree behaves as the flat map. */
  lemma {:induction false} RunRefines(t: Tree, role: Path, ops: seq<Op>)
    requires Coherent(t, role) && NormalPath(role) && AllowedRun(FlatOf(t, role), role, ops)
    ensures var (t', answers) := RunTree(t, role, ops);
      && Coherent(t', role)
      && (FlatOf(t', role), answers) == RunFlat(FlatOf(t, role), role, ops)
      && UntouchedOutside(t, t', role)
    decreases |ops|
  {
    if ops != [] {
      StepRefinesIff(t, role, ops[0]);
      var next := ApplyTree(t, role, ops[0]).0;
      hide ApplyTree, ApplyFlat, Coherent, FlatOf, UntouchedOutside, Allowed;
      RunRefines(next, role, ops[1..]);
      UntouchedTransitive(t, next, RunTree(next, role, ops[1..]).0, role);
    }
  }

  lemma GetAgrees(t: Tree, role: Path, p: Path)
    requires Coherent(t, role) && role <= p && p != MetaPath(role)
    ensures GetAt(t, p) == if p in FlatOf(t, role) then Found(FlatOf(t, role)[p]) else Missing
  {
    RoleIsDirectory(t, role);
  }
}
