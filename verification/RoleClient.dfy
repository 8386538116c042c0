/** The role client: each operation step by step on the disk, proved equal to its function on the tree. */
module RoleClients {
  import opened Wrappers
  import opened Text
  import opened Paths
  import opened FileSystem
  import opened RoleStore
  import opened RoleCreation
  import opened RoleListing

  class RoleClient {
    const base: Path
    const disk: Disk
    const builtin: Option<Builtin>

    constructor (base: Path, disk: Disk, builtin: Option<Builtin>)
      ensures this.base == base && this.disk == disk && this.builtin == builtin
    {
      this.base := base;
      this.disk := disk;
      this.builtin := builtin;
    }

    function RoleDir(roleName: string): Path { JoinPath(base, roleName) }

    function FullPath(roleName: string, filename: string): Path { JoinPath(RoleDir(roleName), filename) }

    method TouchMetadata(role: Path, now: int) returns (ok: bool)
      modifies disk
      ensures ok == CanTouch(old(disk.View()), role) && disk.View() == Touch(old(disk.View()), role, now)
    {
      if MetaPath(role) !in disk.files || !disk.files[MetaPath(role)].Metadata? {
        return false;
      }
      var m := disk.files[MetaPath(role)].(updatedAt := now);
      disk.files := disk.files[MetaPath(role) := m];
      return true;
    }

    method CleanEmptyParents(start: Path, stop: Path)
      modifies disk
      ensures disk.View() == CleanUp(old(disk.View()), start, stop)
    {
      var dir := start;
      while dir != stop && dir != []
        invariant CleanUp(disk.View(), dir, stop) == CleanUp(old(disk.View()), start, stop)
        decreases |dir|
      {
        if dir !in disk.dirs || HasEntries(disk.View(), dir) {
          break;
        }
        var _ := disk.Unlink(dir);
        dir := Dir(dir);
      }
    }

    method PutFile(roleName: string, filename: string, text: string, now: int) returns (ok: bool)
      modifies disk
      ensures (disk.View(), ok) ==
        if Accepted(roleName) && Accepted(filename)
        then PutAt(old(disk.View()), RoleDir(roleName), FullPath(roleName, filename), text, now)
        else (old(disk.View()), false)
      ensures StatOf(old(disk.View()), MetaPath(RoleDir(roleName))) == NotExist ==>
        !ok && disk.View() == old(disk.View())
      ensures ok ==> CanTouch(disk.View(), RoleDir(roleName))
    {
      if !Accepted(roleName) || !Accepted(filename) {
        return false;
      }
      var role := RoleDir(roleName);
      if StatOf(disk.View(), MetaPath(role)) == NotExist {
        return false;
      }
      var full := FullPath(roleName, filename);
      ok := disk.Mkdir(Dir(full));
      if !ok {
        return;
      }
      ok := disk.Write(full, Text(text));
      if !ok {
        return;
      }
      ok := TouchMetadata(role, now);
    }

    method DeleteFile(roleName: string, filename: string, now: int) returns (ok: bool)
      modifies disk
      ensures (disk.View(), ok) ==
        if Accepted(roleName) && Accepted(filename)
        then DeleteAt(old(disk.View()), RoleDir(roleName), FullPath(roleName, filename), now)
        else (old(disk.View()), false)
      ensures ok ==> CanTouch(disk.View(), RoleDir(roleName))
    {
      if !Accepted(roleName) || !Accepted(filename) {
        return false;
      }
      var full := FullPath(roleName, filename);
      if StatOf(disk.View(), full) == NotExist {
        return false;
      }
      ok := disk.Unlink(full);
      if !ok {
        return;
      }
      CleanEmptyParents(Dir(full), RoleDir(roleName));
      ok := TouchMetadata(RoleDir(roleName), now);
    }

    method RenameFile(roleName: string, oldName: string, newName: string, now: int) returns (ok: bool)
      requires FullPath(roleName, oldName) !in disk.dirs
      modifies disk
      ensures (disk.View(), ok) ==
        if Accepted(roleName) && Accepted(oldName) && Accepted(newName)
        then RenameAt(
               old(disk.View()), RoleDir(roleName), FullPath(roleName, oldName), FullPath(roleName, newName), now)
        else (old(disk.View()), false)
      ensures ok ==> CanTouch(disk.View(), RoleDir(roleName))
    {
      if !Accepted(roleName) || !Accepted(oldName) || !Accepted(newName) {
        return false;
      }
      var oldPath, newPath := FullPath(roleName, oldName), FullPath(roleName, newName);
      if StatOf(disk.View(), oldPath) == NotExist {
        return false;
      }
      ok := disk.Mkdir(Dir(newPath));
      if !ok {
        return;
      }
      ok := disk.Move(oldPath, newPath);
      if !ok {
        return;
      }
      CleanEmptyParents(Dir(oldPath), RoleDir(roleName));
      ok := TouchMetadata(RoleDir(roleName), now);
    }

    method GetFile(roleName: string, filename: string) returns (r: Lookup)
      ensures r == if Accepted(roleName) && Accepted(filename)
                   then GetAt(disk.View(), FullPath(roleName, filename)) else Missing
    {
      if !Accepted(roleName) || !Accepted(filename) {
        return Missing;
      }
      var full := FullPath(roleName, filename);
      if full !in disk.files {
        return Missing;
      }
      return Found(disk.files[full]);
    }

    method ListFiles(roleName: string) returns (ok: bool, files: seq<RoleFile>)
      requires WellFormed(disk.View())
      ensures !ok ==> files == []
      ensures ok <==> Accepted(roleName) && StatOf(disk.View(), RoleDir(roleName)) in {IsDir, IsFile}
      ensures ok && StatOf(disk.View(), RoleDir(roleName)) == IsDir ==>
        IsListing(files, FlatOf(disk.View(), RoleDir(roleName)), RoleDir(roleName))
    {
      var role := RoleDir(roleName);
      if !Accepted(roleName) || StatOf(disk.View(), role) == NotExist || StatOf(disk.View(), role) == NotDirectory {
        return false, [];
      }
      if role in disk.files {
        return true, [RoleFile(".", disk.files[role])];
      }
      files := ListFlat(role, FlatOf(disk.View(), role));
      ok := true;
    }

    method ListFlat(role: Path, flat: Flat) returns (files: seq<RoleFile>)
      requires Below(flat, role)
      ensures IsListing(files, flat, role)
    {
      var names, paths := CollectNames(role, flat);
      names := SortNames(names);
      files := [];
      for i := 0 to |names|
        invariant |files| == i
        invariant forall j :: 0 <= j < i ==> files[j] == RoleFile(names[j], flat[paths[names[j]]])
      {
        files := files + [RoleFile(names[i], flat[paths[names[i]]])];
      }
      SortedIsListing(role, flat, names, paths, files);
    }

    /** The walk: every file below the role but the metadata, in any order. */
    method CollectNames(role: Path, flat: Flat) returns (names: seq<string>, paths: map<string, Path>)
      requires Below(flat, role)
      ensures forall i, j :: 0 <= i < j < |names| ==> names[i] != names[j]
      ensures forall n :: n in names <==> n in paths
      ensures forall n :: n in paths ==> paths[n] in flat && n == NameOf(role, paths[n])
      ensures forall p :: p in flat ==> NameOf(role, p) in paths && paths[NameOf(role, p)] == p
      ensures |names| == |flat|
    {
      var left := flat.Keys;
      names, paths := [], map[];
      while left != {}
        invariant left <= flat.Keys && |names| + |left| == |flat|
        invariant forall i, j :: 0 <= i < j < |names| ==> names[i] != names[j]
        invariant forall n :: n in names <==> n in paths
        invariant forall n :: n in paths ==> paths[n] in flat && paths[n] !in left && n == NameOf(role, paths[n])
        invariant forall p :: p in flat && p !in left ==> NameOf(role, p) in paths && paths[NameOf(role, p)] == p
        decreases left
      {
        var p :| p in left;
        var name := NameOf(role, p);
        if name in paths {
          NameIsInjective(role, p, paths[name]);
        }
        names, paths, left := names + [name], paths[name := p], left - {p};
      }
    }

    method CountFiles(roleName: string) returns (count: nat)
      ensures count == |FlatOf(disk.View(), RoleDir(roleName))|
    {
      var role := RoleDir(roleName);
      var left := disk.files.Keys;
      var counted := {};
      count := 0;
      while left != {}
        invariant left <= disk.files.Keys && count == |counted|
        invariant counted == set f | f in disk.files && f !in left && role < f && f != MetaPath(role)
        decreases left
      {
        var f :| f in left;
        if role < f && f != MetaPath(role) {
          count, counted := count + 1, counted + {f};
        }
        left := left - {f};
      }
      assert counted == FlatOf(disk.View(), role).Keys;
    }

    method Create(req: Request, now: int) returns (ok: bool)
      requires WellFormed(disk.View()) && NormalPath(base)
      modifies disk
      ensures CreateOutcome(builtin, old(disk.View()), RoleDir(req.name), req, now, disk.View(), ok)
      ensures !Accepted(req.name) || StatOf(old(disk.View()), RoleDir(req.name)) in {IsDir, IsFile} ==>
        !ok && disk.View() == old(disk.View())
    {
      if !Accepted(req.name) {
        return false;
      }
      JoinStaysUnder(base, req.name);
      var role := RoleDir(req.name);
      ghost var start := disk.View();
      var stat := StatOf(disk.View(), role);
      if stat == IsDir || stat == IsFile {
        return false;
      }
      ok := disk.Mkdir(role);
      if !ok {
        return;
      }
      ghost var made := disk.View();
      MadeRoleIsEmpty(start, role);
      var data := CollectFiles(builtin, req);
      ok := WriteFiles(role, data, start);
      if !ok {
        assert !Storable(role, data.Keys);
        return;
      }
      hide Written, IsRequested, WellFormed, RemoveAll;
      MetadataFits(made, disk.View(), role, data);
      RollbackLeavesParents(start, disk.View(), role, data, data.Keys);
      ok := disk.Write(MetaPath(role), Metadata(req.description, now, now));
      if !ok {
        disk.UnlinkAll(role);
      } else {
        assert Created(start, disk.View(), role, data, req.description, now);
      }
    }

    /** One file: check the name, make its directories, write it; on failure remove the role. */
    method WriteOne(role: Path, name: string, text: string) returns (ok: bool)
      requires NormalPath(role) && forall q :: q <= role ==> q in disk.dirs
      modifies disk
      ensures ok <==> CanAdd(old(disk.View()), role, name)
      ensures disk.View() == if ok then Add(old(disk.View()), role, name, text) else RemoveAll(old(disk.View()), role)
    {
      if !Accepted(name) {
        disk.UnlinkAll(role);
        return false;
      }
      JoinStaysUnder(role, name);
      var full := Full(role, name);
      MadeBelowIsRemoved(disk.View(), role, full);
      hide MkdirAll, CanMkdir, WriteFile, CanWrite, RemoveAll, Accepted, JoinPath, Prefixes, NormalPath;
      ok := disk.Mkdir(Dir(full));
      if ok {
        ok := disk.Write(full, Text(text));
      }
      if !ok {
        disk.UnlinkAll(role);
      }
    }

    /** The writing loop, over the map in any order; the first failure rolls everything back. */
    method WriteFiles(role: Path, data: map<string, string>, ghost start: Tree) returns (ok: bool)
      requires WellFormed(start) && NormalPath(role) && CanMkdir(start, role) && role !in start.dirs
      requires disk.View() == MkdirAll(start, role)
      modifies disk
      ensures ok <==> Writable(role, data.Keys)
      ensures ok ==> Written(MkdirAll(start, role), disk.View(), role, data, data.Keys)
      ensures !ok ==> disk.View() == Tree(start.dirs + Prefixes(Dir(role)), start.files)
    {
      MadeRoleIsEmpty(start, role);
      ghost var made := disk.View();
      var left := data.Keys;
      assert Written(made, disk.View(), role, data, {}) && Writable(role, {});
      while left != {}
        invariant left <= data.Keys
        invariant Writable(role, data.Keys - left) && Written(made, disk.View(), role, data, data.Keys - left)
        decreases left
      {
        hide Written, Writable, WellFormed, EmptyRole, CanAdd, Add, RemoveAll, MkdirAll, CanMkdir, Prefixes;
        var k :| k in left;
        ghost var done := data.Keys - left;
        assert data.Keys - (left - {k}) == done + {k};
        WriteStep(made, disk.View(), role, data, done, k);
        RollbackLeavesParents(start, disk.View(), role, data, done);
        RoleStays(made, disk.View(), role, data, done);
        var wrote := WriteOne(role, k, data[k]);
        if !wrote {
          WritableIsMonotone(role, done + {k}, data.Keys);
          return false;
        }
        left := left - {k};
      }
      assert data.Keys - left == data.Keys;
      ok := true;
    }
  }

  lemma SortedIsListing(role: Path, flat: Flat, names: seq<string>, paths: map<string, Path>, files: seq<RoleFile>)
    requires Below(flat, role) && StrictlySorted(names) && |files| == |names|
    requires forall n :: n in names <==> n in paths
    requires forall n :: n in paths ==> paths[n] in flat && n == NameOf(role, paths[n])
    requires forall p :: p in flat ==> NameOf(role, p) in paths && paths[NameOf(role, p)] == p
    requires forall j :: 0 <= j < |names| ==> files[j] == RoleFile(names[j], flat[paths[names[j]]])
    ensures IsListing(files, flat, role)
  {
    assert Names(files) == names;
    hide NameOf, StrictlySorted, Names;
    forall r | IsEntry(flat, role, r)
      ensures r in files
    {
      var p :| p in flat && role <= p && r == RoleFile(NameOf(role, p), flat[p]);
      var j :| 0 <= j < |names| && names[j] == r.name;
      assert files[j] == r;
    }
  }

  /** Removing the role undoes the making of directories in it. */
  lemma MadeBelowIsRemoved(t: Tree, role: Path, p: Path)
    requires role <= p && forall q :: q <= role ==> q in t.dirs
    ensures RemoveAll(MkdirAll(t, Dir(p)), role) == RemoveAll(t, role)
    ensures forall text :: !CanWrite(MkdirAll(t, Dir(p)), p) ==>
      WriteFile(MkdirAll(t, Dir(p)), p, Text(text)) == MkdirAll(t, Dir(p))
  {
    var made := MkdirAll(t, Dir(p));
    forall d | d in made.dirs && !(role <= d)
      ensures d in t.dirs
    {
      assert d in t.dirs || d <= Dir(p) <= p;
      assert d <= p ==> d <= role || role <= d;
    }
    assert RemoveAll(made, role).dirs == RemoveAll(t, role).dirs;
    assert RemoveAll(made, role).files == RemoveAll(t, role).files;
  }

  lemma RoleStays(t: Tree, t': Tree, role: Path, data: map<string, string>, done: set<string>)
    requires EmptyRole(t, role) && done <= data.Keys && Written(t, t', role, data, done)
    ensures forall q :: q <= role ==> q in t'.dirs
  {}

  lemma WritableIsMonotone(role: Path, some: set<string>, all: set<string>)
    requires some <= all
    ensures Writable(role, all) ==> Writable(role, some)
  {}
}
