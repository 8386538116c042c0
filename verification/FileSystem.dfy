/** A directory tree and the operating-system calls the role store makes on it.
    A call fails for the reasons the tree itself gives; faults such as a full disk do not occur. */
module FileSystem {
  import opened Paths

  datatype Content =
    | Text(text: string)
    | Metadata(description: string, createdAt: int, updatedAt: int)

  datatype Tree = Tree(dirs: set<Path>, files: map<Path, Content>)

  datatype Stat = IsDir | IsFile | NotExist | NotDirectory

  /** filepath.Dir; the root is its own parent. */
  function Dir(p: Path): Path {
    if p == [] then [] else Parent(p)
  }

  /** Every ancestor of an entry is a directory, and no name is used twice. */
  ghost predicate WellFormed(t: Tree) {
    && [] in t.dirs
    && t.dirs !! t.files.Keys
    && (forall d, q :: d in t.dirs && q <= d ==> q in t.dirs)
    && (forall f, q :: f in t.files && q < f ==> q in t.dirs)
    && (forall d :: d in t.dirs ==> NormalPath(d))
    && (forall f :: f in t.files ==> NormalPath(f))
  }

  predicate BelowAFile(t: Tree, p: Path) {
    exists q :: q in t.files && q < p
  }

  /** os.Stat: only a path whose ancestors are all directories can be "not existing". */
  function StatOf(t: Tree, p: Path): Stat {
    if p in t.dirs then IsDir
    else if p in t.files then IsFile
    else if BelowAFile(t, p) then NotDirectory
    else NotExist
  }

  function Prefixes(p: Path): (ps: set<Path>)
    ensures forall q :: q in ps <==> q <= p
  {
    var ps := set k | 0 <= k <= |p| :: p[..k];
    assert forall q :: q <= p ==> q == p[..|q|] && q in ps;
    ps
  }

  predicate CanMkdir(t: Tree, p: Path) {
    p !in t.files && !BelowAFile(t, p)
  }

  function MkdirAll(t: Tree, p: Path): Tree {
    if CanMkdir(t, p) then t.(dirs := t.dirs + Prefixes(p)) else t
  }

  predicate CanWrite(t: Tree, p: Path) {
    p !in t.dirs && Dir(p) in t.dirs
  }

  function WriteFile(t: Tree, p: Path, c: Content): Tree {
    if CanWrite(t, p) then t.(files := t.files[p := c]) else t
  }

  predicate HasEntries(t: Tree, dir: Path) {
    (exists d :: d in t.dirs && d != [] && Dir(d) == dir) || (exists f :: f in t.files && f != [] && Dir(f) == dir)
  }

  predicate CanRemove(t: Tree, p: Path) {
    p in t.files || (p in t.dirs && p != [] && !HasEntries(t, p))
  }

  function Remove(t: Tree, p: Path): Tree {
    if p in t.files then t.(files := t.files - {p})
    else if CanRemove(t, p) then t.(dirs := t.dirs - {p})
    else t
  }

  /** os.Rename of anything but a directory. */
  predicate CanRename(t: Tree, from: Path, to: Path) {
    from in t.files && to !in t.dirs && Dir(to) in t.dirs
  }

  function Rename(t: Tree, from: Path, to: Path): Tree {
    if CanRename(t, from, to) then t.(files := (t.files - {from})[to := t.files[from]]) else t
  }

  function RemoveAll(t: Tree, p: Path): Tree {
    Tree(set d | d in t.dirs && !(p <= d), map f | f in t.files && !(p <= f) :: t.files[f])
  }

  class Disk {
    var dirs: set<Path>
    var files: map<Path, Content>

    function View(): Tree
      reads this
    {
      Tree(dirs, files)
    }

    constructor (t: Tree)
      ensures View() == t
    {
      dirs, files := t.dirs, t.files;
    }

    method Mkdir(p: Path) returns (ok: bool)
      modifies this
      ensures ok == CanMkdir(old(View()), p) && View() == MkdirAll(old(View()), p)
    {
      ok := CanMkdir(View(), p);
      if ok {
        dirs := dirs + Prefixes(p);
      }
    }

    method Write(p: Path, c: Content) returns (ok: bool)
      modifies this
      ensures ok == CanWrite(old(View()), p) && View() == WriteFile(old(View()), p, c)
    {
      ok := CanWrite(View(), p);
      if ok {
        files := files[p := c];
      }
    }

    method Unlink(p: Path) returns (ok: bool)
      modifies this
      ensures ok == CanRemove(old(View()), p) && View() == Remove(old(View()), p)
    {
      ok := CanRemove(View(), p);
      if p in files {
        files := files - {p};
      } else if ok {
        dirs := dirs - {p};
      }
    }

    method Move(from: Path, to: Path) returns (ok: bool)
      modifies this
      ensures ok == CanRename(old(View()), from, to) && View() == Rename(old(View()), from, to)
    {
      ok := CanRename(View(), from, to);
      if ok {
        files := (files - {from})[to := files[from]];
      }
    }

    method UnlinkAll(p: Path)
      modifies this
      ensures View() == RemoveAll(old(View()), p)
    {
      dirs := set d | d in dirs && !(p <= d);
      files := map f | f in files && !(p <= f) :: files[f];
    }
  }

  // What the calls keep -----------------------------------------------------------

  lemma MkdirKeepsWellFormed(t: Tree, p: Path)
    requires WellFormed(t) && NormalPath(p)
    ensures WellFormed(MkdirAll(t, p))
  {
    if CanMkdir(t, p) {
      assert forall q :: q <= p && q in t.files ==> q == p || q < p;
    }
  }

  lemma WriteKeepsWellFormed(t: Tree, p: Path, c: Content)
    requires WellFormed(t) && NormalPath(p)
    ensures WellFormed(WriteFile(t, p, c))
  {}

  lemma RemoveKeepsWellFormed(t: Tree, p: Path)
    requires WellFormed(t)
    ensures WellFormed(Remove(t, p))
  {
    if p !in t.files && CanRemove(t, p) {
      forall q | p < q
        ensures q !in t.dirs && q !in t.files
      {
        var child := q[..|p| + 1];
        assert child <= q && Dir(child) == p && (child == q || child < q);
      }
      forall d, q | d in t.dirs - {p} && q <= d
        ensures q in t.dirs - {p}
      {
        assert p <= d ==> d == p || p < d;
      }
    }
  }

  lemma RenameKeepsWellFormed(t: Tree, from: Path, to: Path)
    requires WellFormed(t) && NormalPath(to)
    ensures WellFormed(Rename(t, from, to))
  {}
}
