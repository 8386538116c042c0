/** What callers read from a role: the sorted list of its files. */
module RoleListing {
  import opened Text
  import opened Paths
  import opened FileSystem
  import opened RoleStore

  datatype RoleFile = RoleFile(name: string, content: Content)

  /** filepath.Rel to the role, printed with slashes. */
  function NameOf(role: Path, p: Path): string
    requires role <= p
  {
    Join(p[|role|..])
  }

  function Names(files: seq<RoleFile>): (names: seq<string>)
    ensures |names| == |files|
  {
    seq(|files|, i requires 0 <= i < |files| => files[i].name)
  }

  ghost predicate IsEntry(m: Flat, role: Path, r: RoleFile) {
    exists p :: p in m && role <= p && r == RoleFile(NameOf(role, p), m[p])
  }

  /** Sorted by name, each file of the map once and nothing else. */
  ghost predicate IsListing(files: seq<RoleFile>, m: Flat, role: Path) {
    && StrictlySorted(Names(files))
    && (forall r :: r in files <==> IsEntry(m, role, r))
  }

  ghost predicate Below(m: Flat, role: Path) {
    forall p :: p in m ==> role < p && NormalPath(p)
  }

  lemma TailIsNormal(role: Path, p: Path)
    requires role < p && NormalPath(p)
    ensures p[|role|..] != [] && NormalPath(p[|role|..]) && p == role + p[|role|..]
  {}

  /** Different files have different names. */
  lemma NameIsInjective(role: Path, p: Path, q: Path)
    requires role < p && role < q && NormalPath(p) && NormalPath(q)
    requires NameOf(role, p) == NameOf(role, q)
    ensures p == q
  {
    TailIsNormal(role, p);
    TailIsNormal(role, q);
    PrintedNameIsClean(p[|role|..]);
    PrintedNameIsClean(q[|role|..]);
  }

  /** A map has one listing: callers cannot tell two trees with the same flat map apart. */
  lemma ListingIsUnique(x: seq<RoleFile>, y: seq<RoleFile>, m: Flat, role: Path)
    requires IsListing(x, m, role) && IsListing(y, m, role) && Below(m, role)
    ensures x == y
  {
    NamesIncluded(x, y, m, role);
    NamesIncluded(y, x, m, role);
    SortedListsAgree(Names(x), Names(y));
    forall i | 0 <= i < |x|
      ensures x[i] == y[i]
    {
      assert Names(x)[i] == Names(y)[i];
      SameNameSameFile(x[i], y[i], m, role);
    }
  }

  lemma SameNameSameFile(a: RoleFile, b: RoleFile, m: Flat, role: Path)
    requires IsEntry(m, role, a) && IsEntry(m, role, b) && Below(m, role) && a.name == b.name
    ensures a == b
  {
    var p :| p in m && role <= p && a == RoleFile(NameOf(role, p), m[p]);
    var q :| q in m && role <= q && b == RoleFile(NameOf(role, q), m[q]);
    NameIsInjective(role, p, q);
  }

  lemma NamesIncluded(x: seq<RoleFile>, y: seq<RoleFile>, m: Flat, role: Path)
    requires IsListing(x, m, role) && IsListing(y, m, role)
    ensures forall n :: n in Names(x) ==> n in Names(y)
  {
    forall n | n in Names(x)
      ensures n in Names(y)
    {
      var i :| 0 <= i < |x| && x[i].name == n;
      assert x[i] in y;
      var j :| 0 <= j < |y| && y[j] == x[i];
      assert Names(y)[j] == n;
    }
  }

  /** The number of files is the size of the map. */
  lemma {:induction false} ListingHasEveryFileOnce(files: seq<RoleFile>, m: Flat, role: Path)
    requires IsListing(files, m, role) && Below(m, role)
    ensures |files| == |m|
    decreases |m|
  {
    if files == [] {
      assert forall p :: p in m ==> IsEntry(m, role, RoleFile(NameOf(role, p), m[p]));
      assert m.Keys == {};
    } else {
      assert files[0] in files;
      var p :| p in m && role <= p && files[0] == RoleFile(NameOf(role, p), m[p]);
      var rest := m - {p};
      assert IsListing(files[1..], rest, role) by {
        assert Names(files)[1..] == Names(files[1..]);
        forall r
          ensures r in files[1..] <==> IsEntry(rest, role, r)
        {
          DropFirst(files, m, role, p, r);
        }
      }
      ListingHasEveryFileOnce(files[1..], rest, role);
      assert m.Keys == rest.Keys + {p};
      assert |m| == |m.Keys| && |rest| == |rest.Keys|;
    }
  }

  lemma DropFirst(files: seq<RoleFile>, m: Flat, role: Path, p: Path, r: RoleFile)
    requires IsListing(files, m, role) && Below(m, role) && files != [] && p in m
    requires files[0] == RoleFile(NameOf(role, p), m[p])
    ensures r in files[1..] <==> IsEntry(m - {p}, role, r)
  {
    TailMembers(Names(files), r.name);
    if r in files[1..] {
      var i :| 0 <= i < |files[1..]| && files[1..][i] == r;
      assert Names(files)[1..][i] == r.name;
      assert r in files;
      var q :| q in m && role <= q && r == RoleFile(NameOf(role, q), m[q]);
      assert q != p;
      assert q in m - {p} && (m - {p})[q] == m[q];
    }
    if IsEntry(m - {p}, role, r) {
      var q :| q in m - {p} && role <= q && r == RoleFile(NameOf(role, q), (m - {p})[q]);
      assert IsEntry(m, role, r);
      assert r in files;
      if r == files[0] {
        NameIsInjective(role, p, q);
        assert false;
      }
    }
  }
}
