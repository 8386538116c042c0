/** The operator's reading of a role: the files of the role store, sorted into what an agent is given. */
module RoleReader {
  import opened Wrappers
  import opened Text
  import opened Paths
  import opened FileSystem
  import opened RoleStore
  import opened RoleListing
  import opened AgentPrompt

  datatype Kind = Soul | Prompt | AgentsMd | Skill | Extra

  const SINGLE: set<Kind> := {Soul, Prompt, AgentsMd}

  /** Well-known names are told in any case of their letters. */
  function KindOf(name: string): Kind {
    var lower := ToLower(name);
    if lower == "soul.md" then Soul
    else if lower == "prompt.md" then Prompt
    else if lower == "agents.md" then AgentsMd
    else if "skills/" <= lower then Skill
    else Extra
  }

  /** The roles volume, how a metadata file inside a role reads as text, and what walking a role's
      directory hands over, unless that fails. */
  datatype RolesVolume = RolesVolume(
    tree: Tree,
    base: Path,
    json: Content -> string,
    walk: seq<RoleFile>,
    readable: bool)
  {
    function TextOf(c: Content): string { if c.Text? then c.text else json(c) }

    function DirOf(role: string): Path { JoinPath(base, role) }

    ghost predicate Fits(role: string) {
      && WellFormed(tree)
      && (StatOf(tree, DirOf(role)) == IsDir ==>
            IsWalk(walk, FlatOf(tree, DirOf(role)), DirOf(role)))
    }
  }

  /** filepath.WalkDir gives every file once, and those that lie directly in the role by name. */
  ghost predicate IsWalk(files: seq<RoleFile>, m: Flat, role: Path) {
    && (forall r :: r in files <==> IsEntry(m, role, r))
    && (forall i, j :: 0 <= i < j < |files| ==> files[i].name != files[j].name)
    && (forall i, j :: 0 <= i < j < |files| && '/' !in files[i].name && '/' !in files[j].name ==>
         Less(files[i].name, files[j].name))
  }

  /** The role store's own listing is such a walk. */
  lemma ListingIsWalk(files: seq<RoleFile>, m: Flat, role: Path)
    requires IsListing(files, m, role)
    ensures IsWalk(files, m, role)
  {
    forall i, j | 0 <= i < j < |files|
      ensures Less(files[i].name, files[j].name) && files[i].name != files[j].name
    {
      assert Less(Names(files)[i], Names(files)[j]);
      LessIsIrreflexive(files[i].name);
    }
  }

  // What the operator takes from the files ---------------------------------------------------------

  /** The text of the last file of a kind, or nothing. */
  function LastOf(v: RolesVolume, files: seq<RoleFile>, kind: Kind): string {
    if files == [] then ""
    else
      var last := files[|files| - 1];
      if KindOf(last.name) == kind then v.TextOf(last.content) else LastOf(v, files[..|files| - 1], kind)
  }

  ghost predicate HoldsKind(data: map<string, string>, v: RolesVolume, files: seq<RoleFile>, kind: Kind) {
    && (forall n :: n in data ==>
         exists r :: r in files && KindOf(r.name) == kind && r.name == n && data[n] == v.TextOf(r.content))
    && (forall r :: r in files && KindOf(r.name) == kind ==> r.name in data)
  }

  ghost predicate IsSorted(rd: RoleData, v: RolesVolume, files: seq<RoleFile>) {
    && rd.soul == LastOf(v, files, Soul)
    && rd.prompt == LastOf(v, files, Prompt)
    && rd.agentsMd == LastOf(v, files, AgentsMd)
    && HoldsKind(rd.skills, v, files, Skill)
    && HoldsKind(rd.extraFiles, v, files, Extra)
  }

  /** readRoleDataFromDir: one file of the walk after the other. */
  method ReadRoleDataFromDir(v: RolesVolume) returns (rd: RoleData)
    requires forall i, j :: 0 <= i < j < |v.walk| ==> v.walk[i].name != v.walk[j].name
    ensures IsSorted(rd, v, v.walk)
  {
    rd := RoleData("", "", "", map[], map[]);
    for i := 0 to |v.walk|
      invariant IsSorted(rd, v, v.walk[..i])
    {
      var file, content := v.walk[i], v.TextOf(v.walk[i].content);
      var lower := ToLower(file.name);
      TakenIsSorted(rd, v, i);
      hide IsSorted;
      if lower == "soul.md" {
        rd := rd.(soul := content);
      } else if lower == "prompt.md" {
        rd := rd.(prompt := content);
      } else if lower == "agents.md" {
        rd := rd.(agentsMd := content);
      } else if "skills/" <= lower {
        rd := rd.(skills := rd.skills[file.name := content]);
      } else {
        rd := rd.(extraFiles := rd.extraFiles[file.name := content]);
      }
    }
    assert v.walk[..|v.walk|] == v.walk;
  }

  /** One more file, put where its kind belongs. */
  function Taken(rd: RoleData, name: string, content: string): RoleData {
    match KindOf(name)
    case Soul => rd.(soul := content)
    case Prompt => rd.(prompt := content)
    case AgentsMd => rd.(agentsMd := content)
    case Skill => rd.(skills := rd.skills[name := content])
    case Extra => rd.(extraFiles := rd.extraFiles[name := content])
  }

  lemma OneMoreLast(v: RolesVolume, i: nat, kind: Kind)
    requires i < |v.walk|
    ensures LastOf(v, v.walk[..i + 1], kind) ==
      if KindOf(v.walk[i].name) == kind then v.TextOf(v.walk[i].content) else LastOf(v, v.walk[..i], kind)
  {
    hide KindOf;
    assert v.walk[..i + 1][..i] == v.walk[..i];
  }

  lemma TakenIsSorted(rd: RoleData, v: RolesVolume, i: nat)
    requires forall i, j :: 0 <= i < j < |v.walk| ==> v.walk[i].name != v.walk[j].name
    requires i < |v.walk| && IsSorted(rd, v, v.walk[..i])
    ensures IsSorted(Taken(rd, v.walk[i].name, v.TextOf(v.walk[i].content)), v, v.walk[..i + 1])
  {
    hide KindOf, HoldsKind, LastOf;
    OneMoreLast(v, i, Soul);
    OneMoreLast(v, i, Prompt);
    OneMoreLast(v, i, AgentsMd);
    var name, content := v.walk[i].name, v.TextOf(v.walk[i].content);
    var after := Taken(rd, name, content);
    assert after.skills == if KindOf(name) == Skill then rd.skills[name := content] else rd.skills;
    assert after.extraFiles == if KindOf(name) == Extra then rd.extraFiles[name := content] else rd.extraFiles;
    OneMoreFile(rd.skills, after.skills, v, i, Skill);
    OneMoreFile(rd.extraFiles, after.extraFiles, v, i, Extra);
  }

  lemma OneMoreFile(before: map<string, string>, after: map<string, string>, v: RolesVolume, i: nat, kind: Kind)
    requires forall i, j :: 0 <= i < j < |v.walk| ==> v.walk[i].name != v.walk[j].name
    requires i < |v.walk| && HoldsKind(before, v, v.walk[..i], kind)
    requires after ==
      if KindOf(v.walk[i].name) == kind then before[v.walk[i].name := v.TextOf(v.walk[i].content)] else before
    ensures HoldsKind(after, v, v.walk[..i + 1], kind)
  {
    var file, files := v.walk[i], v.walk[..i + 1];
    assert files == v.walk[..i] + [file] && file in files;
    forall n | n in after
      ensures exists r :: r in files && KindOf(r.name) == kind && r.name == n && after[n] == v.TextOf(r.content)
    {
      if !(n == file.name && KindOf(n) == kind) {
        var r :| r in v.walk[..i] && KindOf(r.name) == kind && r.name == n && before[n] == v.TextOf(r.content);
        assert r in files;
      }
    }
  }

  // The same, told of the flat map of the role ------------------------------------------------------

  ghost predicate IsOfKind(m: Flat, dir: Path, p: Path, kind: Kind) {
    p in m && dir <= p && KindOf(NameOf(dir, p)) == kind
  }

  /** Of several files with one well-known name in different case, the greatest name counts. */
  ghost predicate Counts(m: Flat, dir: Path, p: Path, kind: Kind) {
    && p in m && IsOfKind(m, dir, p, kind)
    && forall q :: q in m && IsOfKind(m, dir, q, kind) && q != p ==> Less(NameOf(dir, q), NameOf(dir, p))
  }

  ghost predicate IsSingle(text: string, v: RolesVolume, m: Flat, dir: Path, kind: Kind) {
    || (text == "" && forall p :: p in m ==> !IsOfKind(m, dir, p, kind))
    || exists p :: Counts(m, dir, p, kind) && text == v.TextOf(m[p])
  }

  /** All files of a kind, each under its name. */
  ghost predicate HoldsAll(data: map<string, string>, v: RolesVolume, m: Flat, dir: Path, kind: Kind) {
    && (forall p :: p in m && IsOfKind(m, dir, p, kind) ==>
         NameOf(dir, p) in data && data[NameOf(dir, p)] == v.TextOf(m[p]))
    && (forall n :: n in data ==> exists p :: p in m && IsOfKind(m, dir, p, kind) && NameOf(dir, p) == n)
  }

  ghost predicate IsRoleData(rd: RoleData, v: RolesVolume, m: Flat, dir: Path) {
    && IsSingle(rd.soul, v, m, dir, Soul)
    && IsSingle(rd.prompt, v, m, dir, Prompt)
    && IsSingle(rd.agentsMd, v, m, dir, AgentsMd)
    && HoldsAll(rd.skills, v, m, dir, Skill)
    && HoldsAll(rd.extraFiles, v, m, dir, Extra)
  }

  lemma SingleHasNoSlash(name: string)
    requires KindOf(name) in SINGLE
    ensures '/' !in name
  {
    forall i | 0 <= i < |name|
      ensures name[i] != '/'
    {
      assert ToLower(name)[i] == Lower(name[i]);
      assert '/' !in "soul.md" && '/' !in "prompt.md" && '/' !in "agents.md";
      assert ToLower(name)[i] in ToLower(name);
    }
  }

  lemma {:induction false} LastOfIsIn(v: RolesVolume, files: seq<RoleFile>, kind: Kind) returns (at: int)
    ensures -1 <= at < |files|
    ensures at < 0 ==> LastOf(v, files, kind) == ""
    ensures at >= 0 ==> KindOf(files[at].name) == kind && LastOf(v, files, kind) == v.TextOf(files[at].content)
    ensures forall i :: at < i < |files| ==> KindOf(files[i].name) != kind
    decreases |files|
  {
    hide KindOf;
    if files == [] {
      at := -1;
    } else if KindOf(files[|files| - 1].name) == kind {
      at := |files| - 1;
    } else {
      at := LastOfIsIn(v, files[..|files| - 1], kind);
    }
  }

  /** In a walk the last file of a well-known kind has the greatest name. */
  lemma LastIsGreatest(v: RolesVolume, files: seq<RoleFile>, m: Flat, dir: Path, kind: Kind)
    requires IsWalk(files, m, dir) && kind in SINGLE && Below(m, dir)
    ensures IsSingle(LastOf(v, files, kind), v, m, dir, kind)
  {
    var at := LastOfIsIn(v, files, kind);
    forall q | q in m && IsOfKind(m, dir, q, kind)
      ensures at >= 0 && (RoleFile(NameOf(dir, q), m[q]) == files[at] || Less(NameOf(dir, q), files[at].name))
    {
      var r := RoleFile(NameOf(dir, q), m[q]);
      assert IsEntry(m, dir, r);
      var i :| 0 <= i < |files| && files[i] == r;
      SingleHasNoSlash(r.name);
      if at >= 0 {
        SingleHasNoSlash(files[at].name);
      }
    }
    if at >= 0 {
      assert files[at] in files;
      var p :| p in m && dir <= p && files[at] == RoleFile(NameOf(dir, p), m[p]);
      assert IsOfKind(m, dir, p, kind);
      forall q | q in m && IsOfKind(m, dir, q, kind) && q != p
        ensures Less(NameOf(dir, q), NameOf(dir, p))
      {
        if NameOf(dir, q) == NameOf(dir, p) {
          NameIsInjective(dir, p, q);
        }
      }
    }
  }

  lemma KindHoldsAll(data: map<string, string>, v: RolesVolume, files: seq<RoleFile>, m: Flat, dir: Path, kind: Kind)
    requires IsWalk(files, m, dir) && HoldsKind(data, v, files, kind) && Below(m, dir)
    ensures HoldsAll(data, v, m, dir, kind)
  {
    forall p | p in m && IsOfKind(m, dir, p, kind)
      ensures NameOf(dir, p) in data && data[NameOf(dir, p)] == v.TextOf(m[p])
    {
      var r := RoleFile(NameOf(dir, p), m[p]);
      assert IsEntry(m, dir, r);
      assert r in files;
      var x :| x in files && KindOf(x.name) == kind && x.name == r.name && data[r.name] == v.TextOf(x.content);
      assert x == r;
    }
    forall n | n in data
      ensures exists p :: p in m && IsOfKind(m, dir, p, kind) && NameOf(dir, p) == n
    {
      var r :| r in files && KindOf(r.name) == kind && r.name == n;
      var p :| p in m && dir <= p && r == RoleFile(NameOf(dir, p), m[p]);
      assert IsOfKind(m, dir, p, kind);
    }
  }

  /** The flat map determines the role data, whatever the walk. */
  lemma RoleDataIsUnique(x: RoleData, y: RoleData, v: RolesVolume, m: Flat, dir: Path)
    requires IsRoleData(x, v, m, dir) && IsRoleData(y, v, m, dir)
    ensures x == y
  {
    SingleIsUnique(x.soul, y.soul, v, m, dir, Soul);
    SingleIsUnique(x.prompt, y.prompt, v, m, dir, Prompt);
    SingleIsUnique(x.agentsMd, y.agentsMd, v, m, dir, AgentsMd);
  }

  lemma SingleIsUnique(x: string, y: string, v: RolesVolume, m: Flat, dir: Path, kind: Kind)
    requires IsSingle(x, v, m, dir, kind) && IsSingle(y, v, m, dir, kind)
    ensures x == y
  {
    forall a, b | Less(a, b)
      ensures !Less(b, a)
    {
      LessIsAsymmetric(a, b);
    }
  }

  // Fetching ---------------------------------------------------------------------------------------

  datatype Fetched = Failed | Fetched(data: Option<RoleData>)

  ghost predicate IsFetched(result: Fetched, v: RolesVolume, role: string) {
    var dir := v.DirOf(role);
    if role == "" then result == Fetched(None)
    else match StatOf(v.tree, dir)
      case NotExist => result == Fetched(None)
      case NotDirectory => result == Failed
      case IsFile =>
        dir in v.tree.files &&
        result == (if v.readable
                   then Fetched(Some(RoleData("", "", "", map[], map["." := v.TextOf(v.tree.files[dir])]))) else Failed)
      case IsDir =>
        if !v.readable then result == Failed
        else result.Fetched? && result.data.Some? && IsRoleData(result.data.value, v, FlatOf(v.tree, dir), dir)
  }

  /** What is fetched is determined by the volume. */
  lemma FetchedIsUnique(x: Fetched, y: Fetched, v: RolesVolume, role: string)
    requires IsFetched(x, v, role) && IsFetched(y, v, role)
    ensures x == y
  {
    var dir := v.DirOf(role);
    if role != "" && StatOf(v.tree, dir) == IsDir && v.readable {
      RoleDataIsUnique(x.data.value, y.data.value, v, FlatOf(v.tree, dir), dir);
    }
  }

  /** fetchRoleData. No role and no directory give no data; a walk over a file hands over the file itself,
      under the name of a dot; a name that leads through a file cannot be walked. */
  method FetchRoleData(v: RolesVolume, role: string) returns (result: Fetched)
    requires v.Fits(role)
    ensures IsFetched(result, v, role)
  {
    if role == "" {
      return Fetched(None);
    }
    var dir := v.DirOf(role);
    var stat := StatOf(v.tree, dir);
    if stat == NotExist {
      return Fetched(None);
    }
    if stat == NotDirectory || !v.readable {
      return Failed;
    }
    if stat == IsFile {
      return Fetched(Some(RoleData("", "", "", map[], map["." := v.TextOf(v.tree.files[dir])])));
    }
    var rd := ReadRoleDataFromDir(v);
    ghost var m := FlatOf(v.tree, dir);
    assert IsRoleData(rd, v, m, dir) by {
      hide IsSingle, HoldsAll, HoldsKind, IsWalk, FlatOf;
      LastIsGreatest(v, v.walk, m, dir, Soul);
      LastIsGreatest(v, v.walk, m, dir, Prompt);
      LastIsGreatest(v, v.walk, m, dir, AgentsMd);
      KindHoldsAll(rd.skills, v, v.walk, m, dir, Skill);
      KindHoldsAll(rd.extraFiles, v, v.walk, m, dir, Extra);
    }
    return Fetched(Some(rd));
  }
}
