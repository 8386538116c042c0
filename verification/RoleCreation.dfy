/** Creating a role: which files a new role gets, and how writing them either completes or leaves nothing. */
module RoleCreation {
  import opened Wrappers
  import opened Text
  import opened Paths
  import opened FileSystem
  import opened RoleStore

  /** The provider of default contents. */
  datatype Builtin = Builtin(
    soul: string,
    promptFor: string -> string,
    agentsFor: string -> string,
    skillsFor: string -> seq<string>,
    skill: string -> string)

  datatype Request = Request(
    name: string,
    description: string,
    role: string,
    initialFiles: seq<string>,
    files: map<string, string>)

  const WELL_KNOWN := ["SOUL.md", "PROMPT.md", "AGENTS.md"]

  function SkillFile(skill: string): string {
    "skills/" + skill + "/SKILL.md"
  }

  /** builtinContentFor. */
  function BuiltinContent(b: Option<Builtin>, filename: string, role: string): string {
    if b.None? then ""
    else if filename == "SOUL.md" then b.value.soul
    else if filename == "PROMPT.md" then b.value.promptFor(role)
    else if filename == "AGENTS.md" then b.value.agentsFor(role)
    else ""
  }

  predicate HasTemplate(b: Option<Builtin>, role: string) {
    b.Some? && role != "" && role != "custom"
  }

  // What the files of a new role are, name by name ----------------------------------------

  predicate IsDefault(b: Option<Builtin>, role: string, name: string) {
    HasTemplate(b, role) &&
    ((name in WELL_KNOWN && BuiltinContent(b, name, role) != "") ||
     exists skill :: skill in b.value.skillsFor(role) && name == SkillFile(skill))
  }

  predicate Wanted(b: Option<Builtin>, req: Request, name: string) {
    name in req.files || name in req.initialFiles || IsDefault(b, req.role, name)
  }

  /** A user's file overrides everything; a template's skill comes before the initial file's default. */
  predicate RightContent(b: Option<Builtin>, req: Request, name: string, content: string) {
    if name in req.files then content == req.files[name]
    else if IsDefault(b, req.role, name) && name !in WELL_KNOWN then
      exists skill :: skill in b.value.skillsFor(req.role)
        && name == SkillFile(skill) && content == b.value.skill(skill)
    else content == BuiltinContent(b, name, req.role)
  }

  ghost predicate IsRequested(b: Option<Builtin>, req: Request, data: map<string, string>) {
    && (forall name :: name in data <==> Wanted(b, req, name))
    && (forall name :: name in data ==> RightContent(b, req, name, data[name]))
  }

  lemma SkillFileIsInjective(x: string, y: string)
    requires SkillFile(x) == SkillFile(y)
    ensures x == y
  {
    var name := SkillFile(x);
    assert name[7..|name| - 9] == x;
    assert SkillFile(y)[7..|SkillFile(y)| - 9] == y;
  }

  /** What a template gives: its texts under the well-known names and its skills, unless the user has a file
      of that name. */
  lemma TemplateGives(b: Builtin, req: Request, data: map<string, string>)
    requires IsRequested(Some(b), req, data) && req.role != "" && req.role != "custom"
    ensures "SOUL.md" !in req.files && b.soul != "" ==> "SOUL.md" in data && data["SOUL.md"] == b.soul
    ensures "PROMPT.md" !in req.files && b.promptFor(req.role) != "" ==>
      "PROMPT.md" in data && data["PROMPT.md"] == b.promptFor(req.role)
    ensures "AGENTS.md" !in req.files && b.agentsFor(req.role) != "" ==>
      "AGENTS.md" in data && data["AGENTS.md"] == b.agentsFor(req.role)
    ensures forall skill :: skill in b.skillsFor(req.role) ==>
      var name := "skills/" + skill + "/SKILL.md";
      name in data && (name !in req.files ==> data[name] == b.skill(skill))
    ensures forall name :: name in req.files ==> name in data && data[name] == req.files[name]
  {
    assert "SOUL.md"[0] == 'S' && "PROMPT.md"[0] == 'P' && "AGENTS.md"[0] == 'A';
    assert forall name :: name in WELL_KNOWN <==> name == "SOUL.md" || name == "PROMPT.md" || name == "AGENTS.md";
    forall skill | skill in b.skillsFor(req.role)
      ensures var name := "skills/" + skill + "/SKILL.md";
        name in data && (name !in req.files ==> data[name] == b.skill(skill))
    {
      var name := SkillFile(skill);
      assert name[0] == 's';
      assert IsDefault(Some(b), req.role, name) && name !in WELL_KNOWN;
      if name !in req.files {
        var other :| other in b.skillsFor(req.role) && name == SkillFile(other) && data[name] == b.skill(other);
        SkillFileIsInjective(skill, other);
      }
    }
  }

  /** Without a template there are the initial files and the user's and no other. An initial file under a name
      that is not well-known starts empty. */
  lemma WithoutTemplate(b: Option<Builtin>, req: Request, data: map<string, string>)
    requires IsRequested(b, req, data) && (b.None? || req.role == "" || req.role == "custom")
    ensures forall name :: name in data <==> name in req.files || name in req.initialFiles
    ensures forall name :: name in req.files ==> data[name] == req.files[name]
    ensures forall name :: name in req.initialFiles ==> name in data
    ensures forall name ::
      (name in req.initialFiles && name !in req.files &&
       (b.None? || name !in {"SOUL.md", "PROMPT.md", "AGENTS.md"})) ==> data[name] == ""
  {
    hide SkillFile;
  }

  /** Step 1: the defaults of the role's template. */
  method CollectDefaults(b: Option<Builtin>, role: string) returns (data: map<string, string>)
    ensures forall name :: name in data <==> IsDefault(b, role, name)
    ensures forall name :: name in data && name in WELL_KNOWN ==> data[name] == BuiltinContent(b, name, role)
    ensures forall name :: name in data && name !in WELL_KNOWN ==>
      b.Some? && exists skill ::
        skill in b.value.skillsFor(role) && name == SkillFile(skill) && data[name] == b.value.skill(skill)
  {
    data := map[];
    if !HasTemplate(b, role) {
      return;
    }
    data := WellKnownDefaults(b, role);
    hide BuiltinContent;
    data := AddSkills(b.value, b.value.skillsFor(role), data);
  }

  method WellKnownDefaults(b: Option<Builtin>, role: string) returns (data: map<string, string>)
    ensures forall name :: name in data <==> name in WELL_KNOWN && BuiltinContent(b, name, role) != ""
    ensures forall name :: name in data ==> data[name] == BuiltinContent(b, name, role)
  {
    data := map[];
    hide BuiltinContent;
    for i := 0 to |WELL_KNOWN|
      invariant forall name :: name in data <==> name in WELL_KNOWN[..i] && BuiltinContent(b, name, role) != ""
      invariant forall name :: name in data ==> data[name] == BuiltinContent(b, name, role)
    {
      var f := WELL_KNOWN[i];
      var content := BuiltinContent(b, f, role);
      if content != "" {
        data := data[f := content];
      }
    }
  }

  method AddSkills(b: Builtin, skills: seq<string>, wellKnown: map<string, string>) returns (data: map<string, string>)
    requires forall name :: name in wellKnown ==> name in WELL_KNOWN
    ensures forall name :: name in data <==>
      name in wellKnown || exists skill :: skill in skills && name == SkillFile(skill)
    ensures forall name :: name in wellKnown ==> data[name] == wellKnown[name]
    ensures forall name :: name in data && name !in WELL_KNOWN ==>
      exists skill :: skill in skills && name == SkillFile(skill) && data[name] == b.skill(skill)
  {
    data := wellKnown;
    for i := 0 to |skills|
      invariant forall name :: name in data && name !in wellKnown ==>
        exists skill :: skill in skills[..i] && name == SkillFile(skill) && data[name] == b.skill(skill)
      invariant forall skill :: skill in skills[..i] ==> SkillFile(skill) in data
      invariant forall name :: name in wellKnown ==> name in data && data[name] == wellKnown[name]
    {
      data := data[SkillFile(skills[i]) := b.skill(skills[i])];
    }
  }

  /** Steps 2 and 3: initial files where there is no default, then the user's files over everything. */
  method CollectFiles(b: Option<Builtin>, req: Request) returns (data: map<string, string>)
    ensures IsRequested(b, req, data)
  {
    data := CollectDefaults(b, req.role);
    ghost var defaults := data;
    hide IsDefault, BuiltinContent, SkillFile;
    for i := 0 to |req.initialFiles|
      invariant forall name :: name in data <==> name in defaults || name in req.initialFiles[..i]
      invariant forall name :: name in defaults ==> data[name] == defaults[name]
      invariant forall name :: name in data && name !in defaults ==> data[name] == BuiltinContent(b, name, req.role)
    {
      var f := req.initialFiles[i];
      if f !in data {
        data := data[f := BuiltinContent(b, f, req.role)];
      }
    }
    OverridesAreRequested(b, req, defaults, data);
    data := data + req.files;
  }

  lemma OverridesAreRequested(
    b: Option<Builtin>, req: Request, defaults: map<string, string>, data: map<string, string>)
    requires forall name :: name in defaults <==> IsDefault(b, req.role, name)
    requires forall name :: name in defaults && name in WELL_KNOWN ==>
      defaults[name] == BuiltinContent(b, name, req.role)
    requires forall name :: name in defaults && name !in WELL_KNOWN ==>
      b.Some? && exists skill ::
        skill in b.value.skillsFor(req.role) && name == SkillFile(skill) && defaults[name] == b.value.skill(skill)
    requires forall name :: name in data <==> name in defaults || name in req.initialFiles
    requires forall name :: name in defaults ==> data[name] == defaults[name]
    requires forall name :: name in data && name !in defaults ==> data[name] == BuiltinContent(b, name, req.role)
    ensures IsRequested(b, req, data + req.files)
  {
    hide IsDefault, BuiltinContent, SkillFile;
  }

  // What writing them amounts to ------------------------------------------------------------

  function Full(role: Path, name: string): Path { JoinPath(role, name) }

  /** The names fit together as files: each is accepted and none is at or above another. */
  ghost predicate Writable(role: Path, names: set<string>) {
    && (forall k :: k in names ==> Accepted(k) && Full(role, k) != role)
    && (forall k, l :: k in names && l in names ==> !(Full(role, k) < Full(role, l)))
  }

  /** The names in `done` have been written into the empty role directory of `t`. */
  ghost predicate Written(t: Tree, t': Tree, role: Path, data: map<string, string>, done: set<string>)
    requires done <= data.Keys
  {
    && (forall d :: d in t'.dirs <==> d in t.dirs || exists k :: k in done && d < Full(role, k))
    && (forall f :: f in t'.files <==> f in t.files || exists k :: k in done && f == Full(role, k))
    && (forall f :: f in t.files ==> t'.files[f] == t.files[f])
    && (forall f :: f in t'.files && f !in t.files ==>
          exists k :: k in done && f == Full(role, k) && t'.files[f] == Text(data[k]))
  }

  ghost predicate EmptyRole(t: Tree, role: Path) {
    && WellFormed(t) && NormalPath(role) && role in t.dirs && role != []
    && (forall d :: d in t.dirs ==> !(role < d))
    && (forall f :: f in t.files ==> !(role < f))
  }

  predicate CanAdd(t: Tree, role: Path, name: string) {
    var p := Full(role, name);
    Accepted(name) && CanMkdir(t, Dir(p)) && CanWrite(MkdirAll(t, Dir(p)), p)
  }

  function Add(t: Tree, role: Path, name: string, text: string): Tree {
    var p := Full(role, name);
    WriteFile(MkdirAll(t, Dir(p)), p, Text(text))
  }

  /** One round of the writing loop succeeds exactly when the new name fits those written before. */
  lemma WriteStep(t: Tree, t': Tree, role: Path, data: map<string, string>, done: set<string>, k: string)
    requires EmptyRole(t, role) && done <= data.Keys && Written(t, t', role, data, done)
    requires k in data && k !in done && Writable(role, done)
    ensures CanAdd(t', role, k) <==> Writable(role, done + {k})
    ensures Writable(role, done + {k}) ==> Written(t, Add(t', role, k, data[k]), role, data, done + {k})
  {
    if Accepted(k) {
      JoinStaysUnder(role, k);
      var p := Full(role, k);
      WriteFits(t, t', role, data, done, k);
      if Writable(role, done + {k}) {
        WriteExtends(t, t', role, data, done, k);
      }
    }
  }

  lemma WriteFits(t: Tree, t': Tree, role: Path, data: map<string, string>, done: set<string>, k: string)
    requires EmptyRole(t, role) && done <= data.Keys && Written(t, t', role, data, done)
    requires k in data && k !in done && Writable(role, done) && Accepted(k) && role <= Full(role, k)
    ensures var p := Full(role, k);
      (CanMkdir(t', Dir(p)) && CanWrite(MkdirAll(t', Dir(p)), p)) <==> Writable(role, done + {k})
  {
    var p := Full(role, k);
    if p == role {
      hide Full, NormalPath, MkdirAll;
      assert role in t'.dirs && role in MkdirAll(t', Dir(p)).dirs by { MadeKeeps(t', Dir(p)); }
      hide WellFormed, EmptyRole, Accepted, Written;
    } else {
      FileOnTheWay(t, t', role, data, done, p);
      assert CanMkdir(t', Dir(p)) ==> (CanWrite(MkdirAll(t', Dir(p)), p) <==> p !in t'.dirs);
      hide WellFormed, Written, CanMkdir, MkdirAll, CanWrite, Full, EmptyRole, Accepted;
    }
  }

  lemma MadeKeeps(t: Tree, p: Path)
    ensures t.dirs <= MkdirAll(t, p).dirs
  {}

  lemma FileOnTheWay(t: Tree, t': Tree, role: Path, data: map<string, string>, done: set<string>, p: Path)
    requires EmptyRole(t, role) && done <= data.Keys && Written(t, t', role, data, done) && role < p
    ensures CanMkdir(t', Dir(p)) <==> forall l :: l in done ==> !(Full(role, l) < p)
    ensures p in t'.dirs <==> exists l :: l in done && p < Full(role, l)
  {
    forall q | q in t.files
      ensures !(q <= Dir(p))
    {
      assert q <= role || role < q || !(q <= p);
    }
    hide Full, WellFormed;
    assert Dir(p) < p;
    assert forall l :: l in done && Full(role, l) < p ==> Full(role, l) in t'.files && Full(role, l) <= Dir(p);
  }

  lemma WriteExtends(t: Tree, t': Tree, role: Path, data: map<string, string>, done: set<string>, k: string)
    requires EmptyRole(t, role) && done <= data.Keys && Written(t, t', role, data, done)
    requires k in data && k !in done && role < Full(role, k)
    requires CanMkdir(t', Dir(Full(role, k))) && CanWrite(MkdirAll(t', Dir(Full(role, k))), Full(role, k))
    ensures var p := Full(role, k);
      Written(t, WriteFile(MkdirAll(t', Dir(p)), p, Text(data[k])), role, data, done + {k})
  {
    var p := Full(role, k);
    var next := WriteFile(MkdirAll(t', Dir(p)), p, Text(data[k]));
    assert next.dirs == t'.dirs + Prefixes(Dir(p)) && next.files == t'.files[p := Text(data[k])];
    assert p !in t.files && Dir(p) < p;
    hide *;
    WrittenOneMore(t, t', next, role, data, done, k);
  }

  lemma WrittenOneMore(
    t: Tree, t': Tree, next: Tree, role: Path, data: map<string, string>, done: set<string>, k: string)
    requires done <= data.Keys && k in data && Written(t, t', role, data, done)
    requires var p := Full(role, k);
      p != [] && p !in t.files && next.dirs == t'.dirs + Prefixes(Dir(p)) && next.files == t'.files[p := Text(data[k])]
    ensures Written(t, next, role, data, done + {k})
  {
    hide Full;
    var p := Full(role, k);
    assert forall d :: d in Prefixes(Dir(p)) <==> d < p;
  }

  /** The names can be stored: they fit together, and none lies below the metadata file. */
  ghost predicate Storable(role: Path, names: set<string>) {
    Writable(role, names) && forall k :: k in names ==> !(MetaPath(role) < Full(role, k))
  }

  /** The finished role: all files written, then the metadata over whatever had its name. */
  ghost predicate Created(t: Tree, t': Tree, role: Path, data: map<string, string>, description: string, now: int) {
    exists filled: Tree ::
      && Written(MkdirAll(t, role), filled, role, data, data.Keys)
      && t' == filled.(files := filled.files[MetaPath(role) := Metadata(description, now, now)])
  }

  /** What a create may do: refuse, complete, or fail with no trace of the role. */
  ghost predicate CreateOutcome(b: Option<Builtin>, t: Tree, role: Path, req: Request, now: int, t': Tree, ok: bool) {
    if !Accepted(req.name) || StatOf(t, role) == IsDir || StatOf(t, role) == IsFile || !CanMkdir(t, role) then
      t' == t && !ok
    else
      exists data ::
        && IsRequested(b, req, data)
        && ok == Storable(role, data.Keys)
        && (if ok then Created(t, t', role, data, req.description, now)
            else t' == Tree(t.dirs + Prefixes(Dir(role)), t.files))
  }

  lemma MadeRoleIsEmpty(t: Tree, role: Path)
    requires WellFormed(t) && NormalPath(role) && CanMkdir(t, role) && role !in t.dirs
    ensures EmptyRole(MkdirAll(t, role), role)
    ensures forall d :: d in t.dirs ==> !(role <= d)
    ensures forall f :: f in t.files ==> !(role <= f)
  {
    MkdirKeepsWellFormed(t, role);
  }

  /** Rolling back removes exactly what came below the role. */
  lemma RollbackLeavesParents(t: Tree, t': Tree, role: Path, data: map<string, string>, done: set<string>)
    requires WellFormed(t) && NormalPath(role) && CanMkdir(t, role) && role !in t.dirs
    requires done <= data.Keys && Written(MkdirAll(t, role), t', role, data, done) && Writable(role, done)
    ensures RemoveAll(t', role) == Tree(t.dirs + Prefixes(Dir(role)), t.files)
  {
    MadeRoleIsEmpty(t, role);
    forall k | k in done
      ensures role <= Full(role, k)
    {
      JoinStaysUnder(role, k);
    }
    hide Full, WellFormed, Writable, NormalPath, CanMkdir, EmptyRole;
    assert role != [];
    WrittenBelow(t, t', role, data, done);
  }

  lemma WrittenBelow(t: Tree, t': Tree, role: Path, data: map<string, string>, done: set<string>)
    requires role != [] && CanMkdir(t, role)
    requires forall d :: d in t.dirs ==> !(role <= d)
    requires forall f :: f in t.files ==> !(role <= f)
    requires done <= data.Keys && Written(MkdirAll(t, role), t', role, data, done)
    requires forall k :: k in done ==> role <= Full(role, k)
    ensures RemoveAll(t', role) == Tree(t.dirs + Prefixes(Dir(role)), t.files)
  {
    hide Full;
    var gone, made := RemoveAll(t', role), MkdirAll(t, role);
    forall d
      ensures d in gone.dirs <==> d in t.dirs || d <= Dir(role)
    {
      assert d in made.dirs <==> d in t.dirs || d <= role;
      assert forall k :: k in done && d < Full(role, k) ==> d <= role || role <= d;
      assert d <= role <==> d == role || d <= Dir(role);
    }
    assert gone.dirs == t.dirs + Prefixes(Dir(role));
    FilesAreBack(t, t', role, data, done);
  }

  lemma FilesAreBack(t: Tree, t': Tree, role: Path, data: map<string, string>, done: set<string>)
    requires forall f :: f in t.files ==> !(role <= f)
    requires done <= data.Keys && Written(MkdirAll(t, role), t', role, data, done)
    requires forall k :: k in done ==> role <= Full(role, k)
    ensures RemoveAll(t', role).files == t.files
  {
    hide Full;
    assert MkdirAll(t, role).files == t.files;
  }

  lemma MetadataFits(t: Tree, t': Tree, role: Path, data: map<string, string>)
    requires EmptyRole(t, role) && Written(t, t', role, data, data.Keys) && Writable(role, data.Keys)
    ensures CanWrite(t', MetaPath(role)) <==> Storable(role, data.Keys)
  {
    assert role < MetaPath(role) && Dir(MetaPath(role)) == role;
  }

  /** A role that is not there yet is created exactly if the requested files can be stored, and then gets
      exactly these. */
  lemma CreateSucceeds(b: Option<Builtin>, t: Tree, role: Path, req: Request, now: int, t': Tree, ok: bool,
                       data: map<string, string>)
    requires WellFormed(t) && NormalPath(role) && StatOf(t, role) == NotExist && Accepted(req.name)
    requires CreateOutcome(b, t, role, req, now, t', ok)
    requires IsRequested(b, req, data)
    ensures ok <==> Storable(role, data.Keys)
    ensures ok ==> Coherent(t', role) && HoldsExactly(FlatOf(t', role), role, data)
    ensures ok ==> MetaPath(role) in t'.files && t'.files[MetaPath(role)] == Metadata(req.description, now, now)
    ensures !ok ==> t'.files == t.files && StatOf(t', role) == NotExist
  {
    assert CanMkdir(t, role);
    var d :| IsRequested(b, req, d) && ok == Storable(role, d.Keys) &&
      (if ok then Created(t, t', role, d, req.description, now) else t' == Tree(t.dirs + Prefixes(Dir(role)), t.files));
    RequestedIsUnique(b, req, d, data);
    hide IsRequested, Storable, Created, CanMkdir;
    if ok {
      CreatedRoleIsCoherent(t, t', role, data, req.description, now);
    }
  }

  // Consequences --------------------------------------------------------------------------------

  lemma RequestedIsUnique(b: Option<Builtin>, req: Request, x: map<string, string>, y: map<string, string>)
    requires IsRequested(b, req, x) && IsRequested(b, req, y)
    ensures x == y
  {
    assert x.Keys == y.Keys;
    forall name | name in x
      ensures x[name] == y[name]
    {
      if name !in req.files && IsDefault(b, req.role, name) && name !in WELL_KNOWN {
        var i :| i in b.value.skillsFor(req.role) && name == SkillFile(i) && x[name] == b.value.skill(i);
        var j :| j in b.value.skillsFor(req.role) && name == SkillFile(j) && y[name] == b.value.skill(j);
        SkillFileIsInjective(i, j);
      }
    }
  }

  /** Names for one file, other than the metadata's, have one text. */
  ghost predicate TextsAgree(role: Path, data: map<string, string>) {
    forall k, l :: k in data && l in data && Full(role, k) == Full(role, l) && Full(role, k) != MetaPath(role) ==>
      data[k] == data[l]
  }

  lemma WrittenIsUnique(t: Tree, x: Tree, y: Tree, role: Path, data: map<string, string>, c: Content)
    requires Written(t, x, role, data, data.Keys) && Written(t, y, role, data, data.Keys)
    requires TextsAgree(role, data)
    ensures x.dirs == y.dirs && x.files[MetaPath(role) := c] == y.files[MetaPath(role) := c]
  {
    hide Full;
    assert x.dirs == y.dirs;
    assert x.files.Keys == y.files.Keys;
    assert forall f :: f in x.files && f != MetaPath(role) ==> x.files[f] == y.files[f];
  }

  /** A create that completes. */
  ghost predicate Completes(t: Tree, role: Path, req: Request, data: map<string, string>) {
    && Accepted(req.name) && StatOf(t, role) != IsDir && StatOf(t, role) != IsFile && CanMkdir(t, role)
    && Storable(role, data.Keys)
  }

  lemma CreateIsDeterministic(b: Option<Builtin>, t: Tree, role: Path, req: Request, now: int,
                              x: Tree, xok: bool, y: Tree, yok: bool, data: map<string, string>)
    requires CreateOutcome(b, t, role, req, now, x, xok) && CreateOutcome(b, t, role, req, now, y, yok)
    requires IsRequested(b, req, data) && (Completes(t, role, req, data) ==> TextsAgree(role, data))
    ensures x == y && xok == yok
  {
    if Accepted(req.name) && StatOf(t, role) != IsDir && StatOf(t, role) != IsFile && CanMkdir(t, role) {
      var d :| IsRequested(b, req, d) && xok == Storable(role, d.Keys) &&
        (if xok then Created(t, x, role, d, req.description, now)
         else x == Tree(t.dirs + Prefixes(Dir(role)), t.files));
      var e :| IsRequested(b, req, e) && yok == Storable(role, e.Keys) &&
        (if yok then Created(t, y, role, e, req.description, now)
         else y == Tree(t.dirs + Prefixes(Dir(role)), t.files));
      RequestedIsUnique(b, req, d, data);
      RequestedIsUnique(b, req, e, data);
      hide IsRequested, Storable, TextsAgree, CanMkdir, Accepted, StatOf;
      if xok {
        CreatedIsUnique(t, x, y, role, data, req.description, now);
      }
    }
  }

  lemma CreatedIsUnique(t: Tree, x: Tree, y: Tree, role: Path, data: map<string, string>, note: string, now: int)
    requires Created(t, x, role, data, note, now) && Created(t, y, role, data, note, now)
    requires TextsAgree(role, data)
    ensures x == y
  {
    hide Written, TextsAgree, MkdirAll;
    var c := Metadata(note, now, now);
    var p: Tree :| Written(MkdirAll(t, role), p, role, data, data.Keys)
      && x == p.(files := p.files[MetaPath(role) := c]);
    var q: Tree :| Written(MkdirAll(t, role), q, role, data, data.Keys)
      && y == q.(files := q.files[MetaPath(role) := c]);
    WrittenIsUnique(MkdirAll(t, role), p, q, role, data, c);
  }

  /** The text a file gets when `last` is written after all other names: that of `last` if this is its file,
      otherwise that of some name for it. */
  ghost function TextAt(role: Path, data: map<string, string>, last: string, f: Path): (text: string)
    requires last in data && exists k :: k in data && Full(role, k) == f
    ensures exists k :: k in data && Full(role, k) == f && data[k] == text
    ensures Full(role, last) == f ==> text == data[last]
  {
    if Full(role, last) == f then data[last] else
      var k :| k in data && Full(role, k) == f;
      data[k]
  }

  ghost function FilesOf(role: Path, data: map<string, string>, last: string): (files: map<Path, Content>)
    requires last in data
    ensures forall f :: f in files <==> exists k :: k in data && Full(role, k) == f
    ensures forall f :: f in files ==> exists k :: k in data && Full(role, k) == f && files[f] == Text(data[k])
    ensures Full(role, last) in files && files[Full(role, last)] == Text(data[last])
  {
    hide Full;
    var paths := set k | k in data :: Full(role, k);
    map f | f in paths :: Text(TextAt(role, data, last, f))
  }

  ghost function DirsOf(role: Path, data: map<string, string>): set<Path> {
    set k, d | k in data && d in Prefixes(Full(role, k)) && d != Full(role, k) :: d
  }

  lemma DirsAreAncestors(role: Path, data: map<string, string>)
    ensures forall d :: d in DirsOf(role, data) <==> exists k :: k in data && d < Full(role, k)
  {
    hide Full;
    forall k, d | k in data && d < Full(role, k)
      ensures d in DirsOf(role, data)
    {
      var p := Full(role, k);
      assert d in Prefixes(p);
    }
  }

  ghost function Filled(t: Tree, role: Path, data: map<string, string>, last: string): Tree
    requires last in data
  {
    Tree(t.dirs + DirsOf(role, data), t.files + FilesOf(role, data, last))
  }

  lemma FilledIsWritten(t: Tree, role: Path, data: map<string, string>, last: string)
    requires EmptyRole(t, role) && Writable(role, data.Keys) && last in data
    ensures Written(t, Filled(t, role, data, last), role, data, data.Keys)
    ensures Full(role, last) in Filled(t, role, data, last).files
    ensures Filled(t, role, data, last).files[Full(role, last)] == Text(data[last])
  {
    FilesAreBelow(role, data);
    assert forall f :: f in FilesOf(role, data, last) ==> f !in t.files by {
      hide FilesOf, Full, WellFormed;
    }
    hide Written, DirsOf, FilesOf, Full, WellFormed, EmptyRole, Writable;
    DirsAreAncestors(role, data);
    AddedIsWritten(t, role, data, DirsOf(role, data), FilesOf(role, data, last));
  }

  lemma AddedIsWritten(t: Tree, role: Path, data: map<string, string>, dirs: set<Path>, files: map<Path, Content>)
    requires forall d :: d in dirs <==> exists k :: k in data && d < Full(role, k)
    requires forall f :: f in files <==> exists k :: k in data && Full(role, k) == f
    requires forall f :: f in files ==> exists k :: k in data && Full(role, k) == f && files[f] == Text(data[k])
    requires forall f :: f in files ==> f !in t.files
    ensures Written(t, Tree(t.dirs + dirs, t.files + files), role, data, data.Keys)
  {
    hide Full;
  }

  /** The loop over the map may come to different trees, if and only if the create completes and two names for
      one file have different texts. */
  lemma CreateIsDeterministicIff(b: Option<Builtin>, t: Tree, role: Path, req: Request, now: int,
                                 data: map<string, string>)
    requires WellFormed(t) && NormalPath(role) && IsRequested(b, req, data)
    ensures (forall x, xok, y, yok ::
               CreateOutcome(b, t, role, req, now, x, xok) && CreateOutcome(b, t, role, req, now, y, yok) ==>
                 x == y && xok == yok)
      <==> (Completes(t, role, req, data) ==> TextsAgree(role, data))
  {
    if Completes(t, role, req, data) ==> TextsAgree(role, data) {
      forall x, xok, y, yok |
        CreateOutcome(b, t, role, req, now, x, xok) && CreateOutcome(b, t, role, req, now, y, yok)
        ensures x == y && xok == yok
      {
        CreateIsDeterministic(b, t, role, req, now, x, xok, y, yok, data);
      }
    } else {
      hide Written, CanMkdir, StatOf, Accepted, Storable, WellFormed, IsRequested;
      var k, l := TwoOutcomes(t, role, data, req.description, now);
      var x, y := Finished(t, role, data, k, req.description, now), Finished(t, role, data, l, req.description, now);
      assert CreateOutcome(b, t, role, req, now, x, true) && CreateOutcome(b, t, role, req, now, y, true);
    }
  }

  /** Everything written, `last` last, and then the metadata. */
  ghost function Finished(t: Tree, role: Path, data: map<string, string>, last: string, note: string, now: int): Tree
    requires last in data
  {
    var filled := Filled(MkdirAll(t, role), role, data, last);
    filled.(files := filled.files[MetaPath(role) := Metadata(note, now, now)])
  }

  lemma FinishedIsCreated(t: Tree, role: Path, data: map<string, string>, last: string, note: string, now: int)
    requires WellFormed(t) && NormalPath(role) && CanMkdir(t, role) && role !in t.dirs
    requires Storable(role, data.Keys) && last in data
    ensures var x := Finished(t, role, data, last, note, now);
      && Created(t, x, role, data, note, now) && Full(role, last) in x.files
      && (Full(role, last) != MetaPath(role) ==> x.files[Full(role, last)] == Text(data[last]))
  {
    MadeRoleIsEmpty(t, role);
    var filled, c := Filled(MkdirAll(t, role), role, data, last), Metadata(note, now, now);
    assert Writable(role, data.Keys);
    assert Finished(t, role, data, last, note, now) == filled.(files := filled.files[MetaPath(role) := c]);
    hide WellFormed, Full, Filled, Written, MkdirAll, CanMkdir, EmptyRole, Writable, Storable, NormalPath, Finished;
    FilledIsWritten(MkdirAll(t, role), role, data, last);
  }

  lemma TwoOutcomes(t: Tree, role: Path, data: map<string, string>, note: string, now: int)
    returns (k: string, l: string)
    requires WellFormed(t) && NormalPath(role) && CanMkdir(t, role) && role !in t.dirs
    requires Storable(role, data.Keys) && !TextsAgree(role, data)
    ensures k in data && l in data && Finished(t, role, data, k, note, now) != Finished(t, role, data, l, note, now)
    ensures Created(t, Finished(t, role, data, k, note, now), role, data, note, now)
    ensures Created(t, Finished(t, role, data, l, note, now), role, data, note, now)
  {
    k, l :| k in data && l in data && Full(role, k) == Full(role, l) && Full(role, k) != MetaPath(role) &&
      data[k] != data[l];
    FinishedIsCreated(t, role, data, k, note, now);
    FinishedIsCreated(t, role, data, l, note, now);
    hide Full, Finished, Created, WellFormed;
  }

  /** The names a and ./a are such a pair. */
  lemma AliasesDisagree(role: Path, req: Request, x: string, y: string)
    requires NormalPath(role) && x != y
    requires req.initialFiles == [] && req.files == map["a" := x, "./a" := y]
    ensures IsRequested(None, req, req.files)
    ensures Storable(role, req.files.Keys) && !TextsAgree(role, req.files)
  {
    hide Full, Accepted, NormalPath, Split, MetaPath;
    var p, meta := role + ["a"], MetaPath(role);
    assert Accepted("a") && Full(role, "a") == p && Accepted("./a") && Full(role, "./a") == p by {
      AliasSplits();
      AliasPath(role, "a");
      AliasPath(role, "./a");
    }
    assert p != role && !(meta < p) && p != meta by {
      MetaIsNotA(role);
    }
    assert "a" != "./a";
  }

  lemma MetaIsNotA(role: Path)
    ensures role + ["a"] != role && !(MetaPath(role) < role + ["a"]) && role + ["a"] != MetaPath(role)
  {
    assert "a"[0] == 'a' && METADATA_FILE[0] == '.';
    assert (role + ["a"])[|role|] != MetaPath(role)[|role|];
  }

  lemma AliasSplits()
    ensures Split("a") == ["a"] && Split("./a") == [".", "a"]
  {
    SplitJoin(["a"]);
    SplitJoin([".", "a"]);
    assert [".", "a"][1..] == ["a"];
  }

  lemma AliasPath(role: Path, name: string)
    requires NormalPath(role) && name != "" && name[0] != '/' && (Split(name) == ["a"] || Split(name) == [".", "a"])
    ensures Accepted(name) && Full(role, name) == role + ["a"]
  {
    hide Split;
    assert [".", "a"][1..] == ["a"];
    assert NeverClimbsOut(["a"], 0);
    AcceptedIff(name);
    JoinStaysUnder(role, name);
  }

  /** The map has a file for every name but the metadata's, with the text of such a name, and no other. */
  ghost predicate HoldsExactly(m: Flat, role: Path, data: map<string, string>) {
    && (forall p :: p in m <==> p != MetaPath(role) && exists k :: k in data && Full(role, k) == p)
    && (forall p :: p in m ==> exists k :: k in data && Full(role, k) == p && m[p] == Text(data[k]))
  }

  /** A created role is coherent and its flat map holds exactly the requested files. */
  lemma CreatedRoleIsCoherent(t: Tree, t': Tree, role: Path, data: map<string, string>, description: string, now: int)
    requires WellFormed(t) && NormalPath(role) && CanMkdir(t, role) && role !in t.dirs
    requires Storable(role, data.Keys) && Created(t, t', role, data, description, now)
    ensures Coherent(t', role) && UntouchedOutside(MkdirAll(t, role), t', role)
    ensures HoldsExactly(FlatOf(t', role), role, data)
    ensures MetaPath(role) in t'.files && t'.files[MetaPath(role)] == Metadata(description, now, now)
  {
    MadeRoleIsEmpty(t, role);
    var made := MkdirAll(t, role);
    var filled: Tree :| Written(made, filled, role, data, data.Keys)
      && t' == filled.(files := filled.files[MetaPath(role) := Metadata(description, now, now)]);
    FilesAreBelow(role, data);
    FilledIsWellFormed(made, filled, role, data);
    MetadataFits(made, filled, role, data);
    WriteKeepsWellFormed(filled, MetaPath(role), Metadata(description, now, now));
    hide WellFormed, Writable, Full;
    assert t' == WriteFile(filled, MetaPath(role), Metadata(description, now, now));
    CreatedIsCovered(made, filled, t', role, data);
    CreatedFiles(made, filled, t', role, data);
  }

  lemma FilesAreBelow(role: Path, data: map<string, string>)
    requires NormalPath(role) && Writable(role, data.Keys)
    ensures forall k :: k in data ==> role < Full(role, k) && NormalPath(Full(role, k))
  {
    forall k | k in data
      ensures role < Full(role, k) && NormalPath(Full(role, k))
    {
      JoinStaysUnder(role, k);
    }
  }

  lemma CreatedIsCovered(t: Tree, filled: Tree, t': Tree, role: Path, data: map<string, string>)
    requires EmptyRole(t, role) && Written(t, filled, role, data, data.Keys)
    requires t'.dirs == filled.dirs && filled.files.Keys <= t'.files.Keys
    ensures forall d :: d in t'.dirs && role < d ==> Covered(t', d)
  {
    forall d | d in t'.dirs && role < d
      ensures Covered(t', d)
    {
      var k :| k in data && d < Full(role, k);
      CoveredBy(t', d, Full(role, k));
    }
  }

  lemma CreatedFiles(t: Tree, filled: Tree, t': Tree, role: Path, data: map<string, string>)
    requires EmptyRole(t, role) && Written(t, filled, role, data, data.Keys)
    requires forall k :: k in data ==> role < Full(role, k)
    requires MetaPath(role) in t'.files &&
      t' == filled.(files := filled.files[MetaPath(role) := t'.files[MetaPath(role)]])
    ensures UntouchedOutside(t, t', role)
    ensures HoldsExactly(FlatOf(t', role), role, data)
  {
    hide WellFormed, Full;
    forall d | d in t'.dirs && !(role < d)
      ensures d in t.dirs
    {
      AboveRoleIsThere(t, role, data, d);
    }
  }

  lemma AboveRoleIsThere(t: Tree, role: Path, data: map<string, string>, d: Path)
    requires EmptyRole(t, role) && !(role < d)
    requires forall k :: k in data ==> role < Full(role, k)
    ensures (exists k :: k in data && d < Full(role, k)) ==> d in t.dirs
  {
    assert forall k :: k in data && d < Full(role, k) ==> d <= role;
  }

  lemma FilledIsWellFormed(t: Tree, t': Tree, role: Path, data: map<string, string>)
    requires EmptyRole(t, role) && Written(t, t', role, data, data.Keys) && Writable(role, data.Keys)
    requires forall k :: k in data ==> role < Full(role, k) && NormalPath(Full(role, k))
    ensures WellFormed(t') && NormalPath(MetaPath(role))
  {
    assert Normal(METADATA_FILE) by { assert METADATA_FILE[0] == '.' && METADATA_FILE[1] == 'm'; }
    FilledIsClosed(t, t', role, data);
    hide Full, Writable, EmptyRole;
  }

  lemma FilledIsClosed(t: Tree, t': Tree, role: Path, data: map<string, string>)
    requires EmptyRole(t, role) && Written(t, t', role, data, data.Keys)
    requires forall k :: k in data ==> NormalPath(Full(role, k))
    ensures forall d, q :: d in t'.dirs && q <= d ==> q in t'.dirs
    ensures forall f, q :: f in t'.files && q < f ==> q in t'.dirs
    ensures [] in t'.dirs
    ensures forall d :: d in t'.dirs ==> NormalPath(d)
    ensures forall f :: f in t'.files ==> NormalPath(f)
  {
    hide Full;
    forall d | d in t'.dirs && d !in t.dirs
      ensures NormalPath(d)
    {
      var k :| k in data && d < Full(role, k);
    }
  }

}
