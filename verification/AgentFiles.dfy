/** From the role store to the container: which files of a role the agent finds, and with which text. */
module AgentFiles {
  import opened Text
  import opened Paths
  import opened FileSystem
  import opened RoleStore
  import opened RoleListing
  import opened SkillKeys
  import opened AgentPrompt
  import opened RoleReader
  import opened ReconcileSteps
  import opened Reconcile

  // What a container sees --------------------------------------------------------------------------

  ghost predicate DataShows(t: Store, ref: Ref, key: string, text: string) {
    ref in t.configMaps && key in t.configMaps[ref].data && t.configMaps[ref].data[key] == text
  }

  /** The file that a volume shows under a name. Secrets and claims hold no role files. */
  ghost predicate SourceShows(t: Store, ns: string, source: Source, name: string, text: string) {
    match source
    case FromConfigMap(ref) => DataShows(t, (ns, ref), name, text)
    case FromConfigMapItems(ref, items) =>
      exists it :: it in items && it.path == name && DataShows(t, (ns, ref), it.key, text)
    case _ => false
  }

  ghost predicate PodShows(t: Store, ns: string, pod: Pod, dir: string, name: string, text: string) {
    exists v :: v in pod.volumes && Mount(v.name, dir, "") in pod.mounts && SourceShows(t, ns, v.source, name, text)
  }

  /** The file `name` in the directory `dir` of the agent's container has this text. */
  ghost predicate AgentSees(t: Store, a: Agent, dir: string, name: string, text: string) {
    AgentRef(a) in t.deployments && PodShows(t, a.namespace, t.deployments[AgentRef(a)].pod, dir, name, text)
  }


  /** Each directory for role files shows one volume. */
  lemma MountedAt(c: Context, v: Volume, dir: string)
    requires v in DesiredPod(c).volumes && Mount(v.name, dir, "") in DesiredPod(c).mounts
    ensures dir == CONFIG_DIR ==> v.source == FromConfigMap(PromptRef(c.agent).1)
    ensures dir == SKILLS_DIR ==> v.source == FromConfigMapItems(SkillsRef(c.agent).1, ItemsOf(SkillsOf(c.rd)))
    ensures dir == ROLE_DIR ==> HasExtraFiles(c.rd) && v.source == FromConfigMap(RoleFilesRef(c.agent).1)
  {
    hide ItemsOf;
    assert CONFIG_DIR[7] == 'c' && SKILLS_DIR[8] == 'k' && ROLE_DIR[7] == 'r';
    assert "/workspace"[1] == 'w';
    assert "prompt"[0] == 'p' && "skills"[0] == 's' && "role-files"[0] == 'r' && "jwt-token"[0] == 'j';
    assert "gitea-token"[0] == 'g' && "workspace"[0] == 'w';
  }

  lemma StoredAfterReconcile(c: Context, s: Store)
    requires IsSkillsData(SkillsOf(c.rd), c.skillsData)
    ensures var t, a := Perform(Writes(c), c, s), c.agent;
      && AgentRef(a) in t.deployments && t.deployments[AgentRef(a)].pod == DesiredPod(c)
      && PromptRef(a) in t.configMaps && t.configMaps[PromptRef(a)].data == PromptData(a, c.rd)
      && SkillsRef(a) in t.configMaps && t.configMaps[SkillsRef(a)].data == c.skillsData
      && (HasExtraFiles(c.rd) ==>
            RoleFilesRef(a) in t.configMaps && t.configMaps[RoleFilesRef(a)].data == ExtraFilesOf(c.rd))
  {
    var t, ws := Perform(Writes(c), c, s), Writes(c);
    DeploymentIsCoherent(c, s);
    WritesEndWithDeployment(c);
    PerformSettles(ws, c, s);
    hide Writes, Perform, Settled, DesiredPod, PromptData, ConfigHash, StoredHash;
    SkillsAreStored(c, t);
    if HasExtraFiles(c.rd) {
      RoleFilesAreStored(c, t);
    }
  }

  /** What the three directories of role files show after a full reconcile. */
  lemma SeenAfterReconcile(c: Context, s: Store, name: string, text: string)
    requires IsSkillsData(SkillsOf(c.rd), c.skillsData)
    ensures var t := Perform(Writes(c), c, s); var data := PromptData(c.agent, c.rd);
      && (AgentSees(t, c.agent, CONFIG_DIR, name, text) <==> name in data && data[name] == text)
      && (AgentSees(t, c.agent, SKILLS_DIR, name, text) <==>
            name in SkillsOf(c.rd) && SkillKey(name) in c.skillsData && c.skillsData[SkillKey(name)] == text)
      && (AgentSees(t, c.agent, ROLE_DIR, name, text) <==>
            name in ExtraFilesOf(c.rd) && ExtraFilesOf(c.rd)[name] == text)
  {
    var t := Perform(Writes(c), c, s);
    StoredAfterReconcile(c, s);
    PromptShown(c, t, name, text);
    SkillShown(c, t, name, text);
    ExtraShown(c, t, name, text);
    hide Writes, Perform, PodShows, DesiredPod, PromptData, SkillKey;
  }

  lemma PromptShown(c: Context, t: Store, name: string, text: string)
    requires PromptRef(c.agent) in t.configMaps
    ensures PodShows(t, c.agent.namespace, DesiredPod(c), CONFIG_DIR, name, text) <==>
      DataShows(t, PromptRef(c.agent), name, text)
  {
    var pod, v := DesiredPod(c), Volume("prompt", FromConfigMap(PromptRef(c.agent).1));
    assert v in pod.volumes && Mount(v.name, CONFIG_DIR, "") in pod.mounts;
    forall v | v in pod.volumes && Mount(v.name, CONFIG_DIR, "") in pod.mounts
      ensures v.source == FromConfigMap(PromptRef(c.agent).1)
    {
      MountedAt(c, v, CONFIG_DIR);
    }
    hide DesiredPod, ItemsOf, DataShows;
  }

  lemma SkillShown(c: Context, t: Store, name: string, text: string)
    ensures PodShows(t, c.agent.namespace, DesiredPod(c), SKILLS_DIR, name, text) <==>
      name in SkillsOf(c.rd) && DataShows(t, SkillsRef(c.agent), SkillKey(name), text)
  {
    var pod, items := DesiredPod(c), ItemsOf(SkillsOf(c.rd));
    var v := Volume("skills", FromConfigMapItems(SkillsRef(c.agent).1, items));
    assert v in pod.volumes && Mount(v.name, SKILLS_DIR, "") in pod.mounts;
    forall v | v in pod.volumes && Mount(v.name, SKILLS_DIR, "") in pod.mounts
      ensures v.source == FromConfigMapItems(SkillsRef(c.agent).1, items)
    {
      MountedAt(c, v, SKILLS_DIR);
    }
    ItemsAreSkillItems(SkillsOf(c.rd));
    hide DesiredPod, ItemsOf, DataShows, SkillKey;
    if name in SkillsOf(c.rd) {
      assert Item(SkillKey(name), name) in items;
    }
  }

  lemma ExtraShown(c: Context, t: Store, name: string, text: string)
    ensures PodShows(t, c.agent.namespace, DesiredPod(c), ROLE_DIR, name, text) <==>
      HasExtraFiles(c.rd) && DataShows(t, RoleFilesRef(c.agent), name, text)
  {
    var pod, v := DesiredPod(c), Volume("role-files", FromConfigMap(RoleFilesRef(c.agent).1));
    assert HasExtraFiles(c.rd) ==> v in pod.volumes && Mount(v.name, ROLE_DIR, "") in pod.mounts;
    forall v | v in pod.volumes && Mount(v.name, ROLE_DIR, "") in pod.mounts
      ensures HasExtraFiles(c.rd) && v.source == FromConfigMap(RoleFilesRef(c.agent).1)
    {
      MountedAt(c, v, ROLE_DIR);
    }
    hide DesiredPod, ItemsOf, DataShows;
  }

  // Where the files of a role belong ---------------------------------------------------------------

  function DirFor(kind: Kind): string {
    match kind
    case Skill => SKILLS_DIR
    case Extra => ROLE_DIR
    case _ => CONFIG_DIR
  }

  function NameFor(kind: Kind, name: string): string {
    match kind
    case Soul => "SOUL.md"
    case Prompt => "PROMPT.md"
    case AgentsMd => "AGENTS.md"
    case _ => name
  }

  /** The prompt arrives with its placeholders replaced, everything else as it is. */
  function TextFor(a: Agent, kind: Kind, text: string): string {
    if kind == Prompt then Resolve(a, text) else text
  }

  /** Where the well-known files, a skill and an extra file belong, in any case of their letters. */
  lemma WhereFilesBelong(a: Agent, name: string, text: string)
    ensures
      var kind, lower := KindOf(name), ToLower(name);
      var where := (DirFor(kind), NameFor(kind, name), TextFor(a, kind, text));
      && (lower == "soul.md" ==> where == ("/agent/config", "SOUL.md", text))
      && (lower == "prompt.md" ==> where == ("/agent/config", "PROMPT.md", Resolve(a, text)))
      && (lower == "agents.md" ==> where == ("/agent/config", "AGENTS.md", text))
      && ("skills/" <= lower ==> where == ("/agent/skills", name, text))
      && (lower !in {"soul.md", "prompt.md", "agents.md"} && !("skills/" <= lower) ==>
            where == ("/agent/role", name, text))
      && |lower| == |name|
      && (forall i :: 0 <= i < |name| && 'A' <= name[i] <= 'Z' ==> lower[i] as int == name[i] as int + 32)
      && (forall i :: 0 <= i < |name| && (name[i] < 'A' || 'Z' < name[i] < '\U{80}') ==> lower[i] == name[i])
  {
    assert "soul.md"[0] != "prompt.md"[0] && "agents.md"[0] != "prompt.md"[0] && "soul.md"[0] != "agents.md"[0];
    assert "skills/"[1] != "soul.md"[1] && "skills/"[0] != "prompt.md"[0] && "skills/"[0] != "agents.md"[0];
  }

  /** The agent finds the file where it belongs, with its text. */
  ghost predicate Finds(t: Store, a: Agent, v: RolesVolume, m: Flat, dir: Path, p: Path)
    requires p in m && dir <= p
  {
    var name := NameOf(dir, p);
    var kind := KindOf(name);
    AgentSees(t, a, DirFor(kind), NameFor(kind, name), TextFor(a, kind, v.TextOf(m[p])))
  }

  /** Skill paths and the names of extra files give keys that a ConfigMap can have. */
  ghost predicate NamesFit(m: Flat, dir: Path) {
    forall p :: p in m && dir <= p ==>
      (KindOf(NameOf(dir, p)) == Skill ==> ValidKey(SkillKey(NameOf(dir, p)))) &&
      (KindOf(NameOf(dir, p)) == Extra ==> ValidKey(NameOf(dir, p)))
  }

  /** Well-known names that differ in case only have texts that come to the same. */
  ghost predicate NothingShadowed(a: Agent, v: RolesVolume, m: Flat, dir: Path) {
    forall p, q, kind :: kind in SINGLE && IsOfKind(m, dir, p, kind) && IsOfKind(m, dir, q, kind) ==>
      TextFor(a, kind, v.TextOf(m[p])) == TextFor(a, kind, v.TextOf(m[q]))
  }

  /** The well-known files that count are not empty. */
  ghost predicate NoneEmpty(v: RolesVolume, m: Flat, dir: Path) {
    forall p, kind :: kind in SINGLE && Counts(m, dir, p, kind) ==> v.TextOf(m[p]) != ""
  }

  /** The attempt's role data are those of the role's files. */
  ghost predicate ReadFrom(c: Context, v: RolesVolume, m: Flat, dir: Path) {
    && Below(m, dir) && c.rd.Some? && IsRoleData(c.rd.value, v, m, dir)
    && IsSkillsData(SkillsOf(c.rd), c.skillsData)
  }

  lemma CompletesIffNamesFit(c: Context, v: RolesVolume, m: Flat, dir: Path)
    requires ReadFrom(c, v, m, dir)
    ensures Completes(c) <==> NamesFit(m, dir)
  {
    hide KindOf, NameOf, ValidKey, SkillKey, IsSingle;
    if Completes(c) {
      forall p | p in m && dir <= p
        ensures KindOf(NameOf(dir, p)) == Skill ==> ValidKey(SkillKey(NameOf(dir, p)))
        ensures KindOf(NameOf(dir, p)) == Extra ==> ValidKey(NameOf(dir, p))
      {
        assert IsOfKind(m, dir, p, KindOf(NameOf(dir, p)));
      }
    }
  }

  // Which files arrive -----------------------------------------------------------------------------

  function SingleOf(rd: RoleData, kind: Kind): string
    requires kind in SINGLE
  {
    match kind
    case Soul => rd.soul
    case Prompt => rd.prompt
    case AgentsMd => rd.agentsMd
  }

  predicate Arrives(c: Context, kind: Kind, name: string, text: string)
    requires c.rd.Some?
  {
    match kind
    case Skill => SkillKey(name) in c.skillsData && c.skillsData[SkillKey(name)] == text
    case Extra => true
    case _ =>
      var single := SingleOf(c.rd.value, kind);
      single != "" && TextFor(c.agent, kind, single) == TextFor(c.agent, kind, text)
  }

  /** One file, told by the role data and the skills data of the attempt. */
  lemma FoundIff(c: Context, s: Store, v: RolesVolume, m: Flat, dir: Path, p: Path)
    requires ReadFrom(c, v, m, dir) && p in m && dir <= p
    ensures Finds(Perform(Writes(c), c, s), c.agent, v, m, dir, p) <==>
      Arrives(c, KindOf(NameOf(dir, p)), NameOf(dir, p), v.TextOf(m[p]))
  {
    hide Resolve, Writes, Perform, NameOf, KindOf, SkillKey, AgentSees, PromptData, IsSingle;
    var name, text := NameOf(dir, p), v.TextOf(m[p]);
    var kind := KindOf(name);
    assert IsOfKind(m, dir, p, kind);
    assert kind == Skill ==> name in SkillsOf(c.rd);
    assert kind == Extra ==> name in ExtraFilesOf(c.rd) && ExtraFilesOf(c.rd)[name] == text;
    SeenAfterReconcile(c, s, NameFor(kind, name), TextFor(c.agent, kind, text));
    PromptNames(c);
    hide IsOfKind, ReadFrom;
  }

  lemma PromptNames(c: Context)
    requires c.rd.Some?
    ensures var (data, rd) := (PromptData(c.agent, c.rd), c.rd.value);
      && ("SOUL.md" in data <==> rd.soul != "") && ("SOUL.md" in data ==> data["SOUL.md"] == rd.soul)
      && ("AGENTS.md" in data <==> rd.agentsMd != "") && ("AGENTS.md" in data ==> data["AGENTS.md"] == rd.agentsMd)
      && ("PROMPT.md" in data <==> rd.prompt != "")
      && ("PROMPT.md" in data ==> data["PROMPT.md"] == Resolve(c.agent, rd.prompt))
  {
    hide Resolve;
    assert "SOUL.md"[0] == 'S' && "AGENTS.md"[0] == 'A' && "PROMPT.md"[0] == 'P';
  }

  lemma OneCounts(text: string, v: RolesVolume, m: Flat, dir: Path, kind: Kind, p: Path)
    requires IsSingle(text, v, m, dir, kind) && IsOfKind(m, dir, p, kind)
    ensures exists q :: Counts(m, dir, q, kind) && text == v.TextOf(m[q])
    ensures forall q :: Counts(m, dir, q, kind) ==> text == v.TextOf(m[q])
  {
    hide NameOf, KindOf;
    var q :| Counts(m, dir, q, kind) && text == v.TextOf(m[q]);
    forall r | Counts(m, dir, r, kind)
      ensures r == q
    {
      if r != q {
        LessIsAsymmetric(NameOf(dir, r), NameOf(dir, q));
      }
    }
  }

  lemma SingleCounts(c: Context, v: RolesVolume, m: Flat, dir: Path, kind: Kind, p: Path)
    requires ReadFrom(c, v, m, dir) && kind in SINGLE && IsOfKind(m, dir, p, kind)
    ensures exists q :: Counts(m, dir, q, kind) && SingleOf(c.rd.value, kind) == v.TextOf(m[q])
    ensures forall q :: Counts(m, dir, q, kind) ==> SingleOf(c.rd.value, kind) == v.TextOf(m[q])
  {
    hide IsSingle, Counts, IsOfKind;
    OneCounts(SingleOf(c.rd.value, kind), v, m, dir, kind, p);
  }

  /** A full reconcile goes through and the agent then finds every file of the role store, with its text,
      if and only if every skill path and extra name gives a valid key, no well-known name is shadowed by the
      same name in other letters, none that counts is empty, and skills that share a key have one content. */
  lemma EveryFileReachesIff(c: Context, s: Store, v: RolesVolume, m: Flat, dir: Path)
    requires ReadFrom(c, v, m, dir)
    ensures Completes(c) && (forall p :: p in m ==> Finds(Perform(Writes(c), c, s), c.agent, v, m, dir, p))
      <==> NamesFit(m, dir) && NothingShadowed(c.agent, v, m, dir) && NoneEmpty(v, m, dir) &&
           KeysAgree(c.rd.value.skills)
  {
    CompletesIffNamesFit(c, v, m, dir);
    forall p | p in m
      ensures Finds(Perform(Writes(c), c, s), c.agent, v, m, dir, p) <==>
        Arrives(c, KindOf(NameOf(dir, p)), NameOf(dir, p), v.TextOf(m[p]))
    {
      FoundIff(c, s, v, m, dir, p);
    }
    hide Finds, NamesFit, Completes, Perform, Writes;
    AllArriveIff(c, v, m, dir);
  }

  lemma AllArriveIff(c: Context, v: RolesVolume, m: Flat, dir: Path)
    requires ReadFrom(c, v, m, dir)
    ensures (forall p :: p in m ==> Arrives(c, KindOf(NameOf(dir, p)), NameOf(dir, p), v.TextOf(m[p])))
      <==> NothingShadowed(c.agent, v, m, dir) && NoneEmpty(v, m, dir) && KeysAgree(c.rd.value.skills)
  {
    if NothingShadowed(c.agent, v, m, dir) && NoneEmpty(v, m, dir) && KeysAgree(c.rd.value.skills) {
      forall p | p in m
        ensures Arrives(c, KindOf(NameOf(dir, p)), NameOf(dir, p), v.TextOf(m[p]))
      {
        ArrivesWhenClear(c, v, m, dir, p);
      }
    }
    if forall p :: p in m ==> Arrives(c, KindOf(NameOf(dir, p)), NameOf(dir, p), v.TextOf(m[p])) {
      SinglesAreClear(c, v, m, dir);
      SkillsAgree(c, v, m, dir);
    }
  }

  lemma ArrivesWhenClear(c: Context, v: RolesVolume, m: Flat, dir: Path, p: Path)
    requires ReadFrom(c, v, m, dir) && p in m
    requires NothingShadowed(c.agent, v, m, dir) && NoneEmpty(v, m, dir) && KeysAgree(c.rd.value.skills)
    ensures Arrives(c, KindOf(NameOf(dir, p)), NameOf(dir, p), v.TextOf(m[p]))
  {
    var kind, name := KindOf(NameOf(dir, p)), NameOf(dir, p);
    assert IsOfKind(m, dir, p, kind);
    hide KindOf, NameOf, SkillKey, Resolve;
    if kind in SINGLE {
      SingleCounts(c, v, m, dir, kind, p);
      hide ReadFrom;
    } else if kind == Skill {
      assert name in SkillsOf(c.rd) && SkillsOf(c.rd)[name] == v.TextOf(m[p]);
    }
  }

  lemma SingleIsClear(c: Context, v: RolesVolume, m: Flat, dir: Path, p: Path, kind: Kind)
    requires ReadFrom(c, v, m, dir) && kind in SINGLE && IsOfKind(m, dir, p, kind)
    requires Arrives(c, kind, NameOf(dir, p), v.TextOf(m[p]))
    ensures TextFor(c.agent, kind, v.TextOf(m[p])) == TextFor(c.agent, kind, SingleOf(c.rd.value, kind))
    ensures Counts(m, dir, p, kind) ==> v.TextOf(m[p]) != ""
  {
    hide Resolve, KindOf, NameOf, IsRoleData, IsSkillsData, Counts, Below;
    var single, text := SingleOf(c.rd.value, kind), v.TextOf(m[p]);
    assert single != "" && TextFor(c.agent, kind, single) == TextFor(c.agent, kind, text);
    assert Counts(m, dir, p, kind) ==> single == text by {
      SingleCounts(c, v, m, dir, kind, p);
    }
  }

  lemma SinglesAreClear(c: Context, v: RolesVolume, m: Flat, dir: Path)
    requires ReadFrom(c, v, m, dir)
    requires forall p :: p in m ==> Arrives(c, KindOf(NameOf(dir, p)), NameOf(dir, p), v.TextOf(m[p]))
    ensures NothingShadowed(c.agent, v, m, dir) && NoneEmpty(v, m, dir)
  {
    forall p, kind | kind in SINGLE && IsOfKind(m, dir, p, kind)
      ensures TextFor(c.agent, kind, v.TextOf(m[p])) == TextFor(c.agent, kind, SingleOf(c.rd.value, kind))
      ensures Counts(m, dir, p, kind) ==> v.TextOf(m[p]) != ""
    {
      assert p in m && KindOf(NameOf(dir, p)) == kind;
      SingleIsClear(c, v, m, dir, p, kind);
    }
    hide KindOf, NameOf, TextFor, ReadFrom, Arrives, SingleOf;
  }

  lemma SkillsAgree(c: Context, v: RolesVolume, m: Flat, dir: Path)
    requires ReadFrom(c, v, m, dir)
    requires forall p :: p in m ==> Arrives(c, KindOf(NameOf(dir, p)), NameOf(dir, p), v.TextOf(m[p]))
    ensures KeysAgree(c.rd.value.skills)
  {
    hide KindOf, NameOf, SkillKey, IsSingle;
    var skills := c.rd.value.skills;
    forall n | n in skills
      ensures SkillKey(n) in c.skillsData && c.skillsData[SkillKey(n)] == skills[n]
    {
      var p :| p in m && IsOfKind(m, dir, p, Skill) && NameOf(dir, p) == n;
      assert Arrives(c, Skill, n, v.TextOf(m[p]));
    }
  }

  /** Nothing keeps the file from the agent: the file that counts under a well-known name is not empty and
      comes to the same text, and all skills with the key of a skill hold the same. */
  ghost predicate Clear(a: Agent, v: RolesVolume, m: Flat, dir: Path, p: Path)
    requires p in m && dir <= p
  {
    var kind := KindOf(NameOf(dir, p));
    match kind
    case Skill =>
      forall q :: IsOfKind(m, dir, q, Skill) && SkillKey(NameOf(dir, q)) == SkillKey(NameOf(dir, p)) ==>
        v.TextOf(m[q]) == v.TextOf(m[p])
    case Extra => true
    case _ =>
      forall q :: Counts(m, dir, q, kind) ==>
        v.TextOf(m[q]) != "" && TextFor(a, kind, v.TextOf(m[q])) == TextFor(a, kind, v.TextOf(m[p]))
  }

  /** Whatever the order of the loop over the skills, the agent finds a file if and only if it is clear. */
  lemma FileReachesIff(c: Context, s: Store, v: RolesVolume, m: Flat, dir: Path, p: Path)
    requires ReadFrom(c, v, m, dir) && p in m && dir <= p
    ensures (forall data :: IsSkillsData(SkillsOf(c.rd), data) ==>
               Finds(Perform(Writes(c), c.(skillsData := data), s), c.agent, v, m, dir, p))
      <==> Clear(c.agent, v, m, dir, p)
  {
    var kind, name := KindOf(NameOf(dir, p)), NameOf(dir, p);
    forall data | IsSkillsData(SkillsOf(c.rd), data)
      ensures Finds(Perform(Writes(c), c.(skillsData := data), s), c.agent, v, m, dir, p) <==>
        Arrives(c.(skillsData := data), kind, name, v.TextOf(m[p]))
    {
      var d := c.(skillsData := data);
      SameAgentSameWrites(STEPS, c, d);
      assert Writes(d) == Writes(c);
      FoundIff(d, s, v, m, dir, p);
    }
    hide Finds, Perform, Writes;
    AlwaysArrivesIff(c, v, m, dir, p);
  }

  lemma AlwaysArrivesIff(c: Context, v: RolesVolume, m: Flat, dir: Path, p: Path)
    requires ReadFrom(c, v, m, dir) && p in m && dir <= p
    ensures (forall data :: IsSkillsData(SkillsOf(c.rd), data) ==>
               Arrives(c.(skillsData := data), KindOf(NameOf(dir, p)), NameOf(dir, p), v.TextOf(m[p])))
      <==> Clear(c.agent, v, m, dir, p)
  {
    var kind, name, text := KindOf(NameOf(dir, p)), NameOf(dir, p), v.TextOf(m[p]);
    assert IsOfKind(m, dir, p, kind);
    if kind == Skill {
      SkillArrivesIff(c, v, m, dir, p);
    } else if kind in SINGLE {
      SingleArrivesIff(c, v, m, dir, p);
    } else {
      assert kind == Extra;
    }
  }

  lemma SingleArrivesIff(c: Context, v: RolesVolume, m: Flat, dir: Path, p: Path)
    requires ReadFrom(c, v, m, dir) && p in m && dir <= p && KindOf(NameOf(dir, p)) in SINGLE
    ensures (forall data :: IsSkillsData(SkillsOf(c.rd), data) ==>
               Arrives(c.(skillsData := data), KindOf(NameOf(dir, p)), NameOf(dir, p), v.TextOf(m[p])))
      <==> Clear(c.agent, v, m, dir, p)
  {
    var kind, name, text := KindOf(NameOf(dir, p)), NameOf(dir, p), v.TextOf(m[p]);
    assert IsOfKind(m, dir, p, kind) && c.rd.Some? && IsSkillsData(SkillsOf(c.rd), c.skillsData);
    assert c.(skillsData := c.skillsData) == c;
    hide *;
    SingleCounts(c, v, m, dir, kind, p);
    ClearIsArrival(c, v, m, dir, p);
    forall data
      ensures Arrives(c.(skillsData := data), kind, name, text) <==> Arrives(c, kind, name, text)
    {
      SingleArrivesAlike(c, data, kind, name, text);
    }
  }

  lemma SingleArrivesAlike(c: Context, data: map<string, string>, kind: Kind, name: string, text: string)
    requires c.rd.Some? && kind in SINGLE
    ensures Arrives(c.(skillsData := data), kind, name, text) <==> Arrives(c, kind, name, text)
  {
    hide Resolve;
  }

  lemma ClearIsArrival(c: Context, v: RolesVolume, m: Flat, dir: Path, p: Path)
    requires p in m && dir <= p && KindOf(NameOf(dir, p)) in SINGLE && c.rd.Some?
    requires var kind := KindOf(NameOf(dir, p));
      && (exists q :: Counts(m, dir, q, kind) && SingleOf(c.rd.value, kind) == v.TextOf(m[q]))
      && forall q :: Counts(m, dir, q, kind) ==> SingleOf(c.rd.value, kind) == v.TextOf(m[q])
    ensures Clear(c.agent, v, m, dir, p) <==>
      Arrives(c, KindOf(NameOf(dir, p)), NameOf(dir, p), v.TextOf(m[p]))
  {
    hide KindOf, NameOf, TextFor, IsOfKind;
  }

  lemma SkillArrivesIff(c: Context, v: RolesVolume, m: Flat, dir: Path, p: Path)
    requires ReadFrom(c, v, m, dir) && IsOfKind(m, dir, p, Skill)
    ensures (forall data :: IsSkillsData(SkillsOf(c.rd), data) ==>
               Arrives(c.(skillsData := data), Skill, NameOf(dir, p), v.TextOf(m[p])))
      <==> Clear(c.agent, v, m, dir, p)
  {
    hide KindOf, NameOf, SkillKey, Resolve, IsSingle, Below;
    var skills, name, text := SkillsOf(c.rd), NameOf(dir, p), v.TextOf(m[p]);
    assert name in skills && skills[name] == text;
    if Clear(c.agent, v, m, dir, p) {
      forall data | IsSkillsData(skills, data)
        ensures SkillKey(name) in data && data[SkillKey(name)] == text
      {
        var n :| n in skills && SkillKey(name) == SkillKey(n) && data[SkillKey(name)] == skills[n];
        assert exists q :: q in m && IsOfKind(m, dir, q, Skill) && NameOf(dir, q) == n;
      }
    }
    forall q | IsOfKind(m, dir, q, Skill) && SkillKey(NameOf(dir, q)) == SkillKey(name)
      ensures IsSkillsData(skills, c.skillsData[SkillKey(name) := v.TextOf(m[q])])
    {
      LastSkillWins(skills, c.skillsData, NameOf(dir, q));
    }
  }

  /** A put makes its file one that the next full reconcile brings to the agent with this text, whatever the
      order of its loop over the skills, if and only if all names of the role fit and the file is clear. */
  lemma PutReachesAgent(
    t: Tree, dir: Path, name: string, text: string, now: int, v: RolesVolume, c: Context, s: Store)
    requires Coherent(t, dir) && NormalPath(dir) && Accepted(name)
    requires JoinPath(dir, name) != MetaPath(dir) && !Conflicts(FlatOf(t, dir), dir, JoinPath(dir, name))
    requires v.tree == PutAt(t, dir, JoinPath(dir, name), text, now).0 && ReadFrom(c, v, FlatOf(v.tree, dir), dir)
    ensures var (p, m) := (JoinPath(dir, name), FlatOf(v.tree, dir));
      && dir < p && p in m && v.TextOf(m[p]) == text
      && (Completes(c) && (forall data :: IsSkillsData(SkillsOf(c.rd), data) ==>
            Finds(Perform(Writes(c), c.(skillsData := data), s), c.agent, v, m, dir, p))
          <==> NamesFit(m, dir) && Clear(c.agent, v, m, dir, p))
  {
    var p, m := JoinPath(dir, name), FlatOf(v.tree, dir);
    PutIsStored(t, dir, name, text, now);
    hide *;
    assert v.TextOf(m[p]) == text by {
      TextReadsAsItself(v, text);
    }
    FileReachesIff(c, s, v, m, dir, p);
    CompletesIffNamesFit(c, v, m, dir);
  }

  lemma TextReadsAsItself(v: RolesVolume, text: string)
    ensures v.TextOf(Text(text)) == text
  {}

  lemma PutIsStored(t: Tree, dir: Path, name: string, text: string, now: int)
    requires Coherent(t, dir) && NormalPath(dir) && Accepted(name)
    requires JoinPath(dir, name) != MetaPath(dir) && !Conflicts(FlatOf(t, dir), dir, JoinPath(dir, name))
    ensures var (p, m) := (JoinPath(dir, name), FlatOf(PutAt(t, dir, JoinPath(dir, name), text, now).0, dir));
      dir < p && p in m && m[p] == Text(text)
  {
    var p, t' := JoinPath(dir, name), PutAt(t, dir, JoinPath(dir, name), text, now).0;
    JoinStaysUnder(dir, name);
    hide PutAt, Coherent, Accepted, JoinPath;
    PutRefines(t, dir, p, text, now);
    assert p in FlatOf(t', dir);
  }

  // What keeps files away --------------------------------------------------------------------------

  lemma NestedNameHasSlash(dir: Path, p: Path)
    requires dir <= p && |p| >= |dir| + 2
    ensures '/' in NameOf(dir, p)
  {
    var tail := p[|dir|..];
    assert NameOf(dir, p)[|tail[0]|] == '/';
  }

  /** A file in a directory of its own that is not a skill blocks its role: no attempt ever reaches the
      Deployment. */
  lemma NestedFileBlocks(
    c: Context, attempts: seq<Attempt>, s: Store, v: RolesVolume, m: Flat, dir: Path, p: Path)
    requires ReadFrom(c, v, m, dir) && p in m && |p| >= |dir| + 2 && KindOf(NameOf(dir, p)) != Skill
    requires forall a :: a in attempts ==> a.done <= |Writes(c)|
    requires forall a :: a in attempts ==> SameInputs(c, a.c) && Admitted(Writes(c)[..a.done], a.c)
    ensures !NamesFit(m, dir) && Try(Writes(c), attempts, s).deployments == s.deployments
  {
    var name := NameOf(dir, p);
    NestedNameHasSlash(dir, p);
    if KindOf(name) in SINGLE {
      SingleHasNoSlash(name);
    }
    hide KindOf, NameOf, Writes, SameInputs, Admitted;
    assert !NamesFit(m, dir);
    CompletesIffNamesFit(c, v, m, dir);
    assert IsSkillsData(SkillsOf(c.rd), c.skillsData);
    hide *;
    InvalidKeyBlocks(c, attempts, s);
  }

  /** docs/notes.md is such a file; nothing else is wrong with a role that holds just that. */
  lemma NestedFileIsRefused(a: Agent, v: RolesVolume, dir: Path, text: string)
    ensures var m := map[dir + ["docs", "notes.md"] := Text(text)];
      !NamesFit(m, dir) && NothingShadowed(a, v, m, dir) && NoneEmpty(v, m, dir)
  {
    var p := dir + ["docs", "notes.md"];
    NestedNameHasSlash(dir, p);
    var name := NameOf(dir, p);
    assert p[|dir|..] == ["docs", "notes.md"];
    assert name[0] == 'd' && ToLower(name)[0] == 'd';
    assert "skills/"[0] == 's';
    if KindOf(name) in SINGLE {
      SingleHasNoSlash(name);
    }
    hide NameOf, KindOf, Resolve;
  }

  lemma {:induction false} KeyOf(path: string)
    ensures |path| <= |SkillKey(path)| <= 2 * |path|
    ensures forall ch :: ch in SkillKey(path) ==> ch == '_' || (ch in path && ch != '/')
    ensures path != "" && path[0] != '/' ==> SkillKey(path)[0] == path[0]
  {
    if path != "" {
      KeyOf(path[1..]);
    }
  }

  /** skills/a__b and skills/a/b share a key; one content never arrives, though nothing else is wrong. */
  lemma SharedKeyHidesSkill(a: Agent, v: RolesVolume, dir: Path, x: string, y: string, m: Flat, rd: RoleData)
    requires x != y && m == map[dir + ["skills", "a__b"] := Text(x), dir + ["skills", "a", "b"] := Text(y)]
    requires IsRoleData(rd, v, m, dir)
    ensures NamesFit(m, dir) && NothingShadowed(a, v, m, dir) && NoneEmpty(v, m, dir) && !KeysAgree(rd.skills)
  {
    hide *;
    var p, q := dir + ["skills", "a__b"], dir + ["skills", "a", "b"];
    SharedKeyNames(dir, p, q);
    assert m[p] == Text(x) && m[q] == Text(y) && forall r :: r in m ==> r == p || r == q;
    HiddenSkill(a, v, dir, x, y, m, rd, p, q);
  }

  lemma HiddenSkill(
    a: Agent, v: RolesVolume, dir: Path, x: string, y: string, m: Flat, rd: RoleData, p: Path, q: Path)
    requires x != y && p in m && q in m && m[p] == Text(x) && m[q] == Text(y)
    requires dir <= p && dir <= q && NameOf(dir, p) == "skills/a__b" && NameOf(dir, q) == "skills/a/b"
    requires (forall r :: r in m ==> r == p || r == q) && IsRoleData(rd, v, m, dir)
    ensures NamesFit(m, dir) && NothingShadowed(a, v, m, dir) && NoneEmpty(v, m, dir) && !KeysAgree(rd.skills)
  {
    hide *;
    SharedKeyLosesContent();
    PlainSkill(NameOf(dir, p));
    PlainSkill(NameOf(dir, q));
    TwoSkills(a, v, m, dir, p, q);
    TextReadsAsItself(v, x);
    TextReadsAsItself(v, y);
    SharedKeyDisagrees(rd, v, m, dir, p, q);
  }

  lemma TwoSkills(a: Agent, v: RolesVolume, m: Flat, dir: Path, p: Path, q: Path)
    requires p in m && q in m && dir <= p && dir <= q && forall r :: r in m ==> r == p || r == q
    requires KindOf(NameOf(dir, p)) == Skill && ValidKey(SkillKey(NameOf(dir, p)))
    requires KindOf(NameOf(dir, q)) == Skill && ValidKey(SkillKey(NameOf(dir, q)))
    ensures IsOfKind(m, dir, p, Skill) && IsOfKind(m, dir, q, Skill)
    ensures NamesFit(m, dir) && NothingShadowed(a, v, m, dir) && NoneEmpty(v, m, dir)
  {
    hide NameOf, KindOf, SkillKey, ValidKey;
    OnlySkills(a, v, m, dir);
  }

  lemma SharedKeyNames(dir: Path, p: Path, q: Path)
    requires p == dir + ["skills", "a__b"] && q == dir + ["skills", "a", "b"]
    ensures dir <= p && dir <= q && p != q
    ensures NameOf(dir, p) == "skills/a__b" && NameOf(dir, q) == "skills/a/b"
  {
    assert p[|dir|..] == ["skills", "a__b"] && q[|dir|..] == ["skills", "a", "b"];
    assert ["skills", "a", "b"][1..] == ["a", "b"] && ["skills", "a__b"][1..] == ["a__b"] && ["a", "b"][1..] == ["b"];
    assert Join(["a", "b"]) == "a/b";
  }

  lemma SharedKeyDisagrees(rd: RoleData, v: RolesVolume, m: Flat, dir: Path, p: Path, q: Path)
    requires IsRoleData(rd, v, m, dir) && IsOfKind(m, dir, p, Skill) && IsOfKind(m, dir, q, Skill)
    requires SkillKey(NameOf(dir, p)) == SkillKey(NameOf(dir, q)) && v.TextOf(m[p]) != v.TextOf(m[q])
    ensures !KeysAgree(rd.skills)
  {
    hide NameOf, KindOf, SkillKey, IsSingle;
    assert rd.skills[NameOf(dir, p)] == v.TextOf(m[p]) && rd.skills[NameOf(dir, q)] == v.TextOf(m[q]);
  }

  lemma OnlySkills(a: Agent, v: RolesVolume, m: Flat, dir: Path)
    requires forall p :: p in m && dir <= p ==> KindOf(NameOf(dir, p)) == Skill
    ensures NothingShadowed(a, v, m, dir) && NoneEmpty(v, m, dir)
  {
    hide NameOf, KindOf;
  }

  lemma PlainSkill(name: string)
    requires name == "skills/a__b" || name == "skills/a/b"
    ensures KindOf(name) == Skill && ValidKey(SkillKey(name))
  {
    KeyOf(name);
    hide SkillKey;
    assert SkillKey(name)[0] == 's';
    var lower := ToLower(name);
    assert forall i :: 0 <= i < 7 ==> lower[i] == "skills/"[i];
  }
}
