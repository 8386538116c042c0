/** The operator's thirteen reconcile steps over the cluster, each made of its single writes, so that a
    reconcile can fail between any two of them and be tried again; which writes disturb which, what the
    cluster refuses, and what is left after attempts that failed at any of them. */
module ReconcileSteps {
  import opened Wrappers
  import opened Text
  import opened SkillKeys
  import opened AgentPrompt

  type Ref = (string, string)  // namespace and name

  datatype ConfigMap = ConfigMap(data: map<string, string>, annotations: map<string, string>)

  datatype Claim = Claim(size: string, class_: Option<string>)

  datatype Binding = Binding(kind: string, role: string)

  datatype Source =
    | FromConfigMap(name: string)
    | FromConfigMapItems(name: string, items: seq<Item>)
    | FromSecret(name: string)
    | FromClaim(name: string)

  datatype Volume = Volume(name: string, source: Source)

  datatype Mount = Mount(volume: string, path: string, subPath: string)

  datatype Pod = Pod(account: string, env: seq<(string, string)>, volumes: seq<Volume>, mounts: seq<Mount>)

  datatype Deployment = Deployment(replicas: int, roleLabel: string, annotations: map<string, string>, pod: Pod)

  /** The objects of the cluster and of Gitea that a reconcile touches; namespaces are only looked up. */
  datatype Store = Store(
    users: set<string>,
    agentUser: map<Ref, string>,
    collaborators: map<(string, string), string>,
    secrets: map<Ref, string>,
    configMaps: map<Ref, ConfigMap>,
    claims: map<Ref, Claim>,
    services: set<Ref>,
    accounts: set<Ref>,
    bindings: map<Ref, Binding>,
    namespaces: set<string>,
    deployments: map<Ref, Deployment>)

  /** What a reconcile is given: the agent, its role's files, the operator's settings, the tokens this
      attempt would issue, the skills data its loop over the skills comes to, and
      whether the Deployment step can read the stored prompt back. `digest` stands for the truncated SHA-256. */
  datatype Context = Context(
    agent: Agent,
    rd: Option<RoleData>,
    digest: string -> string,
    defaultClass: string,
    env: seq<(string, string)>,
    giteaToken: string,
    jwt: string,
    skillsData: map<string, string>,
    promptReadable: bool)

  const HASH_ANNOTATION := "aidevops.io/config-hash"

  /** The single writes, in the source's order of steps. */
  datatype Write =
    | GiteaUser
    | UserStatus
    | GiteaToken
    | RepoAccess(repo: string)
    | JwtSecret
    | PromptConfigMap
    | SkillsConfigMap
    | RoleFilesConfigMap
    | WorkspaceClaim
    | AgentService
    | AgentAccount
    | HomeBinding
    | ExtraBinding(ns: string)
    | AgentDeployment

  function AgentRef(a: Agent): Ref { (a.namespace, "agent-" + a.name) }

  function PromptRef(a: Agent): Ref { (a.namespace, "agent-" + a.name + "-prompt") }

  function SkillsRef(a: Agent): Ref { (a.namespace, "agent-" + a.name + "-skills") }

  function RoleFilesRef(a: Agent): Ref { (a.namespace, "agent-" + a.name + "-role-files") }

  function ClaimRef(a: Agent): Ref { (a.namespace, "agent-" + a.name + "-workspace") }

  function JwtRef(a: Agent): Ref { (a.namespace, "agent-" + a.name + "-jwt-token") }

  function TokenRef(a: Agent): Ref { (a.namespace, "role-" + a.role + "-gitea-token") }

  function ExtraRef(a: Agent, ns: string): Ref { (ns, "agent-" + a.name + "-" + ns) }

  function Username(a: Agent): string { "role-" + a.role }

  function ExtraFilesOf(rd: Option<RoleData>): map<string, string> {
    if rd.Some? then rd.value.extraFiles else map[]
  }

  function HasExtraFiles(rd: Option<RoleData>): bool { ExtraFilesOf(rd) != map[] }

  /** owner/name with both parts present. */
  predicate IsRepo(repo: string) {
    exists i :: 0 < i < |repo| - 1 && repo[i] == '/' && '/' !in repo[..i]
  }

  function Permission(a: Agent): string {
    if exists p :: p in a.permissions && ToLower(p) in {"write", "review", "merge"} then "write" else "read"
  }

  function RepoWrites(repos: seq<string>): seq<Write> {
    if repos == [] then []
    else (if IsRepo(repos[0]) then [RepoAccess(repos[0])] else []) + RepoWrites(repos[1..])
  }

  function BindingWrites(namespaces: seq<string>): seq<Write> {
    if namespaces == [] then [] else [ExtraBinding(namespaces[0])] + BindingWrites(namespaces[1..])
  }

  const STEPS := 13

  /** The writes of each step of ReconcileAll; fetching the role data writes nothing. */
  function StepWrites(i: nat, c: Context): seq<Write>
    requires i < STEPS
  {
    match i
    case 0 => [GiteaUser, UserStatus]
    case 1 => [GiteaToken]
    case 2 => RepoWrites(c.agent.repos)
    case 3 => [JwtSecret]
    case 4 => []
    case 5 => [PromptConfigMap]
    case 6 => [SkillsConfigMap]
    case 7 => if HasExtraFiles(c.rd) then [RoleFilesConfigMap] else []
    case 8 => [WorkspaceClaim]
    case 9 => [AgentService]
    case 10 => [AgentAccount]
    case 11 => [HomeBinding] + BindingWrites(c.agent.namespaceAccess)
    case _ => [AgentDeployment]
  }

  function WritesUpTo(n: nat, c: Context): seq<Write>
    requires n <= STEPS
  {
    if n == 0 then [] else WritesUpTo(n - 1, c) + StepWrites(n - 1, c)
  }

  /** The writes of a whole reconcile, in order. */
  function Writes(c: Context): seq<Write> { WritesUpTo(STEPS, c) }

  function Lookup<K, V>(m: map<K, V>, k: K): Option<V> {
    if k in m then Some(m[k]) else None
  }

  function CreateIfMissing<K, V>(m: map<K, V>, k: K, v: V): map<K, V> {
    if k in m then m else m[k := v]
  }

  function SetData(
    m: map<Ref, ConfigMap>, ref: Ref, data: map<string, string>, notes: map<string, string>): map<Ref, ConfigMap>
  {
    m[ref := ConfigMap(data, (if ref in m then m[ref].annotations else map[]) + notes)]
  }

  function SkillsOf(rd: Option<RoleData>): map<string, string> {
    if rd.Some? then rd.value.skills else map[]
  }

  /** The skills volume's items: one for each path, sorted. */
  ghost function ItemsOf(skills: map<string, string>): seq<Item> {
    var paths := SortedList(skills.Keys);
    seq(|paths|, i requires 0 <= i < |paths| => Item(SkillKey(paths[i]), paths[i]))
  }

  lemma ItemsAreSkillItems(skills: map<string, string>)
    ensures AreSkillItems(skills, ItemsOf(skills))
  {
    var paths, items := SortedList(skills.Keys), ItemsOf(skills);
    forall p | p in skills
      ensures Item(SkillKey(p), p) in items
    {
      assert p in paths;
      var i :| 0 <= i < |paths| && paths[i] == p;
      assert items[i] == Item(SkillKey(p), p);
    }
    forall it | it in items
      ensures it.path in skills && it.key == SkillKey(it.path)
    {
      var i :| 0 <= i < |items| && items[i] == it;
      assert paths[i] in paths;
    }
  }

  const CONFIG_DIR := "/agent/config"
  const SKILLS_DIR := "/agent/skills"
  const ROLE_DIR := "/agent/role"

  /** Where the container mounts its volumes. */
  function Mounts(extraFiles: bool): seq<Mount> {
    [Mount("prompt", CONFIG_DIR, ""),
     Mount("skills", SKILLS_DIR, ""),
     Mount("jwt-token", "/agent/secrets/jwt-token", "token"),
     Mount("gitea-token", "/agent/secrets/gitea-token", "token"),
     Mount("workspace", "/workspace", "")] + (if extraFiles then [Mount("role-files", ROLE_DIR, "")] else [])
  }

  ghost function DesiredPod(c: Context): Pod {
    var a := c.agent;
    Pod(AgentRef(a).1, c.env,
        [Volume("prompt", FromConfigMap(PromptRef(a).1)),
         Volume("skills", FromConfigMapItems(SkillsRef(a).1, ItemsOf(SkillsOf(c.rd)))),
         Volume("jwt-token", FromSecret(JwtRef(a).1)),
         Volume("gitea-token", FromSecret(TokenRef(a).1)),
         Volume("workspace", FromClaim(ClaimRef(a).1))] +
        (if HasExtraFiles(c.rd) then [Volume("role-files", FromConfigMap(RoleFilesRef(a).1))] else []),
        Mounts(HasExtraFiles(c.rd)))
  }

  function Replicas(a: Agent): int { if a.paused then 0 else 1 }

  /** The hash that the Deployment step reads back from the stored prompt. */
  function StoredHash(s: Store, a: Agent): string {
    if PromptRef(a) in s.configMaps && HASH_ANNOTATION in s.configMaps[PromptRef(a)].annotations
    then s.configMaps[PromptRef(a)].annotations[HASH_ANNOTATION] else ""
  }

  /** If the prompt cannot be read the step goes on with an empty hash. */
  function HashFor(c: Context, s: Store): string {
    if c.promptReadable then StoredHash(s, c.agent) else ""
  }

  function DesiredClaim(c: Context): Claim {
    Claim(if c.agent.storageSize != "" then c.agent.storageSize else "1Gi",
          if c.agent.storageClass != "" then Some(c.agent.storageClass)
          else if c.defaultClass != "" then Some(c.defaultClass) else None)
  }

  function BoundRole(a: Agent): string {
    if a.rbacRole != "" then a.rbacRole else "agent-readonly-role"
  }

  /** An existing Deployment keeps its labels and its other annotations. */
  ghost function DeploymentFor(c: Context, prior: Option<Deployment>, hash: string): Deployment {
    match prior
    case Some(d) => Deployment(Replicas(c.agent), d.roleLabel, d.annotations[HASH_ANNOTATION := hash], DesiredPod(c))
    case None => Deployment(Replicas(c.agent), c.agent.role, map[HASH_ANNOTATION := hash], DesiredPod(c))
  }

  /** One write, completed. */
  ghost function Do(w: Write, c: Context, s: Store): Store {
    var a := c.agent;
    match w
    case GiteaUser => s.(users := s.users + {Username(a)})
    case UserStatus => s.(agentUser := s.agentUser[AgentRef(a) := Username(a)])
    case GiteaToken => s.(secrets := CreateIfMissing(s.secrets, TokenRef(a), c.giteaToken))
    case RepoAccess(repo) => s.(collaborators := s.collaborators[(repo, Username(a)) := Permission(a)])
    case JwtSecret => s.(secrets := CreateIfMissing(s.secrets, JwtRef(a), c.jwt))
    case PromptConfigMap =>
      var data := PromptData(a, c.rd);
      s.(configMaps := SetData(s.configMaps, PromptRef(a), data, map[HASH_ANNOTATION := ConfigHash(c.digest, data)]))
    case SkillsConfigMap => s.(configMaps := SetData(s.configMaps, SkillsRef(a), c.skillsData, map[]))
    case RoleFilesConfigMap =>
      s.(configMaps := SetData(s.configMaps, RoleFilesRef(a), ExtraFilesOf(c.rd), map[]))
    case WorkspaceClaim => s.(claims := CreateIfMissing(s.claims, ClaimRef(a), DesiredClaim(c)))
    case AgentService => s.(services := s.services + {AgentRef(a)})
    case AgentAccount => s.(accounts := s.accounts + {AgentRef(a)})
    case HomeBinding => s.(bindings := CreateIfMissing(s.bindings, AgentRef(a), Binding("ClusterRole", BoundRole(a))))
    case ExtraBinding(ns) =>
      if ns in s.namespaces
      then s.(bindings := CreateIfMissing(s.bindings, ExtraRef(a, ns), Binding("Role", BoundRole(a)))) else s
    case AgentDeployment =>
      s.(deployments := s.deployments[AgentRef(a) :=
           DeploymentFor(c, Lookup(s.deployments, AgentRef(a)), HashFor(c, s))])
  }

  // Refused writes -------------------------------------------------------------------------------

  /** Kubernetes' rule for the keys of a ConfigMap (IsConfigMapKey in its API validation). */
  predicate ValidKey(key: string) {
    && 0 < |key| <= 253 && key != "." && !(".." <= key)
    && forall ch :: ch in key ==>
         'a' <= ch <= 'z' || 'A' <= ch <= 'Z' || '0' <= ch <= '9' || ch == '-' || ch == '.' || ch == '_'
  }

  predicate KeysFit(data: map<string, string>) {
    forall key :: key in data ==> ValidKey(key)
  }

  /** The cluster refuses a ConfigMap with an invalid key. */
  predicate Refused(w: Write, c: Context) {
    match w
    case PromptConfigMap => !KeysFit(PromptData(c.agent, c.rd))
    case SkillsConfigMap => !KeysFit(c.skillsData)
    case RoleFilesConfigMap => !KeysFit(ExtraFilesOf(c.rd))
    case _ => false
  }

  /** Whether a reconcile that meets no fault goes through. */
  predicate Completes(c: Context) {
    KeysFit(c.skillsData) && KeysFit(ExtraFilesOf(c.rd))
  }

  ghost function Perform(ws: seq<Write>, c: Context, s: Store): Store
    decreases |ws|
  {
    if ws == [] then s else Do(ws[|ws| - 1], c, Perform(ws[..|ws| - 1], c, s))
  }

  lemma PromptKeysFit(agent: Agent, rd: Option<RoleData>)
    ensures KeysFit(PromptData(agent, rd))
  {
    hide Resolve;
    assert forall key :: key in PromptData(agent, rd) ==> key in {"SOUL.md", "AGENTS.md", "PROMPT.md"};
    assert "SOUL.md"[0] == 'S' && "AGENTS.md"[0] == 'A' && "PROMPT.md"[0] == 'P';
  }

  // Settled writes ------------------------------------------------------------------------------

  /** Doing the write again would change nothing. */
  ghost predicate Settled(w: Write, c: Context, s: Store) {
    Do(w, c, s) == s
  }

  /** The attempts differ in the tokens they would issue, and in nothing else. */
  ghost predicate SamePlan(c: Context, d: Context) {
    c.(giteaToken := "", jwt := "") == d.(giteaToken := "", jwt := "")
  }

  ghost predicate SameButTokens(s: Store, t: Store) {
    s.(secrets := map[]) == t.(secrets := map[]) && s.secrets.Keys == t.secrets.Keys
  }

  lemma RefsDiffer(a: Agent)
    ensures PromptRef(a) != SkillsRef(a) && PromptRef(a) != RoleFilesRef(a) && SkillsRef(a) != RoleFilesRef(a)
    ensures JwtRef(a) != TokenRef(a)
  {
    var p, k, r := PromptRef(a).1, SkillsRef(a).1, RoleFilesRef(a).1;
    assert |p| == |k| == |r| - 4;
    assert p[|p| - 1] == 't' && k[|k| - 1] == 's';
    assert JwtRef(a).1[0] == 'a' && TokenRef(a).1[0] == 'r';
  }

  lemma SetDataTwice(m: map<Ref, ConfigMap>, ref: Ref, data: map<string, string>, notes: map<string, string>)
    ensures SetData(SetData(m, ref, data, notes), ref, data, notes) == SetData(m, ref, data, notes)
  {
    var before := if ref in m then m[ref].annotations else map[];
    assert (before + notes) + notes == before + notes;
  }

  lemma DoSettles(w: Write, c: Context, s: Store)
    ensures Settled(w, c, Do(w, c, s))
  {
    if WritesConfigMap(w) {
      ConfigMapSettles(w, c, s);
    } else if w.AgentDeployment? {
      DeploymentSettles(c, s);
    } else {
      SimpleSettles(w, c, s);
    }
  }

  lemma ConfigMapSettles(w: Write, c: Context, s: Store)
    requires WritesConfigMap(w)
    ensures Settled(w, c, Do(w, c, s))
  {
    var (ref, data, notes) := Target(w, c);
    ConfigMapDo(w, c, s);
    ConfigMapDo(w, c, Do(w, c, s));
    hide Do, Target, SetData;
    SetDataTwice(s.configMaps, ref, data, notes);
  }

  lemma ConfigMapDo(w: Write, c: Context, s: Store)
    requires WritesConfigMap(w)
    ensures var (ref, data, notes) := Target(w, c);
      Do(w, c, s) == s.(configMaps := SetData(s.configMaps, ref, data, notes))
  {
    hide SetData, PromptData, ConfigHash;
  }

  lemma DeploymentSettles(c: Context, s: Store)
    ensures Settled(AgentDeployment, c, Do(AgentDeployment, c, s))
  {
    var ref, s' := AgentRef(c.agent), Do(AgentDeployment, c, s);
    var hash := HashFor(c, s);
    assert HashFor(c, s') == hash;
    var d := s'.deployments[ref];
    assert d == DeploymentFor(c, Lookup(s.deployments, ref), hash);
    hide HashFor, StoredHash, DesiredPod;
    assert DeploymentFor(c, Some(d), hash) == d by {
      assert d.annotations[HASH_ANNOTATION := hash] == d.annotations;
    }
    hide DeploymentFor;
    assert s'.deployments[ref := d] == s'.deployments;
  }

  lemma SimpleSettles(w: Write, c: Context, s: Store)
    requires !WritesConfigMap(w) && !w.AgentDeployment?
    ensures Settled(w, c, Do(w, c, s))
  {
    hide DesiredPod, StoredHash, DesiredClaim, BoundRole, Permission;
  }

  lemma SettledForAnyToken(w: Write, c: Context, d: Context, s: Store)
    requires SamePlan(c, d) && Settled(w, c, s)
    ensures Settled(w, d, s)
  {
    SamePlanPod(c, d);
  }

  lemma SamePlanPod(c: Context, d: Context)
    requires SamePlan(c, d)
    ensures DesiredPod(c) == DesiredPod(d) && c.agent == d.agent && c.rd == d.rd && c.digest == d.digest
    ensures c.skillsData == d.skillsData && DesiredClaim(c) == DesiredClaim(d)
  {}

  predicate WritesConfigMap(w: Write) {
    w.PromptConfigMap? || w.SkillsConfigMap? || w.RoleFilesConfigMap?
  }

  /** The reference, data and annotations that a ConfigMap write is about. */
  ghost function Target(w: Write, c: Context): (Ref, map<string, string>, map<string, string>)
    requires WritesConfigMap(w)
  {
    var a := c.agent;
    match w
    case PromptConfigMap =>
      var data := PromptData(a, c.rd);
      (PromptRef(a), data, map[HASH_ANNOTATION := ConfigHash(c.digest, data)])
    case SkillsConfigMap => (SkillsRef(a), c.skillsData, map[])
    case RoleFilesConfigMap => (RoleFilesRef(a), ExtraFilesOf(c.rd), map[])
  }

  ghost predicate Holds(m: map<Ref, ConfigMap>, ref: Ref, data: map<string, string>, notes: map<string, string>) {
    ref in m && m[ref].data == data && m[ref].annotations + notes == m[ref].annotations
  }

  lemma ConfigMapSettledIff(w: Write, c: Context, s: Store)
    requires WritesConfigMap(w)
    ensures var (ref, data, notes) := Target(w, c); Settled(w, c, s) <==> Holds(s.configMaps, ref, data, notes)
  {
    var (ref, data, notes) := Target(w, c);
    assert Do(w, c, s) == s.(configMaps := SetData(s.configMaps, ref, data, notes));
    hide Do;
    var m := SetData(s.configMaps, ref, data, notes);
    if m == s.configMaps {
      assert m[ref] == s.configMaps[ref];
    }
    if Holds(s.configMaps, ref, data, notes) {
      assert m[ref] == s.configMaps[ref];
      assert m == s.configMaps;
    }
  }

  lemma ConfigMapsStaySettled(w: Write, x: Write, c: Context, s: Store)
    requires Settled(w, c, s) && WritesConfigMap(w)
    ensures Settled(w, c, Do(x, c, s))
  {
    hide Do, Settled, Target, Holds;
    if x == w {
      DoSettles(w, c, s);
    } else {
      ConfigMapSettledIff(w, c, s);
      ConfigMapSettledIff(w, c, Do(x, c, s));
      var (ref, data, notes) := Target(w, c);
      OtherConfigMapsStay(w, x, c, s);
      HoldsForSame(s.configMaps, Do(x, c, s).configMaps, ref, data, notes);
    }
  }

  lemma HoldsForSame(
    m: map<Ref, ConfigMap>, n: map<Ref, ConfigMap>, ref: Ref, data: map<string, string>, notes: map<string, string>)
    requires Lookup(m, ref) == Lookup(n, ref)
    ensures Holds(m, ref, data, notes) <==> Holds(n, ref, data, notes)
  {}

  lemma OtherConfigMapsStay(w: Write, x: Write, c: Context, s: Store)
    requires WritesConfigMap(w) && x != w
    ensures Lookup(Do(x, c, s).configMaps, Target(w, c).0) == Lookup(s.configMaps, Target(w, c).0)
  {
    RefsDiffer(c.agent);
    if WritesConfigMap(x) {
      ConfigMapDo(x, c, s);
    } else {
      OthersKeepConfigMaps(x, c, s);
    }
    hide Do, PromptData, ConfigHash, PromptRef, SkillsRef, RoleFilesRef;
  }

  lemma OthersKeepConfigMaps(x: Write, c: Context, s: Store)
    requires !WritesConfigMap(x)
    ensures Do(x, c, s).configMaps == s.configMaps
  {
    hide DesiredPod, HashFor, DeploymentFor, DesiredClaim;
  }

  lemma DeploymentStaysSettled(x: Write, c: Context, s: Store)
    requires Settled(AgentDeployment, c, s) && !x.PromptConfigMap?
    ensures Settled(AgentDeployment, c, Do(x, c, s))
  {
    if x.AgentDeployment? {
      DoSettles(x, c, s);
    } else {
      DeploymentIsKept(x, c, s);
      DeploymentSettledIff(c, s);
      DeploymentSettledIff(c, Do(x, c, s));
      hide Do, Settled, DeploymentFor, StoredHash;
    }
  }

  lemma DeploymentSettledIff(c: Context, s: Store)
    ensures Settled(AgentDeployment, c, s) <==>
      AgentRef(c.agent) in s.deployments &&
      s.deployments[AgentRef(c.agent)] == DeploymentFor(c, Some(s.deployments[AgentRef(c.agent)]), HashFor(c, s))
  {
    hide DeploymentFor, HashFor;
    var ref := AgentRef(c.agent);
    var d := DeploymentFor(c, Lookup(s.deployments, ref), HashFor(c, s));
    assert s.deployments[ref := d] == s.deployments ==> s.deployments[ref := d][ref] == d;
    assert ref in s.deployments && s.deployments[ref] == d ==> s.deployments[ref := d] == s.deployments;
  }

  lemma DeploymentIsKept(x: Write, c: Context, s: Store)
    requires !x.PromptConfigMap? && !x.AgentDeployment?
    ensures Do(x, c, s).deployments == s.deployments && StoredHash(Do(x, c, s), c.agent) == StoredHash(s, c.agent)
  {
    OtherConfigMapsStay(PromptConfigMap, x, c, s);
    DeploymentsAreKept(x, c, s);
    hide Do, PromptData, ConfigHash;
  }

  lemma DeploymentsAreKept(x: Write, c: Context, s: Store)
    requires !x.AgentDeployment?
    ensures Do(x, c, s).deployments == s.deployments
  {
    hide DesiredPod, DeploymentFor, DesiredClaim, SetData, PromptData, ConfigHash, HashFor;
  }

  /** A write leaves every settled write settled, but for the prompt under a Deployment. */
  lemma OthersStaySettled(w: Write, x: Write, c: Context, s: Store)
    requires Settled(w, c, s) && !(w.AgentDeployment? && x.PromptConfigMap?)
    ensures Settled(w, c, Do(x, c, s))
  {
    if WritesConfigMap(w) {
      ConfigMapsStaySettled(w, x, c, s);
    } else if w.AgentDeployment? {
      DeploymentStaysSettled(x, c, s);
    } else if WritesConfigMap(x) || x.AgentDeployment? {
      SimpleIgnoresOthers(w, x, c, s);
    } else {
      SimpleStaysSettled(w, x, c, s);
    }
  }

  lemma SimpleIgnoresOthers(w: Write, x: Write, c: Context, s: Store)
    requires Settled(w, c, s)
    requires !WritesConfigMap(w) && !w.AgentDeployment? && (WritesConfigMap(x) || x.AgentDeployment?)
    ensures Settled(w, c, Do(x, c, s))
  {
    hide SetData, PromptData, ConfigHash, DeploymentFor, HashFor, DesiredClaim, BoundRole, Permission;
  }

  lemma SimpleStaysSettled(w: Write, x: Write, c: Context, s: Store)
    requires Settled(w, c, s)
    requires !WritesConfigMap(w) && !w.AgentDeployment? && !WritesConfigMap(x) && !x.AgentDeployment?
    ensures Settled(w, c, Do(x, c, s))
  {
    hide StoredHash, DesiredPod;
  }

  lemma DoRespectsTokens(w: Write, c: Context, d: Context, s: Store, t: Store)
    requires SamePlan(c, d) && SameButTokens(s, t)
    ensures SameButTokens(Do(w, c, s), Do(w, d, t))
  {
    hide *;
    if w.AgentDeployment? {
      DeploymentRespectsTokens(c, d, s, t);
    } else if w.GiteaToken? || w.JwtSecret? {
      SecretRespectsTokens(w, c, d, s, t);
    } else {
      PlainRespectsTokens(w, c, d, s, t);
    }
  }

  lemma DeploymentRespectsTokens(c: Context, d: Context, s: Store, t: Store)
    requires SamePlan(c, d) && SameButTokens(s, t)
    ensures SameButTokens(Do(AgentDeployment, c, s), Do(AgentDeployment, d, t))
  {
    SamePlanPod(c, d);
    SameHashFor(c, d, s, t);
    hide DesiredPod, HashFor, AgentRef;
  }

  lemma SecretRespectsTokens(w: Write, c: Context, d: Context, s: Store, t: Store)
    requires SamePlan(c, d) && SameButTokens(s, t) && (w.GiteaToken? || w.JwtSecret?)
    ensures SameButTokens(Do(w, c, s), Do(w, d, t))
  {
    hide TokenRef, JwtRef;
  }

  lemma PlainRespectsTokens(w: Write, c: Context, d: Context, s: Store, t: Store)
    requires SamePlan(c, d) && SameButTokens(s, t) && !w.AgentDeployment? && !w.GiteaToken? && !w.JwtSecret?
    ensures SameButTokens(Do(w, c, s), Do(w, d, t))
  {
    assert t == s.(secrets := t.secrets);
    SecretsAside(w, c, s, t.secrets);
    TokensAside(w, c, d, t);
    KeepsSecrets(w, c, s);
    hide Do, SamePlan;
  }

  lemma KeepsSecrets(w: Write, c: Context, s: Store)
    requires !w.AgentDeployment? && !w.GiteaToken? && !w.JwtSecret?
    ensures Do(w, c, s).secrets == s.secrets
  {
    hide PromptData, ConfigHash, CreateIfMissing, SetData;
  }

  lemma SecretsAside(w: Write, c: Context, s: Store, secrets: map<Ref, string>)
    requires !w.AgentDeployment? && !w.GiteaToken? && !w.JwtSecret?
    ensures Do(w, c, s.(secrets := secrets)) == Do(w, c, s).(secrets := secrets)
  {
    if WritesConfigMap(w) {
      SecretsAsideMaps(w, c, s, secrets);
    } else if w.HomeBinding? || w.ExtraBinding? {
      SecretsAsideBindings(w, c, s, secrets);
    } else {
      hide DesiredClaim, Permission, CreateIfMissing, AgentRef, ClaimRef, Username, WritesConfigMap;
    }
  }

  lemma SecretsAsideMaps(w: Write, c: Context, s: Store, secrets: map<Ref, string>)
    requires WritesConfigMap(w)
    ensures Do(w, c, s.(secrets := secrets)) == Do(w, c, s).(secrets := secrets)
  {
    hide PromptData, ConfigHash, ExtraFilesOf, SetData, PromptRef, SkillsRef, RoleFilesRef;
  }

  lemma SecretsAsideBindings(w: Write, c: Context, s: Store, secrets: map<Ref, string>)
    requires w.HomeBinding? || w.ExtraBinding?
    ensures Do(w, c, s.(secrets := secrets)) == Do(w, c, s).(secrets := secrets)
  {
    hide BoundRole, CreateIfMissing, AgentRef, ExtraRef;
    if w.ExtraBinding? && w.ns in s.namespaces {
      assert w.ns in s.(secrets := secrets).namespaces;
    } else if w.ExtraBinding? {
      assert w.ns !in s.(secrets := secrets).namespaces;
    }
  }

  lemma TokensAside(w: Write, c: Context, d: Context, s: Store)
    requires SamePlan(c, d) && !w.AgentDeployment? && !w.GiteaToken? && !w.JwtSecret?
    ensures Do(w, c, s) == Do(w, d, s)
  {
    SamePlanPod(c, d);
    hide SamePlan, DesiredClaim, PromptData, ConfigHash, BoundRole, Permission, CreateIfMissing, SetData;
    hide AgentRef, ClaimRef, ExtraRef, PromptRef, SkillsRef, RoleFilesRef, Username;
  }

  lemma SameHashFor(c: Context, d: Context, s: Store, t: Store)
    requires SamePlan(c, d) && SameButTokens(s, t)
    ensures HashFor(c, s) == HashFor(d, t)
  {
    assert s.configMaps == t.configMaps && c.agent == d.agent && c.promptReadable == d.promptReadable;
  }

  // Retrying ------------------------------------------------------------------------------------

  ghost predicate AllSettled(ws: seq<Write>, c: Context, s: Store) {
    forall w :: w in ws ==> Settled(w, c, s)
  }

  /** No prompt is written after a Deployment. */
  ghost predicate DeploymentLast(ws: seq<Write>) {
    forall i, j :: 0 <= i < j < |ws| && ws[i].AgentDeployment? ==> !ws[j].PromptConfigMap?
  }

  lemma {:induction false} RepoWritesAreSimple(repos: seq<string>)
    ensures forall w :: w in RepoWrites(repos) ==> w.RepoAccess?
  {
    if repos != [] {
      RepoWritesAreSimple(repos[1..]);
    }
  }

  lemma {:induction false} BindingWritesAreSimple(namespaces: seq<string>)
    ensures forall w :: w in BindingWrites(namespaces) ==> w.ExtraBinding?
  {
    if namespaces != [] {
      BindingWritesAreSimple(namespaces[1..]);
    }
  }

  lemma {:induction false} UpToIsPrefix(m: nat, n: nat, c: Context)
    requires m <= n <= STEPS
    ensures WritesUpTo(m, c) <= WritesUpTo(n, c)
    decreases n
  {
    hide StepWrites;
    if m < n {
      UpToIsPrefix(m, n - 1, c);
    }
  }

  lemma StepIsIn(i: nat, c: Context)
    requires i < STEPS
    ensures forall w :: w in StepWrites(i, c) ==> w in Writes(c)
  {
    hide StepWrites;
    var upTo := WritesUpTo(i + 1, c);
    UpToIsPrefix(i + 1, STEPS, c);
    forall w | w in StepWrites(i, c)
      ensures w in Writes(c)
    {
      assert w in upTo;
      var k :| 0 <= k < |upTo| && upTo[k] == w;
      assert Writes(c)[k] == w;
    }
  }

  lemma {:induction false} SameAgentSameWrites(n: nat, c: Context, d: Context)
    requires n <= STEPS && c.agent == d.agent && c.rd == d.rd
    ensures WritesUpTo(n, c) == WritesUpTo(n, d)
  {
    if n > 0 {
      SameAgentSameWrites(n - 1, c, d);
    }
  }

  lemma {:induction false} NoEarlyDeployment(n: nat, c: Context)
    requires n < STEPS
    ensures forall w :: w in WritesUpTo(n, c) ==> !w.AgentDeployment?
  {
    if n > 0 {
      hide StepWrites;
      NoEarlyDeployment(n - 1, c);
      StepWithoutDeployment(n - 1, c);
    }
  }

  lemma StepWithoutDeployment(i: nat, c: Context)
    requires i < STEPS - 1
    ensures forall w :: w in StepWrites(i, c) ==> !w.AgentDeployment?
  {
    RepoWritesAreSimple(c.agent.repos);
    BindingWritesAreSimple(c.agent.namespaceAccess);
    hide RepoWrites, BindingWrites, HasExtraFiles;
  }

  lemma WritesEndWithDeployment(c: Context)
    ensures var ws := Writes(c);
      && DeploymentLast(ws)
      && |ws| > 0 && ws[|ws| - 1] == AgentDeployment && (forall w :: w in ws[..|ws| - 1] ==> !w.AgentDeployment?)
      && GiteaToken in ws && JwtSecret in ws && PromptConfigMap in ws && SkillsConfigMap in ws
      && WorkspaceClaim in ws && AgentDeployment in ws
      && (HasExtraFiles(c.rd) ==> RoleFilesConfigMap in ws)
  {
    hide WritesUpTo, Writes, DeploymentLast;
    DeploymentComesLast(c);
    StepIsIn(1, c);
    StepIsIn(3, c);
    StepIsIn(5, c);
    StepIsIn(6, c);
    StepIsIn(7, c);
    StepIsIn(8, c);
  }

  lemma DeploymentComesLast(c: Context)
    ensures var ws := Writes(c);
      && DeploymentLast(ws)
      && |ws| > 0 && ws[|ws| - 1] == AgentDeployment && (forall w :: w in ws[..|ws| - 1] ==> !w.AgentDeployment?)
  {
    var ws, front := Writes(c), WritesUpTo(STEPS - 1, c);
    NoEarlyDeployment(STEPS - 1, c);
    assert ws == front + [AgentDeployment];
    hide WritesUpTo, Writes, RepoWrites, BindingWrites;
    assert ws[..|ws| - 1] == front;
    forall i | 0 <= i < |ws| - 1
      ensures !ws[i].AgentDeployment?
    {
      assert ws[i] == front[i] && front[i] in front;
    }
  }

  lemma {:induction false} PerformSettles(ws: seq<Write>, c: Context, s: Store)
    requires DeploymentLast(ws)
    ensures AllSettled(ws, c, Perform(ws, c, s))
    decreases |ws|
  {
    if ws != [] {
      var before, last := ws[..|ws| - 1], ws[|ws| - 1];
      PerformSettles(before, c, s);
      var middle := Perform(before, c, s);
      hide Do, Settled;
      DoSettles(last, c, middle);
      forall w | w in ws
        ensures Settled(w, c, Do(last, c, middle))
      {
        var i :| 0 <= i < |ws| && ws[i] == w;
        if i < |before| {
          assert before[i] == w && w in before;
          OthersStaySettled(w, last, c, middle);
        }
      }
    }
  }

  lemma {:induction false} PerformSettledIsIdle(ws: seq<Write>, c: Context, s: Store)
    requires AllSettled(ws, c, s)
    ensures Perform(ws, c, s) == s
    decreases |ws|
  {
    if ws != [] {
      PerformSettledIsIdle(ws[..|ws| - 1], c, s);
      assert ws[|ws| - 1] in ws;
    }
  }

  lemma {:induction false} PerformSplits(x: seq<Write>, y: seq<Write>, c: Context, s: Store)
    ensures Perform(x + y, c, s) == Perform(y, c, Perform(x, c, s))
    decreases |y|
  {
    if y == [] {
      assert x + y == x;
    } else {
      assert (x + y)[..|x + y| - 1] == x + y[..|y| - 1];
      PerformSplits(x, y[..|y| - 1], c, s);
    }
  }

  lemma {:induction false} PerformRespectsTokens(ws: seq<Write>, c: Context, d: Context, s: Store, t: Store)
    requires SamePlan(c, d) && SameButTokens(s, t)
    ensures SameButTokens(Perform(ws, c, s), Perform(ws, d, t))
    decreases |ws|
  {
    if ws != [] {
      PerformRespectsTokens(ws[..|ws| - 1], c, d, s, t);
      hide Do;
      DoRespectsTokens(ws[|ws| - 1], c, d, Perform(ws[..|ws| - 1], c, s), Perform(ws[..|ws| - 1], d, t));
    }
  }

  lemma AllSettledForAnyToken(ws: seq<Write>, c: Context, d: Context, s: Store)
    requires SamePlan(c, d) && AllSettled(ws, c, s)
    ensures AllSettled(ws, d, s)
  {
    forall w | w in ws
      ensures Settled(w, d, s)
    {
      SettledForAnyToken(w, c, d, s);
    }
  }

  /** An attempt completes its first `done` writes and then fails. */
  datatype Attempt = Attempt(c: Context, done: nat)

  ghost predicate ValidAttempts(c: Context, attempts: seq<Attempt>) {
    forall a :: a in attempts ==> SamePlan(c, a.c) && a.done <= |Writes(c)|
  }

  ghost function Try(ws: seq<Write>, attempts: seq<Attempt>, s: Store): Store
    requires forall a :: a in attempts ==> a.done <= |ws|
    decreases |attempts|
  {
    if attempts == [] then s
    else
      var last := attempts[|attempts| - 1];
      Perform(ws[..last.done], last.c, Try(ws, attempts[..|attempts| - 1], s))
  }

  /** After any failed attempts the cluster is where one uninterrupted prefix would have put it. */
  lemma {:induction false} AttemptsReachPrefix(c: Context, attempts: seq<Attempt>, s: Store) returns (j: nat)
    requires ValidAttempts(c, attempts)
    ensures j <= |Writes(c)|
    ensures SameButTokens(Try(Writes(c), attempts, s), Perform(Writes(c)[..j], c, s))
    ensures AllSettled(Writes(c)[..j], c, Try(Writes(c), attempts, s))
    decreases |attempts|
  {
    var ws := Writes(c);
    if attempts == [] {
      return 0;
    }
    var before, last := attempts[..|attempts| - 1], attempts[|attempts| - 1];
    assert last in attempts && forall a :: a in before ==> a in attempts;
    var i := AttemptsReachPrefix(c, before, s);
    WritesEndWithDeployment(c);
    hide Writes, SamePlan, SameButTokens, Settled;
    j := AttemptStep(ws, c, last.c, Try(ws, before, s), s, i, last.done);
  }

  lemma AttemptStep(ws: seq<Write>, c: Context, d: Context, now: Store, s: Store, i: nat, k: nat) returns (j: nat)
    requires DeploymentLast(ws) && SamePlan(c, d) && i <= |ws| && k <= |ws|
    requires SameButTokens(now, Perform(ws[..i], c, s)) && AllSettled(ws[..i], c, now)
    ensures j <= |ws|
    ensures SameButTokens(Perform(ws[..k], d, now), Perform(ws[..j], c, s))
    ensures AllSettled(ws[..j], c, Perform(ws[..k], d, now))
  {
    AllSettledForAnyToken(ws[..i], c, d, now);
    assert SamePlan(d, c);
    hide SamePlan, SameButTokens, Settled, Perform;
    if k <= i {
      assert forall w :: w in ws[..k] ==> w in ws[..i];
      PerformSettledIsIdle(ws[..k], d, now);
      j := i;
    } else {
      j := k;
      assert ws[..k] == ws[..i] + ws[i..k];
      PerformSplits(ws[..i], ws[i..k], d, now);
      PerformSettledIsIdle(ws[..i], d, now);
      PerformSplits(ws[..i], ws[i..k], c, s);
      PerformRespectsTokens(ws[i..k], d, c, now, Perform(ws[..i], c, s));
      assert DeploymentLast(ws[..k]);
      PerformSettles(ws[..k], d, now);
      AllSettledForAnyToken(ws[..k], d, c, Perform(ws[..k], d, now));
    }
  }

  lemma {:induction false} FullAttempt(ws: seq<Write>, c: Context, d: Context, now: Store, s: Store, i: nat)
    requires DeploymentLast(ws) && SamePlan(c, d) && i <= |ws|
    requires SameButTokens(now, Perform(ws[..i], c, s)) && AllSettled(ws[..i], c, now)
    ensures SameButTokens(Perform(ws, d, now), Perform(ws, c, s))
  {
    AllSettledForAnyToken(ws[..i], c, d, now);
    assert SamePlan(d, c);
    hide SamePlan, SameButTokens, Settled, Perform;
    assert ws == ws[..i] + ws[i..];
    PerformSplits(ws[..i], ws[i..], d, now);
    PerformSettledIsIdle(ws[..i], d, now);
    PerformSplits(ws[..i], ws[i..], c, s);
    PerformRespectsTokens(ws[i..], d, c, now, Perform(ws[..i], c, s));
  }

  // Attempts that may or may not read the prompt back ------------------------------------------------

  /** The attempts may also differ in whether they can read the stored prompt back. */
  ghost predicate LikePlan(c: Context, d: Context) {
    SamePlan(c, d.(promptReadable := c.promptReadable))
  }

  /** All that attempts over one agent, role and settings have in common: they differ in the tokens, in the
      order of their loop over the skills and in reading the stored prompt back. */
  ghost predicate SameInputs(c: Context, d: Context) {
    && LikePlan(c, d.(skillsData := c.skillsData))
    && IsSkillsData(SkillsOf(c.rd), d.skillsData)
  }

  function Unhashed(d: Deployment): Deployment { d.(annotations := d.annotations - {HASH_ANNOTATION}) }

  /** Equal up to the hash on one Deployment. */
  ghost predicate Alike(s: Store, t: Store, ref: Ref) {
    && t == s.(deployments := t.deployments)
    && s.deployments.Keys == t.deployments.Keys
    && (forall r :: r in s.deployments && r != ref ==> s.deployments[r] == t.deployments[r])
    && (ref in s.deployments ==> Unhashed(s.deployments[ref]) == Unhashed(t.deployments[ref]))
  }

  lemma DoRespectsAlike(w: Write, c: Context, d: Context, s: Store, t: Store)
    requires d == c.(promptReadable := d.promptReadable) && Alike(s, t, AgentRef(c.agent))
    ensures Alike(Do(w, c, s), Do(w, d, t), AgentRef(c.agent))
  {
    if w.AgentDeployment? {
      DeploymentRespectsAlike(c, d, s, t);
    } else {
      hide Do, Unhashed;
    }
  }

  lemma DeploymentRespectsAlike(c: Context, d: Context, s: Store, t: Store)
    requires d == c.(promptReadable := d.promptReadable) && Alike(s, t, AgentRef(c.agent))
    ensures Alike(Do(AgentDeployment, c, s), Do(AgentDeployment, d, t), AgentRef(c.agent))
    ensures c == d ==> Do(AgentDeployment, c, s) == Do(AgentDeployment, c, t)
  {
    hide DeploymentFor, HashFor, Unhashed, Do;
    var ref := AgentRef(c.agent);
    var p, q := Lookup(s.deployments, ref), Lookup(t.deployments, ref);
    var x, y := DeploymentFor(c, p, HashFor(c, s)), DeploymentFor(d, q, HashFor(d, t));
    HashIsForgotten(c, d, p, q, HashFor(c, s), HashFor(d, t));
    assert c == d ==> HashFor(c, s) == HashFor(d, t) by {
      SameHash(c, s, t);
    }
    DeploymentDo(c, s);
    DeploymentDo(d, t);
    assert c == d ==> s.deployments[ref := x] == t.deployments[ref := y];
  }

  lemma SameHash(c: Context, s: Store, t: Store)
    requires s.configMaps == t.configMaps
    ensures HashFor(c, s) == HashFor(c, t)
  {}

  lemma DeploymentDo(c: Context, s: Store)
    ensures Do(AgentDeployment, c, s) ==
      s.(deployments := s.deployments[AgentRef(c.agent) :=
           DeploymentFor(c, Lookup(s.deployments, AgentRef(c.agent)), HashFor(c, s))])
  {}

  lemma HashIsForgotten(c: Context, d: Context, p: Option<Deployment>, q: Option<Deployment>, x: string, y: string)
    requires d == c.(promptReadable := d.promptReadable) && (p.Some? <==> q.Some?)
    requires p.Some? ==> Unhashed(p.value) == Unhashed(q.value)
    ensures Unhashed(DeploymentFor(c, p, x)) == Unhashed(DeploymentFor(d, q, y))
    ensures x == y ==> DeploymentFor(c, p, x) == DeploymentFor(d, q, y)
  {
    if p.Some? {
      NoteIsForgotten(p.value.annotations, q.value.annotations, HASH_ANNOTATION, x, y);
    } else {
      NoteIsForgotten(map[], map[], HASH_ANNOTATION, x, y);
    }
  }

  lemma NoteIsForgotten(a: map<string, string>, b: map<string, string>, k: string, x: string, y: string)
    requires a - {k} == b - {k}
    ensures a[k := x] - {k} == b[k := y] - {k}
    ensures x == y ==> a[k := x] == b[k := y]
  {
    assert a[k := x] - {k} == a - {k} && b[k := y] - {k} == b - {k};
    assert a[k := x] == (a - {k})[k := x] && b[k := y] == (b - {k})[k := y];
  }

  lemma {:induction false} PerformRespectsAlike(ws: seq<Write>, c: Context, d: Context, s: Store, t: Store)
    requires d == c.(promptReadable := d.promptReadable) && Alike(s, t, AgentRef(c.agent))
    ensures Alike(Perform(ws, c, s), Perform(ws, d, t), AgentRef(c.agent))
    decreases |ws|
  {
    hide Alike, Do;
    if ws != [] {
      var before := ws[..|ws| - 1];
      PerformRespectsAlike(before, c, d, s, t);
      DoRespectsAlike(ws[|ws| - 1], c, d, Perform(before, c, s), Perform(before, d, t));
    }
  }

  /** The same attempts, all of them as able to read the prompt as c is. */
  ghost function Flagged(attempts: seq<Attempt>, c: Context): seq<Attempt> {
    seq(|attempts|, i requires 0 <= i < |attempts| =>
      attempts[i].(c := attempts[i].c.(promptReadable := c.promptReadable)))
  }

  lemma {:induction false} TryRespectsAlike(ws: seq<Write>, c: Context, attempts: seq<Attempt>, s: Store)
    requires forall a :: a in attempts ==> LikePlan(c, a.c) && a.done <= |ws|
    ensures forall a :: a in Flagged(attempts, c) ==> SamePlan(c, a.c) && a.done <= |ws|
    ensures Alike(Try(ws, attempts, s), Try(ws, Flagged(attempts, c), s), AgentRef(c.agent))
    decreases |attempts|
  {
    var flagged := Flagged(attempts, c);
    forall a | a in flagged
      ensures SamePlan(c, a.c) && a.done <= |ws|
    {
      var i :| 0 <= i < |flagged| && flagged[i] == a;
      assert attempts[i] in attempts;
    }
    if attempts != [] {
      var before, last := attempts[..|attempts| - 1], attempts[|attempts| - 1];
      assert last in attempts && forall a :: a in before ==> a in attempts;
      TryRespectsAlike(ws, c, before, s);
      assert flagged[..|attempts| - 1] == Flagged(before, c);
      var like := flagged[|attempts| - 1];
      assert last.c.agent == c.agent;
      hide Alike, LikePlan, SamePlan, Perform;
      PerformRespectsAlike(ws[..last.done], last.c, like.c, Try(ws, before, s), Try(ws, Flagged(before, c), s));
    }
  }

  /** A full reconcile forgets which hash its Deployment carried. */
  lemma FullReconcileForgets(c: Context, s: Store, t: Store)
    requires Alike(s, t, AgentRef(c.agent))
    ensures Perform(Writes(c), c, s) == Perform(Writes(c), c, t)
  {
    var ws := Writes(c);
    WritesEndWithDeployment(c);
    hide Writes, Alike, Do;
    var front := ws[..|ws| - 1];
    PerformRespectsAlike(front, c, c, s, t);
    DeploymentRespectsAlike(c, c, Perform(front, c, s), Perform(front, c, t));
  }
}
