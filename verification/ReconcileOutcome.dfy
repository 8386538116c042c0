/** What a full reconcile leaves in the cluster, object by object and in literal names and values: told of the
    stores before and after it, for any store to begin with, and without the plan of single writes that leads there. */
module ReconcileOutcome {
  import opened Wrappers
  import opened Text
  import opened AgentPrompt
  import opened ReconcileSteps
  import opened Reconcile

  // What each kind of object comes to, for any list of writes --------------------------------------

  /** A repository is named by an owner, a slash and a name, neither empty. */
  lemma RepoIs(owner: string, name: string)
    requires '/' !in owner
    ensures IsRepo(owner + "/" + name) <==> owner != "" && name != ""
    ensures !IsRepo(owner)
  {
    var repo := owner + "/" + name;
    assert repo[..|owner|] == owner && repo[|owner|] == '/';
    assert forall k :: 0 <= k < |owner| ==> repo[k] == owner[k] && owner[k] in owner;
    if i :| 0 <= i < |repo| - 1 && repo[i] == '/' && '/' !in repo[..i] {
      assert forall k :: 0 <= k < i ==> repo[..i][k] == repo[k] && repo[..i][k] in repo[..i];
      assert i == |owner|;
    }
  }

  lemma LastWrite(ws: seq<Write>, c: Context, s: Store)
    requires ws != []
    ensures Perform(ws, c, s) == Do(ws[|ws| - 1], c, Perform(ws[..|ws| - 1], c, s))
    ensures forall w :: w in ws <==> w in ws[..|ws| - 1] || w == ws[|ws| - 1]
  {
    assert ws == ws[..|ws| - 1] + [ws[|ws| - 1]];
  }

  lemma DoPlain(w: Write, c: Context, s: Store)
    ensures Do(w, c, s).users == s.users + if w == GiteaUser then {Username(c.agent)} else {}
    ensures Do(w, c, s).agentUser ==
      if w == UserStatus then s.agentUser[AgentRef(c.agent) := Username(c.agent)] else s.agentUser
    ensures Do(w, c, s).services == s.services + if w == AgentService then {AgentRef(c.agent)} else {}
    ensures Do(w, c, s).accounts == s.accounts + if w == AgentAccount then {AgentRef(c.agent)} else {}
    ensures Do(w, c, s).namespaces == s.namespaces
    ensures Do(w, c, s).claims ==
      if w == WorkspaceClaim then CreateIfMissing(s.claims, ClaimRef(c.agent), DesiredClaim(c)) else s.claims
  {
    hide SetData, DeploymentFor, HashFor, PromptData, ConfigHash, DesiredPod, DesiredClaim, BoundRole, Permission;
  }

  lemma DoCollaborators(w: Write, c: Context, s: Store)
    ensures Do(w, c, s).collaborators ==
      if w.RepoAccess? then s.collaborators[(w.repo, Username(c.agent)) := Permission(c.agent)] else s.collaborators
  {
    hide SetData, DeploymentFor, HashFor, PromptData, ConfigHash, DesiredPod, DesiredClaim, BoundRole, Permission;
  }

  lemma DoSecrets(w: Write, c: Context, s: Store)
    ensures Do(w, c, s).secrets ==
      if w == GiteaToken then CreateIfMissing(s.secrets, TokenRef(c.agent), c.giteaToken)
      else if w == JwtSecret then CreateIfMissing(s.secrets, JwtRef(c.agent), c.jwt)
      else s.secrets
  {
    hide SetData, DeploymentFor, HashFor, PromptData, ConfigHash, DesiredPod, DesiredClaim, BoundRole, Permission;
  }

  lemma DoBindings(w: Write, c: Context, s: Store)
    ensures Do(w, c, s).bindings ==
      if w == HomeBinding then
        CreateIfMissing(s.bindings, AgentRef(c.agent), Binding("ClusterRole", BoundRole(c.agent)))
      else if w.ExtraBinding? && w.ns in s.namespaces then
        CreateIfMissing(s.bindings, ExtraRef(c.agent, w.ns), Binding("Role", BoundRole(c.agent)))
      else s.bindings
  {
    hide SetData, DeploymentFor, HashFor, PromptData, ConfigHash, DesiredPod, DesiredClaim, BoundRole, Permission;
  }

  lemma {:induction false} PlainAfter(ws: seq<Write>, c: Context, s: Store)
    ensures Perform(ws, c, s).users == s.users + if GiteaUser in ws then {Username(c.agent)} else {}
    ensures Perform(ws, c, s).agentUser ==
      if UserStatus in ws then s.agentUser[AgentRef(c.agent) := Username(c.agent)] else s.agentUser
    ensures Perform(ws, c, s).services == s.services + if AgentService in ws then {AgentRef(c.agent)} else {}
    ensures Perform(ws, c, s).accounts == s.accounts + if AgentAccount in ws then {AgentRef(c.agent)} else {}
    ensures Perform(ws, c, s).namespaces == s.namespaces
    ensures Perform(ws, c, s).claims ==
      if WorkspaceClaim in ws then CreateIfMissing(s.claims, ClaimRef(c.agent), DesiredClaim(c)) else s.claims
    decreases |ws|
  {
    if ws != [] {
      LastWrite(ws, c, s);
      PlainAfter(ws[..|ws| - 1], c, s);
      DoPlain(ws[|ws| - 1], c, Perform(ws[..|ws| - 1], c, s));
      hide Do, Perform, DesiredClaim, AgentRef, ClaimRef, Username;
    }
  }

  lemma {:induction false} CollaboratorsAfter(ws: seq<Write>, c: Context, s: Store, repo: string, user: string)
    ensures Lookup(Perform(ws, c, s).collaborators, (repo, user)) ==
      if user == Username(c.agent) && RepoAccess(repo) in ws then Some(Permission(c.agent))
      else Lookup(s.collaborators, (repo, user))
    decreases |ws|
  {
    if ws != [] {
      LastWrite(ws, c, s);
      CollaboratorsAfter(ws[..|ws| - 1], c, s, repo, user);
      DoCollaborators(ws[|ws| - 1], c, Perform(ws[..|ws| - 1], c, s));
      hide Do, Perform, Permission, Username;
    }
  }

  lemma {:induction false} SecretsAfter(ws: seq<Write>, c: Context, s: Store, r: Ref)
    ensures Lookup(Perform(ws, c, s).secrets, r) ==
      if r in s.secrets then Some(s.secrets[r])
      else if r == TokenRef(c.agent) && GiteaToken in ws then Some(c.giteaToken)
      else if r == JwtRef(c.agent) && JwtSecret in ws then Some(c.jwt)
      else None
    decreases |ws|
  {
    if ws != [] {
      LastWrite(ws, c, s);
      SecretsAfter(ws[..|ws| - 1], c, s, r);
      DoSecrets(ws[|ws| - 1], c, Perform(ws[..|ws| - 1], c, s));
      RefsDiffer(c.agent);
      hide Do, Perform, TokenRef, JwtRef;
    }
  }

  lemma {:induction false} BindingsAfter(ws: seq<Write>, c: Context, s: Store, r: Ref)
    ensures Lookup(Perform(ws, c, s).bindings, r) ==
      if r in s.bindings then Some(s.bindings[r])
      else if r == AgentRef(c.agent) && HomeBinding in ws then Some(Binding("ClusterRole", BoundRole(c.agent)))
      else if r == ExtraRef(c.agent, r.0) && ExtraBinding(r.0) in ws && r.0 in s.namespaces
      then Some(Binding("Role", BoundRole(c.agent)))
      else None
    decreases |ws|
  {
    if ws != [] {
      LastWrite(ws, c, s);
      BindingsAfter(ws[..|ws| - 1], c, s, r);
      PlainAfter(ws[..|ws| - 1], c, s);
      DoBindings(ws[|ws| - 1], c, Perform(ws[..|ws| - 1], c, s));
      HomeIsNoExtra(c.agent, r.0);
      assert forall ns :: ExtraRef(c.agent, ns).0 == ns;
      hide Do, Perform, BoundRole, AgentRef, ExtraRef, DesiredClaim;
    }
  }

  lemma HomeIsNoExtra(a: Agent, ns: string)
    ensures AgentRef(a) != ExtraRef(a, ns)
  {
    assert |ExtraRef(a, ns).1| > |AgentRef(a).1|;
  }

  /** The ConfigMap a write is about, annotations of others included. */
  lemma {:induction false} ConfigMapAfter(w: Write, ws: seq<Write>, c: Context, s: Store)
    requires WritesConfigMap(w)
    ensures var (ref, data, notes) := Target(w, c);
      Lookup(Perform(ws, c, s).configMaps, ref) ==
      if w in ws then Some(ConfigMap(data, NotesOf(s, ref) + notes)) else Lookup(s.configMaps, ref)
    decreases |ws|
  {
    if ws != [] {
      var last, u := ws[|ws| - 1], Perform(ws[..|ws| - 1], c, s);
      LastWrite(ws, c, s);
      ConfigMapAfter(w, ws[..|ws| - 1], c, s);
      var (ref, data, notes) := Target(w, c);
      hide Do, Target, Perform;
      if last == w {
        ConfigMapDo(w, c, u);
        assert (NotesOf(s, ref) + notes) + notes == NotesOf(s, ref) + notes;
      } else {
        OtherConfigMapsStay(w, last, c, u);
      }
    }
  }

  function NotesOf(s: Store, ref: Ref): map<string, string> {
    if ref in s.configMaps then s.configMaps[ref].annotations else map[]
  }

  lemma DoOtherConfigMaps(w: Write, c: Context, s: Store, r: Ref)
    requires r != PromptRef(c.agent) && r != SkillsRef(c.agent) && r != RoleFilesRef(c.agent)
    ensures Lookup(Do(w, c, s).configMaps, r) == Lookup(s.configMaps, r)
  {
    hide DeploymentFor, HashFor, PromptData, ConfigHash, DesiredClaim, PromptRef, SkillsRef, RoleFilesRef;
  }

  lemma {:induction false} OtherConfigMapsAfter(ws: seq<Write>, c: Context, s: Store, r: Ref)
    requires r != PromptRef(c.agent) && r != SkillsRef(c.agent) && r != RoleFilesRef(c.agent)
    ensures Lookup(Perform(ws, c, s).configMaps, r) == Lookup(s.configMaps, r)
    decreases |ws|
  {
    if ws != [] {
      LastWrite(ws, c, s);
      OtherConfigMapsAfter(ws[..|ws| - 1], c, s, r);
      DoOtherConfigMaps(ws[|ws| - 1], c, Perform(ws[..|ws| - 1], c, s), r);
      hide Do, Perform, PromptRef, SkillsRef, RoleFilesRef;
    }
  }

  // Which writes a full reconcile makes ------------------------------------------------------------

  lemma {:induction false} RepoWritesHold(repos: seq<string>, repo: string)
    ensures RepoAccess(repo) in RepoWrites(repos) <==> repo in repos && IsRepo(repo)
  {
    if repos != [] {
      RepoWritesHold(repos[1..], repo);
      hide IsRepo;
      assert repo in repos <==> repo == repos[0] || repo in repos[1..];
    }
  }

  lemma {:induction false} BindingWritesHold(namespaces: seq<string>, ns: string)
    ensures ExtraBinding(ns) in BindingWrites(namespaces) <==> ns in namespaces
  {
    if namespaces != [] {
      BindingWritesHold(namespaces[1..], ns);
    }
  }

  lemma {:induction false} ListedWrites(n: nat, c: Context, w: Write)
    requires n <= STEPS && (w.RepoAccess? || w.ExtraBinding? || w.RoleFilesConfigMap?)
    ensures w in WritesUpTo(n, c) <==>
      || (w.RepoAccess? && n > 2 && w in RepoWrites(c.agent.repos))
      || (w.ExtraBinding? && n > 11 && w in BindingWrites(c.agent.namespaceAccess))
      || (w.RoleFilesConfigMap? && n > 7 && HasExtraFiles(c.rd))
  {
    if n > 0 {
      ListedWrites(n - 1, c, w);
      RepoWritesAreSimple(c.agent.repos);
      BindingWritesAreSimple(c.agent.namespaceAccess);
      hide WritesUpTo, RepoWrites, BindingWrites, HasExtraFiles;
      OneStepMore(n, c);
    }
  }

  lemma OneStepMore(n: nat, c: Context)
    requires 0 < n <= STEPS
    ensures WritesUpTo(n, c) == WritesUpTo(n - 1, c) + StepWrites(n - 1, c)
  {}

  lemma PlainWrites(c: Context)
    ensures GiteaUser in Writes(c) && UserStatus in Writes(c) && AgentService in Writes(c)
    ensures AgentAccount in Writes(c) && HomeBinding in Writes(c)
  {
    hide Writes;
    StepIsIn(0, c);
    StepIsIn(9, c);
    StepIsIn(10, c);
    StepIsIn(11, c);
    hide RepoWrites, BindingWrites;
    assert StepWrites(0, c)[0] == GiteaUser && StepWrites(0, c)[1] == UserStatus;
    assert StepWrites(11, c)[0] == HomeBinding;
  }

  // The outcome ------------------------------------------------------------------------------------

  /** The Gitea side: the user, its access, and the status that names it. */
  ghost predicate GiteaIsSet(s: Store, t: Store, a: Agent) {
    && t.users == s.users + {"role-" + a.role}
    && t.agentUser == s.agentUser[(a.namespace, "agent-" + a.name) := "role-" + a.role]
    && (forall repo, user :: Lookup(t.collaborators, (repo, user)) ==
         if user == "role-" + a.role && repo in a.repos && IsRepo(repo)
         then Some(if exists p :: p in a.permissions && ToLower(p) in {"write", "review", "merge"}
                   then "write" else "read")
         else Lookup(s.collaborators, (repo, user)))
  }

  /** Secrets, claim, service and account: what was there stays, what was missing is made. */
  ghost predicate ObjectsAreThere(s: Store, t: Store, c: Context) {
    var a := c.agent;
    && (forall r :: Lookup(t.secrets, r) ==
         if r in s.secrets then Some(s.secrets[r])
         else if r == (a.namespace, "role-" + a.role + "-gitea-token") then Some(c.giteaToken)
         else if r == (a.namespace, "agent-" + a.name + "-jwt-token") then Some(c.jwt)
         else None)
    && t.claims == CreateIfMissing(s.claims, (a.namespace, "agent-" + a.name + "-workspace"),
         Claim(if a.storageSize != "" then a.storageSize else "1Gi",
               if a.storageClass != "" then Some(a.storageClass)
               else if c.defaultClass != "" then Some(c.defaultClass) else None))
    && t.services == s.services + {(a.namespace, "agent-" + a.name)}
    && t.accounts == s.accounts + {(a.namespace, "agent-" + a.name)}
    && t.namespaces == s.namespaces
  }

  /** The agent is bound at home and in each further namespace that exists. */
  ghost predicate BindingsAreThere(s: Store, t: Store, a: Agent) {
    forall r :: Lookup(t.bindings, r) ==
      var role := if a.rbacRole != "" then a.rbacRole else "agent-readonly-role";
      if r in s.bindings then Some(s.bindings[r])
      else if r == (a.namespace, "agent-" + a.name) then Some(Binding("ClusterRole", role))
      else if r.0 in a.namespaceAccess && r.0 in s.namespaces && r.1 == "agent-" + a.name + "-" + r.0
      then Some(Binding("Role", role))
      else None
  }

  /** The three ConfigMaps hold what the role and the agent ask for and keep foreign annotations; the one for
      extra files is left alone if there are none. */
  ghost predicate ConfigMapsAreThere(s: Store, t: Store, c: Context) {
    var a := c.agent;
    var prompt := (a.namespace, "agent-" + a.name + "-prompt");
    var skills := (a.namespace, "agent-" + a.name + "-skills");
    var files := (a.namespace, "agent-" + a.name + "-role-files");
    forall r :: Lookup(t.configMaps, r) ==
      if r == prompt then
        Some(ConfigMap(PromptData(a, c.rd),
                       NotesOf(s, r)["aidevops.io/config-hash" := ConfigHash(c.digest, PromptData(a, c.rd))]))
      else if r == skills then Some(ConfigMap(c.skillsData, NotesOf(s, r)))
      else if r == files && ExtraFilesOf(c.rd) != map[] then Some(ConfigMap(ExtraFilesOf(c.rd), NotesOf(s, r)))
      else Lookup(s.configMaps, r)
  }

  /** The Deployment runs the pod of the agent, with the hash of the stored prompt, unless it is paused. */
  ghost predicate DeploymentIsThere(s: Store, t: Store, c: Context) {
    var a := c.agent;
    var ref := (a.namespace, "agent-" + a.name);
    var hash := if c.promptReadable then ConfigHash(c.digest, PromptData(a, c.rd)) else "";
    && t.deployments.Keys == s.deployments.Keys + {ref}
    && (forall r :: r in s.deployments && r != ref ==> t.deployments[r] == s.deployments[r])
    && t.deployments[ref].replicas == (if a.paused then 0 else 1)
    && t.deployments[ref].roleLabel == (if ref in s.deployments then s.deployments[ref].roleLabel else a.role)
    && t.deployments[ref].annotations ==
         (if ref in s.deployments then s.deployments[ref].annotations else map[])["aidevops.io/config-hash" := hash]
    && IsAgentPod(t.deployments[ref].pod, c)
  }

  /** The pod: its account and environment, and every mount with the object behind it. */
  ghost predicate IsAgentPod(pod: Pod, c: Context) {
    var a := c.agent;
    && pod.account == "agent-" + a.name && pod.env == c.env
    && Behind(pod, "/agent/config", "", FromConfigMap("agent-" + a.name + "-prompt"))
    && Behind(pod, "/agent/skills", "", FromConfigMapItems("agent-" + a.name + "-skills", ItemsOf(SkillsOf(c.rd))))
    && Behind(pod, "/agent/secrets/jwt-token", "token", FromSecret("agent-" + a.name + "-jwt-token"))
    && Behind(pod, "/agent/secrets/gitea-token", "token", FromSecret("role-" + a.role + "-gitea-token"))
    && Behind(pod, "/workspace", "", FromClaim("agent-" + a.name + "-workspace"))
    && (ExtraFilesOf(c.rd) != map[] ==>
          Behind(pod, "/agent/role", "", FromConfigMap("agent-" + a.name + "-role-files")))
    && |pod.mounts| == |pod.volumes| == if ExtraFilesOf(c.rd) != map[] then 6 else 5
  }

  /** Some volume with this source is mounted at the path. */
  ghost predicate Behind(pod: Pod, path: string, subPath: string, source: Source) {
    exists v :: v in pod.volumes && v.source == source && Mount(v.name, path, subPath) in pod.mounts
  }

  ghost predicate Reconciled(s: Store, t: Store, c: Context) {
    && GiteaIsSet(s, t, c.agent) && ObjectsAreThere(s, t, c) && BindingsAreThere(s, t, c.agent)
    && ConfigMapsAreThere(s, t, c) && DeploymentIsThere(s, t, c)
  }

  lemma GiteaOutcome(c: Context, s: Store)
    ensures GiteaIsSet(s, Perform(Writes(c), c, s), c.agent)
  {
    PlainWrites(c);
    PlainAfter(Writes(c), c, s);
    forall repo, user
      ensures Lookup(Perform(Writes(c), c, s).collaborators, (repo, user)) ==
        if user == Username(c.agent) && repo in c.agent.repos && IsRepo(repo)
        then Some(Permission(c.agent)) else Lookup(s.collaborators, (repo, user))
    {
      CollaboratorsAfter(Writes(c), c, s, repo, user);
      ListedWrites(STEPS, c, RepoAccess(repo));
      RepoWritesHold(c.agent.repos, repo);
    }
    hide Writes, Perform, IsRepo;
  }

  lemma ObjectsOutcome(c: Context, s: Store)
    ensures ObjectsAreThere(s, Perform(Writes(c), c, s), c)
  {
    PlainWrites(c);
    WritesEndWithDeployment(c);
    hide Writes;
    PlainAfter(Writes(c), c, s);
    forall r
      ensures Lookup(Perform(Writes(c), c, s).secrets, r) ==
        if r in s.secrets then Some(s.secrets[r])
        else if r == TokenRef(c.agent) then Some(c.giteaToken)
        else if r == JwtRef(c.agent) then Some(c.jwt)
        else None
    {
      SecretsAfter(Writes(c), c, s, r);
    }
    hide Perform;
  }

  lemma BindingsOutcome(c: Context, s: Store)
    ensures BindingsAreThere(s, Perform(Writes(c), c, s), c.agent)
  {
    PlainWrites(c);
    forall r
      ensures Lookup(Perform(Writes(c), c, s).bindings, r) ==
        if r in s.bindings then Some(s.bindings[r])
        else if r == AgentRef(c.agent) then Some(Binding("ClusterRole", BoundRole(c.agent)))
        else if r.0 in c.agent.namespaceAccess && r.0 in s.namespaces && r == ExtraRef(c.agent, r.0)
        then Some(Binding("Role", BoundRole(c.agent)))
        else None
    {
      BindingsAfter(Writes(c), c, s, r);
      ListedWrites(STEPS, c, ExtraBinding(r.0));
      BindingWritesHold(c.agent.namespaceAccess, r.0);
    }
    hide Writes, Perform;
  }

  lemma StoredMaps(c: Context, s: Store)
    ensures var t := Perform(Writes(c), c, s); var a := c.agent; var data := PromptData(a, c.rd);
      && Lookup(t.configMaps, PromptRef(a)) == Some(ConfigMap(
           data, NotesOf(s, PromptRef(a)) + map[HASH_ANNOTATION := ConfigHash(c.digest, data)]))
      && Lookup(t.configMaps, SkillsRef(a)) == Some(ConfigMap(c.skillsData, NotesOf(s, SkillsRef(a)) + map[]))
      && Lookup(t.configMaps, RoleFilesRef(a)) ==
           if HasExtraFiles(c.rd) then Some(ConfigMap(ExtraFilesOf(c.rd), NotesOf(s, RoleFilesRef(a)) + map[]))
           else Lookup(s.configMaps, RoleFilesRef(a))
  {
    var ws := Writes(c);
    assert PromptConfigMap in ws && SkillsConfigMap in ws && (RoleFilesConfigMap in ws <==> HasExtraFiles(c.rd)) by {
      WritesEndWithDeployment(c);
      ListedWrites(STEPS, c, RoleFilesConfigMap);
    }
    Targets(c);
    hide *;
    ConfigMapAfter(PromptConfigMap, ws, c, s);
    ConfigMapAfter(SkillsConfigMap, ws, c, s);
    ConfigMapAfter(RoleFilesConfigMap, ws, c, s);
  }

  lemma Targets(c: Context)
    ensures var a := c.agent; var data := PromptData(a, c.rd);
      && WritesConfigMap(PromptConfigMap) && WritesConfigMap(SkillsConfigMap) && WritesConfigMap(RoleFilesConfigMap)
      && Target(PromptConfigMap, c) == (PromptRef(a), data, map[HASH_ANNOTATION := ConfigHash(c.digest, data)])
      && Target(SkillsConfigMap, c) == (SkillsRef(a), c.skillsData, map[])
      && Target(RoleFilesConfigMap, c) == (RoleFilesRef(a), ExtraFilesOf(c.rd), map[])
  {}

  lemma OneNote(notes: map<string, string>, k: string, v: string)
    ensures notes + map[] == notes && notes + map[k := v] == notes[k := v]
  {}

  lemma ConfigMapsOutcome(c: Context, s: Store)
    ensures ConfigMapsAreThere(s, Perform(Writes(c), c, s), c)
  {
    var t, a := Perform(Writes(c), c, s), c.agent;
    StoredMaps(c, s);
    RefsDiffer(a);
    OneNote(NotesOf(s, PromptRef(a)), HASH_ANNOTATION, ConfigHash(c.digest, PromptData(a, c.rd)));
    OneNote(NotesOf(s, SkillsRef(a)), "", "");
    OneNote(NotesOf(s, RoleFilesRef(a)), "", "");
    hide Writes, Perform, PromptData, ConfigHash, NotesOf;
    forall r | r != PromptRef(a) && r != SkillsRef(a) && r != RoleFilesRef(a)
      ensures Lookup(t.configMaps, r) == Lookup(s.configMaps, r)
    {
      OtherConfigMapsAfter(Writes(c), c, s, r);
    }
  }

  lemma PodOutcome(c: Context)
    ensures IsAgentPod(DesiredPod(c), c)
  {
    PodParts(c);
    hide ItemsOf, Behind, DesiredPod;
    var pod := DesiredPod(c);
    MountedBehind(pod, 0);
    MountedBehind(pod, 1);
    MountedBehind(pod, 2);
    MountedBehind(pod, 3);
    MountedBehind(pod, 4);
    if HasExtraFiles(c.rd) {
      MountedBehind(pod, 5);
    }
  }

  lemma PodParts(c: Context)
    ensures
      var pod, a, more := DesiredPod(c), c.agent, HasExtraFiles(c.rd);
      && pod.account == "agent-" + a.name && pod.env == c.env
      && |pod.mounts| == |pod.volumes| == (if more then 6 else 5)
      && pod.volumes[0] == Volume("prompt", FromConfigMap("agent-" + a.name + "-prompt"))
      && pod.volumes[1] ==
           Volume("skills", FromConfigMapItems("agent-" + a.name + "-skills", ItemsOf(SkillsOf(c.rd))))
      && pod.volumes[2] == Volume("jwt-token", FromSecret("agent-" + a.name + "-jwt-token"))
      && pod.volumes[3] == Volume("gitea-token", FromSecret("role-" + a.role + "-gitea-token"))
      && pod.volumes[4] == Volume("workspace", FromClaim("agent-" + a.name + "-workspace"))
      && (more ==> pod.volumes[5] == Volume("role-files", FromConfigMap("agent-" + a.name + "-role-files")))
      && pod.mounts[0] == Mount("prompt", "/agent/config", "")
      && pod.mounts[1] == Mount("skills", "/agent/skills", "")
      && pod.mounts[2] == Mount("jwt-token", "/agent/secrets/jwt-token", "token")
      && pod.mounts[3] == Mount("gitea-token", "/agent/secrets/gitea-token", "token")
      && pod.mounts[4] == Mount("workspace", "/workspace", "")
      && (more ==> pod.mounts[5] == Mount("role-files", "/agent/role", ""))
  {
    hide ItemsOf, SkillsOf, HasExtraFiles;
  }

  lemma MountedBehind(pod: Pod, i: nat)
    requires i < |pod.volumes| && i < |pod.mounts| && pod.mounts[i].volume == pod.volumes[i].name
    ensures Behind(pod, pod.mounts[i].path, pod.mounts[i].subPath, pod.volumes[i].source)
  {
    assert pod.volumes[i] in pod.volumes && pod.mounts[i] in pod.mounts;
  }

  lemma StoredDeployment(c: Context, s: Store)
    ensures var hash := if c.promptReadable then ConfigHash(c.digest, PromptData(c.agent, c.rd)) else "";
      Perform(Writes(c), c, s).deployments ==
        s.deployments[AgentRef(c.agent) := DeploymentFor(c, Lookup(s.deployments, AgentRef(c.agent)), hash)]
  {
    var ws, t := Writes(c), Perform(Writes(c), c, s);
    WritesEndWithDeployment(c);
    LastWrite(ws, c, s);
    NoDeploymentYet(ws[..|ws| - 1], c, s);
    PerformSettles(ws, c, s);
    hide Writes, Perform, PromptData, ConfigHash, DeploymentFor, Do, AgentRef;
    PromptIsStored(c, t);
    DeploymentDo(c, Perform(ws[..|ws| - 1], c, s));
    SameHash(c, Perform(ws[..|ws| - 1], c, s), t);
  }

  lemma DeploymentOutcome(c: Context, s: Store)
    ensures DeploymentIsThere(s, Perform(Writes(c), c, s), c)
  {
    StoredDeployment(c, s);
    PodOutcome(c);
    hide Writes, Perform, IsAgentPod, DesiredPod, PromptData, ConfigHash;
  }

  /** After a full reconcile every object of the agent is there as it should be, and nothing else has changed. */
  lemma FullReconcileLeaves(c: Context, s: Store)
    ensures Reconciled(s, Perform(Writes(c), c, s), c)
  {
    hide GiteaIsSet, ObjectsAreThere, BindingsAreThere, ConfigMapsAreThere, DeploymentIsThere;
    GiteaOutcome(c, s);
    ObjectsOutcome(c, s);
    BindingsOutcome(c, s);
    ConfigMapsOutcome(c, s);
    DeploymentOutcome(c, s);
  }
}
