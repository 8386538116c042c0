/** The resource reconciler: the Ensure steps on the cluster and the loop over them, with a fault possible before any
    single write; each step is shown to complete its part of the plan in order, or as much of it as goes through,
    and success to mean that all of it is done. */
module Operator {
  import opened Wrappers
  import opened SkillKeys
  import opened AgentPrompt
  import opened RoleReader
  import opened ReconcileSteps
  import opened ReconcileOutcome

  /** From s, the first `done` of the writes have been completed and led to t. */
  ghost predicate Reached(ws: seq<Write>, c: Context, s: Store, done: nat, t: Store) {
    done <= |ws| && t == Perform(ws[..done], c, s)
  }

  lemma ReachedNone(ws: seq<Write>, c: Context, s: Store)
    ensures Reached(ws, c, s, 0, s)
  {}

  lemma ReachedOneMore(ws: seq<Write>, c: Context, s: Store, done: nat, t: Store)
    requires Reached(ws, c, s, done, t) && done < |ws|
    ensures Reached(ws, c, s, done + 1, Do(ws[done], c, t))
  {
    assert ws[..done + 1][..done] == ws[..done];
  }

  lemma NextWrite(ws: seq<Write>, done: nat, w: Write, rest: seq<Write>)
    requires done <= |ws| && ws[done..] == [w] + rest
    ensures done < |ws| && ws[done] == w && ws[done + 1..] == rest
  {
    assert ws[done] == ws[done..][0] && ws[done + 1..] == ws[done..][1..];
  }

  lemma ReachedInStep(before: seq<Write>, step: seq<Write>, c: Context, s: Store, t: Store, done: nat, u: Store)
    requires Reached(before, c, s, |before|, t) && Reached(step, c, t, done, u)
    ensures Reached(before + step, c, s, |before| + done, u)
  {
    assert before[..|before|] == before;
    assert (before + step)[..|before| + done] == before + step[..done];
    PerformSplits(before, step[..done], c, s);
  }

  lemma ReachedAfterStep(i: nat, c: Context, s: Store, t: Store, n: nat, u: Store)
    requires i < STEPS
    requires Reached(WritesUpTo(i, c), c, s, |WritesUpTo(i, c)|, t) && Reached(StepWrites(i, c), c, t, n, u)
    ensures Reached(WritesUpTo(i + 1, c), c, s, |WritesUpTo(i, c)| + n, u)
    ensures |WritesUpTo(i + 1, c)| == |WritesUpTo(i, c)| + |StepWrites(i, c)|
  {
    hide Reached, StepWrites;
    ReachedInStep(WritesUpTo(i, c), StepWrites(i, c), c, s, t, n, u);
  }

  lemma ReachedInLonger(ws: seq<Write>, longer: seq<Write>, c: Context, s: Store, done: nat, t: Store)
    requires Reached(ws, c, s, done, t) && ws <= longer
    ensures Reached(longer, c, s, done, t)
  {
    assert longer[..done] == ws[..done];
  }

  /** The volume gives this attempt the role data it plans with, or it cannot be read. */
  ghost predicate PlansWith(v: RolesVolume, c: Context) {
    v.Fits(c.agent.role) && (IsFetched(Failed, v, c.agent.role) || IsFetched(Fetched(c.rd), v, c.agent.role))
  }

  class ResourceReconciler {
    /** The roles volume as this attempt sees it. */
    const volume: RolesVolume
    var store: Store
    var roleData: Option<RoleData>
    /** How many more writes go through before the next fault. */
    var budget: nat

    constructor (volume: RolesVolume, store: Store, budget: nat)
      ensures this.volume == volume && this.store == store && this.budget == budget && roleData == None
    {
      this.volume := volume;
      this.store := store;
      this.budget := budget;
      roleData := None;
    }

    /** Whether the next write goes through. */
    method Goes() returns (ok: bool)
      modifies this`budget
      ensures ok <==> old(budget) > 0
      ensures budget == if ok then old(budget) - 1 else 0
    {
      ok := budget > 0;
      if ok {
        budget := budget - 1;
      }
    }

    method EnsureGiteaUser(c: Context) returns (ok: bool, ghost done: nat)
      modifies this`store, this`budget
      ensures Reached(StepWrites(0, c), c, old(store), done, store) && (ok <==> done == |StepWrites(0, c)|)
      ensures done + budget == old(budget) && (!ok ==> budget == 0)
    {
      ghost var ws, start := StepWrites(0, c), store;
      ReachedNone(ws, c, start);
      done := 0;
      ok := Goes();
      if !ok { return; }
      ReachedOneMore(ws, c, start, done, store);
      store := store.(users := store.users + {"role-" + c.agent.role});
      done := 1;
      ok := Goes();
      if !ok { return; }
      ReachedOneMore(ws, c, start, done, store);
      store := store.(agentUser := store.agentUser[AgentRef(c.agent) := "role-" + c.agent.role]);
      done := 2;
    }

    method EnsureGiteaToken(c: Context) returns (ok: bool, ghost done: nat)
      modifies this`store, this`budget
      ensures Reached([GiteaToken], c, old(store), done, store) && (ok <==> done == 1)
      ensures done + budget == old(budget) && (!ok ==> budget == 0)
    {
      ReachedNone([GiteaToken], c, store);
      done := 0;
      ok := Goes();
      if !ok { return; }
      ReachedOneMore([GiteaToken], c, store, 0, store);
      if TokenRef(c.agent) !in store.secrets {
        store := store.(secrets := store.secrets[TokenRef(c.agent) := c.giteaToken]);
      }
      done := 1;
    }

    method EnsureGiteaRepoAccess(c: Context) returns (ok: bool, ghost done: nat)
      modifies this`store, this`budget
      ensures Reached(RepoWrites(c.agent.repos), c, old(store), done, store)
      ensures ok <==> done == |RepoWrites(c.agent.repos)|
      ensures done + budget == old(budget) && (!ok ==> budget == 0)
    {
      ghost var ws, start := RepoWrites(c.agent.repos), store;
      ReachedNone(ws, c, start);
      done := 0;
      var permission := Permission(c.agent);
      for i := 0 to |c.agent.repos|
        invariant Reached(ws, c, start, done, store)
        invariant done + budget == old(budget)
        invariant ws[done..] == RepoWrites(c.agent.repos[i..])
      {
        var repo := c.agent.repos[i];
        assert c.agent.repos[i..][0] == repo && c.agent.repos[i..][1..] == c.agent.repos[i + 1..];
        if !IsRepo(repo) {
          continue;
        }
        NextWrite(ws, done, RepoAccess(repo), RepoWrites(c.agent.repos[i + 1..]));
        hide Reached, Do, RepoWrites;
        ReachedOneMore(ws, c, start, done, store);
        ok := GrantAccess(c, repo, permission);
        if !ok { return; }
        done := done + 1;
      }
      assert c.agent.repos[|c.agent.repos|..] == [];
      ok := true;
    }

    method GrantAccess(c: Context, repo: string, permission: string) returns (ok: bool)
      requires permission == Permission(c.agent)
      modifies this`store, this`budget
      ensures ok <==> old(budget) > 0
      ensures budget == if ok then old(budget) - 1 else 0
      ensures store == if ok then Do(RepoAccess(repo), c, old(store)) else old(store)
    {
      ok := Goes();
      if ok {
        store := store.(collaborators := store.collaborators[(repo, "role-" + c.agent.role) := permission]);
      }
    }

    method EnsureJWTSecret(c: Context) returns (ok: bool, ghost done: nat)
      modifies this`store, this`budget
      ensures Reached([JwtSecret], c, old(store), done, store) && (ok <==> done == 1)
      ensures done + budget == old(budget) && (!ok ==> budget == 0)
    {
      ReachedNone([JwtSecret], c, store);
      done := 0;
      ok := Goes();
      if !ok { return; }
      ReachedOneMore([JwtSecret], c, store, 0, store);
      if JwtRef(c.agent) !in store.secrets {
        store := store.(secrets := store.secrets[JwtRef(c.agent) := c.jwt]);
      }
      done := 1;
    }

    /** Reads the role's files; nothing in the cluster changes, and if they cannot be read the data of an
        earlier reading stay. */
    method EnsureRoleData(c: Context) returns (ok: bool, ghost done: nat)
      requires volume.Fits(c.agent.role)
      modifies this`roleData
      ensures done == 0 && (ok <==> !IsFetched(Failed, volume, c.agent.role))
      ensures ok ==> IsFetched(Fetched(roleData), volume, c.agent.role)
      ensures !ok ==> roleData == old(roleData)
    {
      var fetched := FetchRoleData(volume, c.agent.role);
      if fetched.Failed? {
        return false, 0;
      }
      NotFailedWhenFetched(fetched, c.agent.role);
      roleData := fetched.data;
      return true, 0;
    }

    lemma NotFailedWhenFetched(f: Fetched, role: string)
      requires f.Fetched? && IsFetched(f, volume, role)
      ensures !IsFetched(Failed, volume, role)
    {
      if IsFetched(Failed, volume, role) {
        FetchedIsUnique(f, Failed, volume, role);
      }
    }

    /** The common shape of the three ConfigMap steps; the cluster refuses data with an invalid key. */
    method PutConfigMap(ref: Ref, data: map<string, string>, notes: map<string, string>) returns (ok: bool)
      modifies this`store, this`budget
      ensures ok <==> old(budget) > 0 && KeysFit(data)
      ensures budget == if ok then old(budget) - 1 else if KeysFit(data) then 0 else old(budget)
      ensures !ok ==> store == old(store)
      ensures ok ==> store == old(store).(configMaps := SetData(old(store).configMaps, ref, data, notes))
    {
      if !KeysFit(data) {
        return false;
      }
      ok := Goes();
      if !ok { return; }
      if ref !in store.configMaps {
        store := store.(configMaps := store.configMaps[ref := ConfigMap(data, notes)]);
        assert map[] + notes == notes;
      } else {
        var cm := store.configMaps[ref];
        store := store.(configMaps := store.configMaps[ref := ConfigMap(data, cm.annotations + notes)]);
      }
    }

    method EnsureConfigMap(c: Context) returns (ok: bool, ghost done: nat)
      requires roleData == c.rd
      modifies this`store, this`budget
      ensures Reached([PromptConfigMap], c, old(store), done, store) && (ok <==> done == 1)
      ensures done + budget == old(budget) && (!ok ==> budget == 0)
    {
      ReachedNone([PromptConfigMap], c, store);
      ReachedOneMore([PromptConfigMap], c, store, 0, store);
      var data := PromptData(c.agent, roleData);
      PromptKeysFit(c.agent, roleData);
      var hash := ComputeHash(c.digest, data);
      ok := PutConfigMap(PromptRef(c.agent), data, map[HASH_ANNOTATION := hash]);
      done := if ok then 1 else 0;
    }

    method EnsureSkillsConfigMap(c: Context, data: map<string, string>) returns (ok: bool, ghost done: nat)
      requires data == c.skillsData
      modifies this`store, this`budget
      ensures Reached([SkillsConfigMap], c, old(store), done, store) && (ok <==> done == 1)
      ensures done + budget == old(budget)
      ensures if ok then !Refused(SkillsConfigMap, c) else budget == 0 || Refused(SkillsConfigMap, c)
    {
      ReachedNone([SkillsConfigMap], c, store);
      ReachedOneMore([SkillsConfigMap], c, store, 0, store);
      ok := PutConfigMap(SkillsRef(c.agent), data, map[]);
      done := if ok then 1 else 0;
    }

    method EnsureRoleFilesConfigMap(c: Context) returns (ok: bool, ghost done: nat)
      requires roleData == c.rd
      modifies this`store, this`budget
      ensures Reached(StepWrites(7, c), c, old(store), done, store) && (ok <==> done == |StepWrites(7, c)|)
      ensures done + budget == old(budget)
      ensures if ok then !Refused(RoleFilesConfigMap, c) else budget == 0 || Refused(RoleFilesConfigMap, c)
    {
      ReachedNone(StepWrites(7, c), c, store);
      if !HasExtraFiles(roleData) {
        return true, 0;
      }
      ReachedOneMore([RoleFilesConfigMap], c, store, 0, store);
      ok := PutConfigMap(RoleFilesRef(c.agent), roleData.value.extraFiles, map[]);
      done := if ok then 1 else 0;
    }

    method EnsurePVC(c: Context) returns (ok: bool, ghost done: nat)
      modifies this`store, this`budget
      ensures Reached([WorkspaceClaim], c, old(store), done, store) && (ok <==> done == 1)
      ensures done + budget == old(budget) && (!ok ==> budget == 0)
    {
      ReachedNone([WorkspaceClaim], c, store);
      done := 0;
      ok := Goes();
      if !ok { return; }
      ReachedOneMore([WorkspaceClaim], c, store, 0, store);
      if ClaimRef(c.agent) !in store.claims {
        var size, class_ := "1Gi", None;
        if c.agent.storageSize != "" {
          size := c.agent.storageSize;
        }
        if c.agent.storageClass != "" {
          class_ := Some(c.agent.storageClass);
        }
        if class_ == None && c.defaultClass != "" {
          class_ := Some(c.defaultClass);
        }
        store := store.(claims := store.claims[ClaimRef(c.agent) := Claim(size, class_)]);
      }
      done := 1;
    }

    method EnsureService(c: Context) returns (ok: bool, ghost done: nat)
      modifies this`store, this`budget
      ensures Reached([AgentService], c, old(store), done, store) && (ok <==> done == 1)
      ensures done + budget == old(budget) && (!ok ==> budget == 0)
    {
      ReachedNone([AgentService], c, store);
      done := 0;
      ok := Goes();
      if !ok { return; }
      ReachedOneMore([AgentService], c, store, 0, store);
      store := store.(services := store.services + {AgentRef(c.agent)});
      done := 1;
    }

    method EnsureServiceAccount(c: Context) returns (ok: bool, ghost done: nat)
      modifies this`store, this`budget
      ensures Reached([AgentAccount], c, old(store), done, store) && (ok <==> done == 1)
      ensures done + budget == old(budget) && (!ok ==> budget == 0)
    {
      ReachedNone([AgentAccount], c, store);
      done := 0;
      ok := Goes();
      if !ok { return; }
      ReachedOneMore([AgentAccount], c, store, 0, store);
      store := store.(accounts := store.accounts + {AgentRef(c.agent)});
      done := 1;
    }

    method EnsureRoleBinding(c: Context) returns (ok: bool, ghost done: nat)
      modifies this`store, this`budget
      ensures Reached(StepWrites(11, c), c, old(store), done, store) && (ok <==> done == |StepWrites(11, c)|)
      ensures done + budget == old(budget) && (!ok ==> budget == 0)
    {
      ghost var ws, start := StepWrites(11, c), store;
      ReachedNone(ws, c, start);
      done := 0;
      ok := Goes();
      if !ok { return; }
      ReachedOneMore(ws, c, start, 0, store);
      var roleName := BoundRole(c.agent);
      if AgentRef(c.agent) !in store.bindings {
        store := store.(bindings := store.bindings[AgentRef(c.agent) := Binding("ClusterRole", roleName)]);
      }
      done := 1;
      var spaces := c.agent.namespaceAccess;
      assert spaces[0..] == spaces;
      for i := 0 to |spaces|
        invariant done == i + 1 && Reached(ws, c, start, done, store)
        invariant done + budget == old(budget)
        invariant ws[done..] == BindingWrites(spaces[i..])
      {
        var ns := spaces[i];
        assert spaces[i..][0] == ns && spaces[i..][1..] == spaces[i + 1..];
        NextWrite(ws, done, ExtraBinding(ns), BindingWrites(spaces[i + 1..]));
        hide Reached, StepWrites, Do, BindingWrites;
        ReachedOneMore(ws, c, start, done, store);
        ok := BindIn(c, ns, roleName);
        if !ok { return; }
        done := done + 1;
      }
      assert spaces[|spaces|..] == [];
    }

    method BindIn(c: Context, ns: string, roleName: string) returns (ok: bool)
      requires roleName == BoundRole(c.agent)
      modifies this`store, this`budget
      ensures ok <==> old(budget) > 0
      ensures budget == if ok then old(budget) - 1 else 0
      ensures store == if ok then Do(ExtraBinding(ns), c, old(store)) else old(store)
    {
      ok := Goes();
      if ok && ns in store.namespaces && ExtraRef(c.agent, ns) !in store.bindings {
        store := store.(bindings := store.bindings[ExtraRef(c.agent, ns) := Binding("Role", roleName)]);
      }
    }

    method EnsureDeployment(c: Context) returns (ok: bool, ghost done: nat)
      requires roleData == c.rd
      modifies this`store, this`budget
      ensures Reached([AgentDeployment], c, old(store), done, store) && (ok <==> done == 1)
      ensures done + budget == old(budget) && (!ok ==> budget == 0)
    {
      ReachedNone([AgentDeployment], c, store);
      ReachedOneMore([AgentDeployment], c, store, 0, store);
      done := 0;
      var hash := if c.promptReadable then StoredHash(store, c.agent) else "";
      var pod := BuildPod(c);
      var replicas := if c.agent.paused then 0 else 1;
      ok := Goes();
      if !ok { return; }
      var ref := AgentRef(c.agent);
      var d := Deployment(replicas, c.agent.role, map[HASH_ANNOTATION := hash], pod);
      if ref in store.deployments {
        var existing := store.deployments[ref];
        d := Deployment(replicas, existing.roleLabel, existing.annotations[HASH_ANNOTATION := hash], pod);
      }
      store := store.(deployments := store.deployments[ref := d]);
      done := 1;
    }

    method BuildPod(c: Context) returns (pod: Pod)
      requires roleData == c.rd
      ensures pod == DesiredPod(c)
    {
      var items := BuildSkillItems(SkillsOf(roleData));
      ItemsAreSkillItems(SkillsOf(c.rd));
      SkillItemsAreUnique(SkillsOf(c.rd), items, ItemsOf(SkillsOf(c.rd)));
      var a := c.agent;
      var volumes := [
        Volume("prompt", FromConfigMap(PromptRef(a).1)),
        Volume("skills", FromConfigMapItems(SkillsRef(a).1, items)),
        Volume("jwt-token", FromSecret(JwtRef(a).1)),
        Volume("gitea-token", FromSecret(TokenRef(a).1)),
        Volume("workspace", FromClaim(ClaimRef(a).1))];
      var mounts := [
        Mount("prompt", "/agent/config", ""),
        Mount("skills", "/agent/skills", ""),
        Mount("jwt-token", "/agent/secrets/jwt-token", "token"),
        Mount("gitea-token", "/agent/secrets/gitea-token", "token"),
        Mount("workspace", "/workspace", "")];
      if HasExtraFiles(roleData) {
        volumes := volumes + [Volume("role-files", FromConfigMap(RoleFilesRef(a).1))];
        mounts := mounts + [Mount("role-files", "/agent/role", "")];
      }
      pod := Pod(AgentRef(a).1, c.env, volumes, mounts);
    }

    /** A step fails because of a fault, because the role cannot be read, or because its write is refused. */
    ghost predicate FailsFor(i: nat, done: nat, c: Context)
      requires i < STEPS
      reads this
    {
      || budget == 0
      || (i == 4 && IsFetched(Failed, volume, c.agent.role))
      || (done < |StepWrites(i, c)| && Refused(StepWrites(i, c)[done], c))
    }

    /** After `done` writes: a fault, a role that cannot be read, or a write that the cluster refuses. */
    ghost predicate StoppedBy(done: nat, c: Context)
      reads this
    {
      || budget == 0
      || (IsFetched(Failed, volume, c.agent.role) && done == |WritesUpTo(4, c)|)
      || (done < |Writes(c)| && Refused(Writes(c)[done], c))
    }

    method DoStep(i: nat, c: Context) returns (ok: bool, ghost done: nat)
      requires i < STEPS && PlansWith(volume, c) && (i > 4 ==> roleData == c.rd)
      modifies this
      ensures Reached(StepWrites(i, c), c, old(store), done, store)
      ensures done + budget == old(budget)
      ensures if ok then done == |StepWrites(i, c)| else FailsFor(i, done, c) && (i == 4 || done < |StepWrites(i, c)|)
      ensures ok && i == 6 ==> KeysFit(c.skillsData)
      ensures ok && i == 7 ==> KeysFit(ExtraFilesOf(c.rd))
      ensures ok && i == 4 ==> !IsFetched(Failed, volume, c.agent.role)
      ensures ok && i >= 4 ==> roleData == c.rd
    {
      hide Reached;
      match i {
        case 0 => ok, done := EnsureGiteaUser(c);
        case 1 => ok, done := EnsureGiteaToken(c);
        case 2 => ok, done := EnsureGiteaRepoAccess(c);
        case 3 => ok, done := EnsureJWTSecret(c);
        case 4 => ok, done := ReadRole(c);
        case 5 => ok, done := EnsureConfigMap(c);
        case 6 => ok, done := EnsureSkillsConfigMap(c, c.skillsData);
        case 7 => ok, done := EnsureRoleFilesConfigMap(c);
        case 8 => ok, done := EnsurePVC(c);
        case 9 => ok, done := EnsureService(c);
        case 10 => ok, done := EnsureServiceAccount(c);
        case 11 => ok, done := EnsureRoleBinding(c);
        case _ => ok, done := EnsureDeployment(c);
      }
      assert i != 4 && !ok ==> done != |StepWrites(i, c)|;
      ReachedBound(StepWrites(i, c), c, old(store), done, store);
    }

    method ReadRole(c: Context) returns (ok: bool, ghost done: nat)
      requires PlansWith(volume, c)
      modifies this`roleData
      ensures done == 0 && Reached([], c, store, 0, store)
      ensures ok <==> !IsFetched(Failed, volume, c.agent.role)
      ensures ok ==> roleData == c.rd
    {
      hide IsFetched;
      ReachedNone([], c, store);
      ok, done := EnsureRoleData(c);
      if ok {
        FetchedIsUnique(Fetched(roleData), Fetched(c.rd), volume, c.agent.role);
      }
    }

    /** ReconcileAll: the steps in order until one fails. The context names the tokens and the skills
        data that this attempt uses; the role data are those of the volume. */
    method ReconcileAll(request: Context) returns (ok: bool, ghost c: Context, ghost done: nat)
      requires volume.Fits(request.agent.role)
      modifies this
      ensures c == request.(skillsData := c.skillsData, rd := c.rd) && IsSkillsData(SkillsOf(c.rd), c.skillsData)
      ensures PlansWith(volume, c)
      ensures Reached(Writes(c), c, old(store), done, store) && (ok <==> done == |Writes(c)|)
      ensures done + budget == old(budget)
      ensures !ok ==> StoppedBy(done, c)
      ensures ok ==> !IsFetched(Failed, volume, c.agent.role) && Completes(c)
      ensures ok ==> Reconciled(old(store), store, c)
    {
      var fetched := FetchRoleData(volume, request.agent.role);
      var rd := if fetched.Failed? then None else fetched.data;
      var data := BuildSkillsData(SkillsOf(rd));
      var context := request.(skillsData := data, rd := rd);
      c := context;
      ok, done := RunSteps(context);
      if ok {
        ReachedAll(c, old(store), store);
      }
    }

    method RunSteps(c: Context) returns (ok: bool, ghost done: nat)
      requires PlansWith(volume, c)
      modifies this
      ensures Reached(Writes(c), c, old(store), done, store) && (ok <==> done == |Writes(c)|)
      ensures done + budget == old(budget)
      ensures !ok ==> StoppedBy(done, c)
      ensures ok ==> !IsFetched(Failed, volume, c.agent.role) && Completes(c)
    {
      hide Reached, StepWrites, Perform, IsFetched, KeysFit, ExtraFilesOf, PlansWith;
      ghost var start := store;
      done := 0;
      ReachedNone([], c, start);
      assert WritesUpTo(0, c) == [];
      for i := 0 to STEPS
        invariant done == |WritesUpTo(i, c)| && Reached(WritesUpTo(i, c), c, start, done, store)
        invariant i > 4 ==> roleData == c.rd && !IsFetched(Failed, volume, c.agent.role)
        invariant i > 6 ==> KeysFit(c.skillsData)
        invariant i > 7 ==> KeysFit(ExtraFilesOf(c.rd))
        invariant done + budget == old(budget)
      {
        hide WritesUpTo;
        ghost var middle := store;
        ghost var n: nat;
        ok, n := DoStep(i, c);
        ReachedAfterStep(i, c, start, middle, n, store);
        done := done + n;
        if !ok {
          FailedEarly(i, c, start, n, store);
          return;
        }
      }
      ok := true;
    }
  }

  lemma ReachedAll(c: Context, s: Store, t: Store)
    requires Reached(Writes(c), c, s, |Writes(c)|, t)
    ensures Reconciled(s, t, c)
  {
    hide Writes, Perform, Reconciled;
    assert Writes(c)[..|Writes(c)|] == Writes(c);
    FullReconcileLeaves(c, s);
  }

  lemma ReachedBound(ws: seq<Write>, c: Context, s: Store, done: nat, t: Store)
    requires Reached(ws, c, s, done, t)
    ensures done <= |ws|
  {}

  lemma FailedEarly(i: nat, c: Context, s: Store, n: nat, t: Store)
    requires i < STEPS && (i == 4 || n != |StepWrites(i, c)|)
    requires Reached(WritesUpTo(i + 1, c), c, s, |WritesUpTo(i, c)| + n, t)
    ensures Reached(Writes(c), c, s, |WritesUpTo(i, c)| + n, t) && |WritesUpTo(i, c)| + n < |Writes(c)|
    ensures i == 4 ==> n == 0
    ensures n < |StepWrites(i, c)| ==> Writes(c)[|WritesUpTo(i, c)| + n] == StepWrites(i, c)[n]
  {
    MoreAfterReading(c);
    hide StepWrites, Perform, Reached;
    UpToIsPrefix(i + 1, STEPS, c);
    ReachedBound(WritesUpTo(i + 1, c), c, s, |WritesUpTo(i, c)| + n, t);
    ReachedInLonger(WritesUpTo(i + 1, c), Writes(c), c, s, |WritesUpTo(i, c)| + n, t);
  }

  lemma MoreAfterReading(c: Context)
    ensures |WritesUpTo(5, c)| == |WritesUpTo(4, c)| < |Writes(c)|
  {
    hide WritesUpTo;
    var four, five, six := WritesUpTo(4, c), WritesUpTo(5, c), WritesUpTo(6, c);
    OneStepMore(5, c);
    OneStepMore(6, c);
    UpToIsPrefix(6, STEPS, c);
  }
}
