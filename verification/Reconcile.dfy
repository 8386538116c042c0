/** Whole reconciles: whether retrying converges, what is refused, and what a complete one leaves behind. */
module Reconcile {
  import opened SkillKeys
  import opened AgentPrompt
  import opened ReconcileSteps

  // Retrying ---------------------------------------------------------------------------------------

  /** After failed attempts over the same inputs a full reconcile ends where an uninterrupted one would
      have ended, up to token values, if skills that share a key have the same content. */
  lemma RetryConverges(c: Context, attempts: seq<Attempt>, d: Context, s: Store)
    requires IsSkillsData(SkillsOf(c.rd), c.skillsData) && KeysAgree(SkillsOf(c.rd))
    requires forall a :: a in attempts ==> SameInputs(c, a.c) && a.done <= |Writes(c)|
    requires SameInputs(c, d) && d.promptReadable == c.promptReadable
    ensures SameButTokens(Perform(Writes(c), d, Try(Writes(c), attempts, s)), Perform(Writes(c), c, s))
  {
    var ws, flagged := Writes(c), Flagged(attempts, c);
    SameInputsSamePlan(c, d);
    SamePlanPod(c, d);
    SameAgentSameWrites(STEPS, c, d);
    assert Writes(d) == ws;
    forall a | a in attempts
      ensures LikePlan(c, a.c) && a.done <= |ws|
    {
      SameInputsSamePlan(c, a.c);
    }
    hide Writes, Alike, SameButTokens, LikePlan, SamePlan, Perform, SameInputs;
    TryRespectsAlike(ws, c, attempts, s);
    assert ValidAttempts(c, flagged);
    var j := AttemptsReachPrefix(c, flagged, s);
    WritesEndWithDeployment(c);
    FullAttempt(ws, c, d, Try(ws, flagged, s), s, j);
    FullReconcileForgets(d, Try(ws, attempts, s), Try(ws, flagged, s));
  }

  lemma SameInputsSamePlan(c: Context, d: Context)
    requires SameInputs(c, d) && IsSkillsData(SkillsOf(c.rd), c.skillsData) && KeysAgree(SkillsOf(c.rd))
    ensures LikePlan(c, d) && (d.promptReadable == c.promptReadable ==> SamePlan(c, d))
  {
    SkillsDataIsUnique(SkillsOf(c.rd), c.skillsData, d.skillsData);
    assert d.(skillsData := c.skillsData) == d;
  }

  /** Retrying converges, whatever the attempts and the store they began with, if and only if skills that
      share a key have the same content. */
  lemma RetryConvergesIff(c: Context)
    requires IsSkillsData(SkillsOf(c.rd), c.skillsData)
    ensures (forall attempts: seq<Attempt>, d: Context, s: Store ::
               (forall a :: a in attempts ==> SameInputs(c, a.c) && a.done <= |Writes(c)|) &&
               SameInputs(c, d) && d.promptReadable == c.promptReadable ==>
                 SameButTokens(Perform(Writes(c), d, Try(Writes(c), attempts, s)), Perform(Writes(c), c, s)))
      <==> KeysAgree(SkillsOf(c.rd))
  {
    if KeysAgree(SkillsOf(c.rd)) {
      forall attempts: seq<Attempt>, d: Context, s: Store |
        (forall a :: a in attempts ==> SameInputs(c, a.c) && a.done <= |Writes(c)|) &&
        SameInputs(c, d) && d.promptReadable == c.promptReadable
        ensures SameButTokens(Perform(Writes(c), d, Try(Writes(c), attempts, s)), Perform(Writes(c), c, s))
      {
        RetryConverges(c, attempts, d, s);
      }
    } else {
      var s := Store({}, map[], map[], map[], map[], map[], {}, {}, map[], {}, map[]);
      var d := OtherOrderShows(c, s, s);
      assert Try(Writes(c), [], s) == s;
    }
  }

  /** Over skills whose contents differ under one key, a reconcile in another order stores other skills. */
  lemma OtherOrderShows(c: Context, s: Store, t: Store) returns (d: Context)
    requires IsSkillsData(SkillsOf(c.rd), c.skillsData) && !KeysAgree(SkillsOf(c.rd))
    ensures SameInputs(c, d) && d.promptReadable == c.promptReadable
    ensures Perform(Writes(c), d, t).configMaps != Perform(Writes(c), c, s).configMaps
  {
    var other := DifferentSkillsData(SkillsOf(c.rd), c.skillsData);
    d := c.(skillsData := other);
    assert d.(skillsData := c.skillsData) == c;
    SameAgentSameWrites(STEPS, c, d);
    assert Writes(d) == Writes(c);
    SkillsArriveInStore(c, s);
    SkillsArriveInStore(d, t);
  }

  lemma SkillsArriveInStore(c: Context, s: Store)
    requires IsSkillsData(SkillsOf(c.rd), c.skillsData)
    ensures var m := Perform(Writes(c), c, s).configMaps;
      SkillsRef(c.agent) in m && m[SkillsRef(c.agent)].data == c.skillsData
  {
    WritesEndWithDeployment(c);
    PerformSettles(Writes(c), c, s);
    hide Perform, Writes, IsSkillsData;
    SkillsAreStored(c, Perform(Writes(c), c, s));
  }

  // Attempts that are refused ----------------------------------------------------------------------

  ghost predicate Admitted(ws: seq<Write>, c: Context) {
    forall w :: w in ws ==> !Refused(w, c)
  }

  /** Every write is accepted if and only if the keys of the skills and of the extra files are valid. */
  lemma CompletesIff(c: Context)
    ensures Admitted(Writes(c), c) <==> Completes(c)
  {
    WritesEndWithDeployment(c);
    hide Writes;
    PromptKeysFit(c.agent, c.rd);
  }

  lemma {:induction false} NoDeploymentYet(ws: seq<Write>, c: Context, s: Store)
    requires forall w :: w in ws ==> !w.AgentDeployment?
    ensures Perform(ws, c, s).deployments == s.deployments
    decreases |ws|
  {
    if ws != [] {
      var before, last := ws[..|ws| - 1], ws[|ws| - 1];
      NoDeploymentYet(before, c, s);
      assert last in ws;
      DeploymentsAreKept(last, c, Perform(before, c, s));
    }
  }

  /** With an invalid key among the skills or the extra files no attempt ever touches a Deployment. */
  lemma {:induction false} InvalidKeyBlocks(c: Context, attempts: seq<Attempt>, s: Store)
    requires IsSkillsData(SkillsOf(c.rd), c.skillsData) && !Completes(c)
    requires forall a :: a in attempts ==> a.done <= |Writes(c)|
    requires forall a :: a in attempts ==> SameInputs(c, a.c) && Admitted(Writes(c)[..a.done], a.c)
    ensures Try(Writes(c), attempts, s).deployments == s.deployments
    decreases |attempts|
  {
    if attempts != [] {
      var before, last := attempts[..|attempts| - 1], attempts[|attempts| - 1];
      assert last in attempts && forall a :: a in before ==> a in attempts;
      InvalidKeyBlocks(c, before, s);
      SameKeysBlock(c, last.c);
      CompletesIff(last.c);
      WritesEndWithDeployment(c);
      hide Writes, SameInputs, Completes, IsSkillsData, SkillsOf, Perform, Refused;
      var ws := Writes(c);
      assert ws[..|ws|] == ws;
      NoDeploymentYet(ws[..last.done], last.c, Try(ws, before, s));
    }
  }

  lemma SameKeysBlock(c: Context, d: Context)
    requires SameInputs(c, d) && IsSkillsData(SkillsOf(c.rd), c.skillsData)
    ensures Completes(d) <==> Completes(c)
    ensures Writes(d) == Writes(c)
  {
    SameAgentSameWrites(STEPS, c, d);
    hide WritesUpTo, SkillKey, ValidKey;
    assert c.skillsData.Keys == d.skillsData.Keys;
  }

  // Once more ----------------------------------------------------------------------------------

  lemma FullReconcileIsStable(c: Context, d: Context, s: Store)
    requires SamePlan(c, d)
    ensures Perform(Writes(c), d, Perform(Writes(c), c, s)) == Perform(Writes(c), c, s)
  {
    WritesEndWithDeployment(c);
    PerformSettles(Writes(c), c, s);
    AllSettledForAnyToken(Writes(c), c, d, Perform(Writes(c), c, s));
    PerformSettledIsIdle(Writes(c), d, Perform(Writes(c), c, s));
  }

  /** From any store, one more full reconcile changes nothing at all, token values included, if and only if
      skills that share a key have the same content. */
  lemma FullReconcileIsStableIff(c: Context, s: Store)
    requires IsSkillsData(SkillsOf(c.rd), c.skillsData)
    ensures (forall d: Context :: SameInputs(c, d) && d.promptReadable == c.promptReadable ==>
               Perform(Writes(c), d, Perform(Writes(c), c, s)) == Perform(Writes(c), c, s))
      <==> KeysAgree(SkillsOf(c.rd))
  {
    if KeysAgree(SkillsOf(c.rd)) {
      forall d: Context | SameInputs(c, d) && d.promptReadable == c.promptReadable
        ensures Perform(Writes(c), d, Perform(Writes(c), c, s)) == Perform(Writes(c), c, s)
      {
        SameInputsSamePlan(c, d);
        FullReconcileIsStable(c, d, s);
      }
    } else {
      var d := OtherOrderShows(c, s, Perform(Writes(c), c, s));
    }
  }

  // Coherence of what is left behind -----------------------------------------------------------

  ghost predicate SourceExists(s: Store, ns: string, source: Source) {
    match source
    case FromConfigMap(name) => (ns, name) in s.configMaps
    case FromConfigMapItems(name, items) =>
      (ns, name) in s.configMaps && forall it :: it in items ==> it.key in s.configMaps[(ns, name)].data
    case FromSecret(name) => (ns, name) in s.secrets
    case FromClaim(name) => (ns, name) in s.claims
  }

  /** After a full reconcile the Deployment fits the rest: each volume's object and keys exist, the
      pod-template hash is the hash of the stored prompt, which is the resolved one (if it could be read
      back), and it runs exactly when the agent is not paused. */
  lemma DeploymentIsCoherent(c: Context, s: Store)
    requires IsSkillsData(SkillsOf(c.rd), c.skillsData)
    ensures var t := Perform(Writes(c), c, s); var a := c.agent;
      && AgentRef(a) in t.deployments
      && var d := t.deployments[AgentRef(a)];
      && d.pod == DesiredPod(c)
      && (forall v :: v in d.pod.volumes ==> SourceExists(t, a.namespace, v.source))
      && PromptRef(a) in t.configMaps && t.configMaps[PromptRef(a)].data == PromptData(a, c.rd)
      && HASH_ANNOTATION in d.annotations
      && d.annotations[HASH_ANNOTATION] ==
           (if c.promptReadable then ConfigHash(c.digest, t.configMaps[PromptRef(a)].data) else "")
      && (d.replicas == 0 <==> a.paused)
  {
    var t, ws := Perform(Writes(c), c, s), Writes(c);
    WritesEndWithDeployment(c);
    PerformSettles(ws, c, s);
    hide Writes, Perform;
    PromptIsStored(c, t);
    VolumesExist(c, t);
    SettledDeployment(c, t);
    hide Do, Settled, AllSettled, StoredHash, PromptData, ConfigHash, DesiredPod, SourceExists;
  }

  lemma SettledDeployment(c: Context, t: Store)
    requires Settled(AgentDeployment, c, t)
    ensures AgentRef(c.agent) in t.deployments
    ensures var d := t.deployments[AgentRef(c.agent)];
      && d.pod == DesiredPod(c) && (d.replicas == 0 <==> c.agent.paused)
      && HASH_ANNOTATION in d.annotations
      && d.annotations[HASH_ANNOTATION] == if c.promptReadable then StoredHash(t, c.agent) else ""
  {
    hide DesiredPod, StoredHash;
  }

  /** What the pod sees below its skills directory is what the role holds, if and only if skills that
      share a key have the same content. */
  lemma MountedSkillsAreTheRoles(c: Context, s: Store, mounted: map<string, string>)
    requires IsSkillsData(SkillsOf(c.rd), c.skillsData)
    requires var t := Perform(Writes(c), c, s);
      SkillsRef(c.agent) in t.configMaps &&
        IsMount(t.configMaps[SkillsRef(c.agent)].data, ItemsOf(SkillsOf(c.rd)), mounted)
    ensures mounted == SkillsOf(c.rd) <==> KeysAgree(SkillsOf(c.rd))
  {
    var skills := SkillsOf(c.rd);
    WritesEndWithDeployment(c);
    PerformSettles(Writes(c), c, s);
    SkillsAreStored(c, Perform(Writes(c), c, s));
    ItemsAreSkillItems(skills);
    hide Perform, Writes, SkillKey, IsMount, IsSkillsData, AreSkillItems, ItemsOf;
    MountRestoresIff(skills, c.skillsData, ItemsOf(skills), mounted);
  }

  /** A reconcile that could not read the prompt leaves an empty hash, which the next one repairs. */
  lemma UnreadablePromptIsRepaired(c: Context, d: Context, s: Store)
    requires c.promptReadable && d == c.(promptReadable := false)
    ensures Perform(Writes(c), c, Perform(Writes(d), d, s)) == Perform(Writes(c), c, s)
  {
    hide WritesUpTo, Perform, Do;
    SameAgentSameWrites(STEPS, c, d);
    assert Writes(d) == Writes(c);
    hide Writes;
    PerformRespectsAlike(Writes(c), c, d, s, s);
    FullReconcileForgets(c, Perform(Writes(c), c, s), Perform(Writes(c), d, s));
    FullReconcileIsStable(c, c, s);
  }

  lemma PromptIsStored(c: Context, t: Store)
    requires Settled(PromptConfigMap, c, t)
    ensures PromptRef(c.agent) in t.configMaps && t.configMaps[PromptRef(c.agent)].data == PromptData(c.agent, c.rd)
    ensures StoredHash(t, c.agent) == ConfigHash(c.digest, PromptData(c.agent, c.rd))
  {
    ConfigMapSettledIff(PromptConfigMap, c, t);
    var notes := t.configMaps[PromptRef(c.agent)].annotations;
    var hash := ConfigHash(c.digest, PromptData(c.agent, c.rd));
    assert (notes + map[HASH_ANNOTATION := hash])[HASH_ANNOTATION] == hash;
  }

  lemma SkillsAreStored(c: Context, t: Store)
    requires Settled(SkillsConfigMap, c, t) && IsSkillsData(SkillsOf(c.rd), c.skillsData)
    ensures SkillsRef(c.agent) in t.configMaps && t.configMaps[SkillsRef(c.agent)].data == c.skillsData
    ensures forall it :: it in ItemsOf(SkillsOf(c.rd)) ==> it.key in c.skillsData
  {
    ConfigMapSettledIff(SkillsConfigMap, c, t);
    ItemsAreSkillItems(SkillsOf(c.rd));
  }

  lemma VolumesExist(c: Context, t: Store)
    requires AllSettled(Writes(c), c, t) && IsSkillsData(SkillsOf(c.rd), c.skillsData)
    ensures forall v :: v in DesiredPod(c).volumes ==> SourceExists(t, c.agent.namespace, v.source)
  {
    WritesEndWithDeployment(c);
    hide Writes, Do, Settled;
    PromptIsStored(c, t);
    SkillsAreStored(c, t);
    CreatedExist(c, t);
    if HasExtraFiles(c.rd) {
      RoleFilesAreStored(c, t);
    }
    hide PromptData, ItemsOf, ConfigHash, StoredHash;
    forall v | v in DesiredPod(c).volumes
      ensures SourceExists(t, c.agent.namespace, v.source)
    {
      SourceIsKnown(c, v);
    }
  }

  lemma SourceIsKnown(c: Context, v: Volume)
    requires v in DesiredPod(c).volumes
    ensures v.source == FromConfigMap(PromptRef(c.agent).1)
      || v.source == FromConfigMapItems(SkillsRef(c.agent).1, ItemsOf(SkillsOf(c.rd)))
      || v.source == FromSecret(JwtRef(c.agent).1) || v.source == FromSecret(TokenRef(c.agent).1)
      || v.source == FromClaim(ClaimRef(c.agent).1)
      || (HasExtraFiles(c.rd) && v.source == FromConfigMap(RoleFilesRef(c.agent).1))
  {}

  lemma RoleFilesAreStored(c: Context, t: Store)
    requires Settled(RoleFilesConfigMap, c, t)
    ensures RoleFilesRef(c.agent) in t.configMaps
    ensures t.configMaps[RoleFilesRef(c.agent)].data == ExtraFilesOf(c.rd)
  {
    ConfigMapSettledIff(RoleFilesConfigMap, c, t);
  }

  lemma CreatedExist(c: Context, t: Store)
    requires Settled(GiteaToken, c, t) && Settled(JwtSecret, c, t) && Settled(WorkspaceClaim, c, t)
    ensures TokenRef(c.agent) in t.secrets && JwtRef(c.agent) in t.secrets && ClaimRef(c.agent) in t.claims
  {
    assert TokenRef(c.agent) in Do(GiteaToken, c, t).secrets;
    assert JwtRef(c.agent) in Do(JwtSecret, c, t).secrets;
    assert ClaimRef(c.agent) in Do(WorkspaceClaim, c, t).claims;
  }
}
