/** The prompt an agent receives, and the hash that ties its Deployment to it. */
module AgentPrompt {
  import opened Wrappers
  import opened Text
  import opened Substitution
  import opened Template
  import SkillKeys

  datatype Agent = Agent(
    name: string,
    namespace: string,
    role: string,
    paused: bool,
    repos: seq<string>,
    permissions: seq<string>,
    rbacRole: string,
    namespaceAccess: seq<string>,
    storageSize: string,
    storageClass: string)

  datatype RoleData = RoleData(
    soul: string,
    prompt: string,
    agentsMd: string,
    skills: map<string, string>,
    extraFiles: map<string, string>)

  function JoinComma(parts: seq<string>): string {
    if parts == [] then "" else if |parts| == 1 then parts[0] else parts[0] + "," + JoinComma(parts[1..])
  }

  function AgentId(agent: Agent): string { "agent-" + agent.name }

  /** The replacements the prompt goes through; with no repositories the first is left out. */
  function Resolve(agent: Agent, prompt: string): string {
    var withRepos := if agent.repos != [] then ReplaceAll(prompt, "{{REPOS}}", JoinComma(agent.repos)) else prompt;
    var withId := ReplaceAll(withRepos, "{{AGENT_ID}}", AgentId(agent));
    ReplaceAll(withId, "{{AGENT_ROLE}}", agent.role)
  }

  function PromptData(agent: Agent, rd: Option<RoleData>): map<string, string> {
    if rd.None? then map[]
    else
      (if rd.value.soul != "" then map["SOUL.md" := rd.value.soul] else map[]) +
      (if rd.value.agentsMd != "" then map["AGENTS.md" := rd.value.agentsMd] else map[]) +
      (if rd.value.prompt != "" then map["PROMPT.md" := Resolve(agent, rd.value.prompt)] else map[])
  }

  function CronPrompt(agent: Agent, rd: Option<RoleData>): string {
    if rd.None? || rd.value.prompt == "" then "" else Resolve(agent, rd.value.prompt)
  }

  function Rules(agent: Agent): seq<Rule> {
    (if agent.repos != [] then [Rule("REPOS", JoinComma(agent.repos))] else []) +
    [Rule("AGENT_ID", AgentId(agent)), Rule("AGENT_ROLE", agent.role)]
  }

  /** What the values must look like for the placeholders to keep their meaning: the repositories cannot
      become part of the two placeholders replaced after them, nor the id of the last one; the role's value
      may be anything, and if it is its own placeholder the last replacement does nothing anyway. */
  predicate KeepsPlaceholders(agent: Agent) {
    var joined := JoinComma(agent.repos);
    && (agent.repos != [] ==> !Touches(joined, "{{AGENT_ID}}"))
    && (agent.role == "{{AGENT_ROLE}}" ||
        (!Touches(AgentId(agent), "{{AGENT_ROLE}}") && (agent.repos != [] ==> !Touches(joined, "{{AGENT_ROLE}}"))))
  }

  /** A simple sufficient condition: no braces in the name, and repositories that hold no braces but some
      character that is neither a capital nor an underscore. */
  predicate CleanValues(agent: Agent) {
    && (forall c :: c in agent.name ==> !IsBrace(c))
    && (agent.repos != [] ==> Inert(JoinComma(agent.repos)))
  }

  lemma RulesAreValid(agent: Agent)
    ensures ValidRules(Rules(agent))
  {
    assert forall r :: r in Rules(agent) ==> r.name == "REPOS" || r.name == "AGENT_ID" || r.name == "AGENT_ROLE";
    assert "REPOS"[0] == 'R' && "AGENT_ID"[0] == 'A' && "AGENT_ROLE"[0] == 'A';
    assert "AGENT_ID"[6] == 'I' && "AGENT_ROLE"[6] == 'R';
  }

  lemma ResolveIsSequential(agent: Agent, prompt: string)
    ensures Resolve(agent, prompt) == Sequential(Rules(agent), prompt)
  {
    var rules := Rules(agent);
    var n := |rules|;
    assert rules[..n - 1][..n - 2] == rules[..n - 2];
    assert Rule("AGENT_ROLE", agent.role).Placeholder() == "{{AGENT_ROLE}}";
    assert Rule("AGENT_ID", AgentId(agent)).Placeholder() == "{{AGENT_ID}}";
    assert Sequential(rules, prompt) == ReplaceAll(Sequential(rules[..n - 1], prompt), "{{AGENT_ROLE}}", agent.role);
    assert Sequential(rules[..n - 1], prompt) ==
      ReplaceAll(Sequential(rules[..n - 2], prompt), "{{AGENT_ID}}", AgentId(agent));
    if agent.repos != [] {
      assert Rule("REPOS", JoinComma(agent.repos)).Placeholder() == "{{REPOS}}";
      assert rules[..n - 2] == [Rule("REPOS", JoinComma(agent.repos))];
      assert rules[..1][..0] == [];
      assert Sequential([], prompt) == prompt;
    } else {
      assert rules[..n - 2] == [];
    }
  }

  lemma IdIsInert(agent: Agent)
    requires forall c :: c in agent.name ==> !IsBrace(c)
    ensures Inert(AgentId(agent))
  {
    var id := AgentId(agent);
    assert id[0] == 'a' && id[0] in id;
    assert forall c :: c in id ==> c in "agent-" || c in agent.name;
  }

  function ReposRule(agent: Agent): Rule { Rule("REPOS", JoinComma(agent.repos)) }

  function IdRule(agent: Agent): Rule { Rule("AGENT_ID", AgentId(agent)) }

  function RoleRule(agent: Agent): Rule { Rule("AGENT_ROLE", agent.role) }

  /** The rules before the last one. */
  function Front(agent: Agent): seq<Rule> {
    (if agent.repos != [] then [ReposRule(agent)] else []) + [IdRule(agent)]
  }

  lemma RulesEndWithRole(agent: Agent)
    ensures Rules(agent) == Front(agent) + [RoleRule(agent)]
    ensures IdRule(agent).Placeholder() == "{{AGENT_ID}}" && RoleRule(agent).Placeholder() == "{{AGENT_ROLE}}"
    ensures ReposRule(agent).Placeholder() == "{{REPOS}}"
  {}

  /** Exactly for which agents the successive replacements are one left-to-right substitution of every
      prompt. */
  lemma PromptIsOnePassIff(agent: Agent)
    ensures (forall prompt :: Resolve(agent, prompt) == Substitute(Rules(agent), prompt)) <==> KeepsPlaceholders(agent)
  {
    var front, last := Front(agent), RoleRule(agent);
    RulesEndWithRole(agent);
    RulesAreValid(agent);
    forall prompt
      ensures Resolve(agent, prompt) == Sequential(Rules(agent), prompt)
    {
      ResolveIsSequential(agent, prompt);
    }
    if agent.repos != [] && Touches(JoinComma(agent.repos), "{{AGENT_ID}}") {
      var v, q := JoinComma(agent.repos), "{{AGENT_ID}}";
      var d :| -|v| < d < |q| && LiesOn(v, q, d);
      SprungPromptDiffers(agent, v, q, d);
    } else {
      assert AgentId(agent)[0] == 'a';
      assert Orderly(front);
      LastRuleIff(front, last);
    }
  }

  function Occurrences(c: char, s: string): nat {
    if s == "" then 0 else (if s[0] == c then 1 else 0) + Occurrences(c, s[1..])
  }

  lemma {:induction false} OccurrencesSplit(c: char, x: string, y: string)
    ensures Occurrences(c, x + y) == Occurrences(c, x) + Occurrences(c, y)
    decreases |x|
  {
    if x == "" {
      assert x + y == y;
    } else {
      assert (x + y)[0] == x[0] && (x + y)[1..] == x[1..] + y;
      OccurrencesSplit(c, x[1..], y);
    }
  }

  /** Replacing a text without c never takes a c away. */
  lemma {:induction false} OccurrencesStay(c: char, s: string, target: string, value: string)
    requires target != "" && Occurrences(c, target) == 0
    ensures Occurrences(c, ReplaceAll(s, target, value)) >= Occurrences(c, s)
    decreases |s|
  {
    if s != "" {
      if target <= s {
        var rest := s[|target|..];
        assert s == target + rest;
        OccurrencesSplit(c, target, rest);
        OccurrencesSplit(c, value, ReplaceAll(rest, target, value));
        OccurrencesStay(c, rest, target, value);
      } else {
        assert s == [s[0]] + s[1..];
        OccurrencesSplit(c, [s[0]], s[1..]);
        OccurrencesSplit(c, [s[0]], ReplaceAll(s[1..], target, value));
        OccurrencesStay(c, s[1..], target, value);
      }
    }
  }

  lemma {:induction false} NoOccurrence(c: char, s: string)
    requires c !in s
    ensures Occurrences(c, s) == 0
  {
    if s != "" {
      NoOccurrence(c, s[1..]);
    }
  }

  lemma SprungPromptDiffers(agent: Agent, v: string, q: string, d: int)
    requires agent.repos != [] && v == JoinComma(agent.repos) && q == "{{AGENT_ID}}"
    requires -|v| < d < |q| && LiesOn(v, q, d)
    ensures Resolve(agent, Trap("{{REPOS}}", v, q, d)) != Substitute(Rules(agent), Trap("{{REPOS}}", v, q, d))
  {
    hide *;
    var t, role := Sprung(v, q, d), "{{AGENT_ROLE}}";
    ReposSpring(agent, d);
    var u, z := SprungHolds(v, q, d);
    IdBringsOne(agent, u, z);
    NoOccurrence('a', role);
    OccurrencesStay('a', ReplaceAll(t, q, AgentId(agent)), role, agent.role);
  }

  lemma ReposSpring(agent: Agent, d: int)
    requires agent.repos != [] && -|JoinComma(agent.repos)| < d < |"{{AGENT_ID}}"|
    ensures
      var v, q := JoinComma(agent.repos), "{{AGENT_ID}}";
      var s, t := Trap("{{REPOS}}", v, q, d), Sprung(v, q, d);
      && Substitute(Rules(agent), s) == t
      && Resolve(agent, s) == ReplaceAll(ReplaceAll(t, "{{AGENT_ID}}", AgentId(agent)), "{{AGENT_ROLE}}", agent.role)
  {
    RulesEndWithRole(agent);
    RulesAreValid(agent);
    assert ReposRule(agent) == Rules(agent)[0] && IdRule(agent) == Rules(agent)[1];
    hide ReplaceAll, Substitute, Trap, Sprung, Rules;
    SubstituteSprings(Rules(agent), ReposRule(agent), IdRule(agent), d);
    ReplaceSprings(ReposRule(agent), IdRule(agent), d);
  }

  lemma IdBringsOne(agent: Agent, u: string, z: string)
    ensures var t := u + "{{AGENT_ID}}" + z;
      Occurrences('a', ReplaceAll(t, "{{AGENT_ID}}", AgentId(agent))) > Occurrences('a', t)
  {
    var q, id := "{{AGENT_ID}}", AgentId(agent);
    var x, y := ReplaceAll(u, q, id), ReplaceAll(z, q, id);
    assert IdRule(agent).Placeholder() == q;
    ReplaceAcross(u, z, IdRule(agent));
    NoOccurrence('a', q);
    OccurrencesStay('a', u, q, id);
    OccurrencesStay('a', z, q, id);
    assert Occurrences('a', id) >= 1 by {
      assert id[0] == 'a';
    }
    hide ReplaceAll, Occurrences;
    OccurrencesSplit('a', u + q, z);
    OccurrencesSplit('a', u, q);
    OccurrencesSplit('a', x + id, y);
    OccurrencesSplit('a', x, id);
  }

  /** `CleanValues` suffices, and the prompt is then a single substitution. */
  lemma PromptIsOnePass(agent: Agent, prompt: string)
    requires CleanValues(agent) || KeepsPlaceholders(agent)
    ensures KeepsPlaceholders(agent) && Resolve(agent, prompt) == Substitute(Rules(agent), prompt)
  {
    RulesEndWithRole(agent);
    if CleanValues(agent) {
      IdIsInert(agent);
      InertTouchesNothing(AgentId(agent), RoleRule(agent));
      if agent.repos != [] {
        InertTouchesNothing(JoinComma(agent.repos), IdRule(agent));
        InertTouchesNothing(JoinComma(agent.repos), RoleRule(agent));
      }
    }
    PromptIsOnePassIff(agent);
  }

  /** One repository is itself; between repositories stands a comma and nothing else. */
  lemma {:induction false} CommasBetween(x: seq<string>, y: seq<string>)
    requires x != [] && y != []
    ensures JoinComma(x + y) == JoinComma(x) + "," + JoinComma(y)
    ensures |x| == 1 ==> JoinComma(x) == x[0]
    decreases |x|
  {
    assert (x + y)[0] == x[0] && (x + y)[1..] == x[1..] + y;
    if |x| > 1 {
      CommasBetween(x[1..], y);
      assert x[0] + "," + (JoinComma(x[1..]) + "," + JoinComma(y)) ==
        (x[0] + "," + JoinComma(x[1..])) + "," + JoinComma(y);
    }
  }

  predicate NoBraces(s: string) { forall ch :: ch in s ==> !IsBrace(ch) }

  lemma PlainTextPasses(rules: seq<Rule>, text: string, rest: string)
    requires NoBraces(text)
    ensures Substitute(rules, text + rest) == text + Substitute(rules, rest)
  {
    forall i | 0 <= i < |text|
      ensures Match(rules, (text + rest)[i..]).None?
    {
      assert (text + rest)[i..][0] == text[i] && text[i] in text;
      forall r | r in rules
        ensures !(r.Placeholder() <= (text + rest)[i..])
      {
        assert r.Placeholder()[0] == '{';
      }
    }
    SubstitutePassesOver(rules, text, rest);
  }

  lemma SevenParts(a: string, p: string, b: string, q: string, c: string, r: string, d: string)
    ensures a + p + b + q + c + r + d == a + (p + (b + (q + (c + (r + (d + ""))))))
  {
    assert a + p + b + q + c + r + d == a + p + b + q + c + (r + (d + ""));
    assert a + p + b + q + c + (r + (d + "")) == a + p + b + q + (c + (r + (d + "")));
    assert a + p + b + q + (c + (r + (d + ""))) == a + p + b + (q + (c + (r + (d + ""))));
    assert a + p + b + (q + (c + (r + (d + "")))) == a + p + (b + (q + (c + (r + (d + "")))));
  }

  /** A prompt that names the agent's repositories, its id and its role has the values in their place, and
      the text around them as it was. */
  lemma PromptIsFilled(agent: Agent, a: string, b: string, c: string, d: string)
    requires KeepsPlaceholders(agent) && agent.repos != []
    requires NoBraces(a) && NoBraces(b) && NoBraces(c) && NoBraces(d)
    ensures Resolve(agent, a + "{{REPOS}}" + b + "{{AGENT_ID}}" + c + "{{AGENT_ROLE}}" + d) ==
      a + JoinComma(agent.repos) + b + ("agent-" + agent.name) + c + agent.role + d
  {
    hide *;
    FilledInParts(agent, a, b, c, d);
    SevenParts(a, "{{REPOS}}", b, "{{AGENT_ID}}", c, "{{AGENT_ROLE}}", d);
    SevenParts(a, JoinComma(agent.repos), b, "agent-" + agent.name, c, agent.role, d);
  }

  lemma FilledInParts(agent: Agent, a: string, b: string, c: string, d: string)
    requires KeepsPlaceholders(agent) && agent.repos != []
    requires NoBraces(a) && NoBraces(b) && NoBraces(c) && NoBraces(d)
    ensures Resolve(agent, a + ("{{REPOS}}" + (b + ("{{AGENT_ID}}" + (c + ("{{AGENT_ROLE}}" + (d + ""))))))) ==
      a + (JoinComma(agent.repos) + (b + (("agent-" + agent.name) + (c + (agent.role + (d + ""))))))
  {
    var rules := Rules(agent);
    RulesAreValid(agent);
    RulesEndWithRole(agent);
    PromptIsOnePassIff(agent);
    assert ReposRule(agent) in rules && IdRule(agent) in rules && RoleRule(agent) in rules;
    RuleValues(agent);
    EmptyStays(rules);
    hide *;
    PlainTextPasses(rules, d, "");
    OneFilled(rules, c, RoleRule(agent), d + "");
    OneFilled(rules, b, IdRule(agent), c + ("{{AGENT_ROLE}}" + (d + "")));
    OneFilled(rules, a, ReposRule(agent), b + ("{{AGENT_ID}}" + (c + ("{{AGENT_ROLE}}" + (d + "")))));
  }

  lemma OneFilled(rules: seq<Rule>, text: string, r: Rule, rest: string)
    requires NoBraces(text) && r in rules && ValidRules(rules)
    ensures Substitute(rules, text + (r.Placeholder() + rest)) == text + (r.value + Substitute(rules, rest))
  {
    PlainTextPasses(rules, text, r.Placeholder() + rest);
    SubstituteFirst(rules, r, rest);
    hide *;
  }

  lemma RuleValues(agent: Agent)
    ensures ReposRule(agent).value == JoinComma(agent.repos)
    ensures IdRule(agent).value == "agent-" + agent.name && RoleRule(agent).value == agent.role
  {}

  /** Every order of the replacements resolves every prompt to the same, if and only if no value touches the
      placeholder of another rule that does not stand for itself. */
  lemma OrderIsIrrelevantIff(agent: Agent)
    ensures (forall order, prompt :: SameRules(Rules(agent), order) ==>
               Sequential(order, prompt) == Resolve(agent, prompt))
      <==> OrderlyBothWays(Rules(agent))
  {
    RulesAreValid(agent);
    forall prompt
      ensures Resolve(agent, prompt) == Sequential(Rules(agent), prompt)
    {
      ResolveIsSequential(agent, prompt);
    }
    hide Resolve, Rules;
    OrderDoesNotMatterIff(Rules(agent));
  }

  /** For an agent whose placeholders keep their meaning, resolving again changes nothing for any prompt, if
      and only if no value touches a placeholder, not even its own, that does not stand for itself. */
  lemma ResolvingTwiceIff(agent: Agent)
    requires KeepsPlaceholders(agent)
    ensures (forall prompt :: Resolve(agent, Resolve(agent, prompt)) == Resolve(agent, prompt))
      <==> Undisturbed(Rules(agent))
  {
    RulesAreValid(agent);
    PromptIsOnePassIff(agent);
    hide Resolve, Rules, KeepsPlaceholders;
    assert forall prompt :: Resolve(agent, prompt) == Substitute(Rules(agent), prompt);
    SecondTimeIff(Rules(agent));
  }

  /** `CleanValues` suffices for both once the role's value is of the simple kind as well. */
  lemma CleanValuesAreIndependent(agent: Agent)
    requires CleanValues(agent) && Inert(agent.role)
    ensures OrderlyBothWays(Rules(agent)) && Undisturbed(Rules(agent))
  {
    IdIsInert(agent);
    RulesAreValid(agent);
    forall r, x | r in Rules(agent) && x in Rules(agent)
      ensures !Touches(x.value, r.Placeholder())
    {
      InertTouchesNothing(x.value, r);
    }
  }

  /** What is scheduled is what is stored. */
  lemma CronPromptIsStored(agent: Agent, rd: Option<RoleData>)
    ensures "PROMPT.md" in PromptData(agent, rd) <==> rd.Some? && rd.value.prompt != ""
    ensures CronPrompt(agent, rd) ==
      if "PROMPT.md" in PromptData(agent, rd) then PromptData(agent, rd)["PROMPT.md"] else ""
  {
    assert "PROMPT.md"[0] == 'P' && "SOUL.md"[0] == 'S' && "AGENTS.md"[0] == 'A';
  }

  // The configuration hash ----------------------------------------------------------------------

  function Line(key: string, value: string): string { key + "=" + value + "\n" }

  function Serialize(keys: seq<string>, data: map<string, string>): string
    requires forall k :: k in keys ==> k in data
  {
    if keys == [] then "" else Line(keys[0], data[keys[0]]) + Serialize(keys[1..], data)
  }

  /** `digest` stands for the first 16 hexadecimal digits of SHA-256. */
  ghost function ConfigHash(digest: string -> string, data: map<string, string>): string {
    digest(Serialize(SortedList(data.Keys), data))
  }

  lemma {:induction false} SerializeSnoc(keys: seq<string>, last: string, data: map<string, string>)
    requires last in data && forall k :: k in keys ==> k in data
    ensures Serialize(keys + [last], data) == Serialize(keys, data) + Line(last, data[last])
    decreases |keys|
  {
    if keys == [] {
      assert ([] + [last])[1..] == [];
      assert Line(last, data[last]) + "" == "" + Line(last, data[last]);
    } else {
      assert (keys + [last])[1..] == keys[1..] + [last];
      SerializeSnoc(keys[1..], last, data);
    }
  }

  /** What is digested: nothing for no data, and one more line for one more entry behind the others. */
  lemma DigestedText(digest: string -> string, data: map<string, string>, last: string, value: string)
    requires forall key :: key in data ==> Less(key, last)
    ensures ConfigHash(digest, map[]) == digest("")
    ensures ConfigHash(digest, data) == digest(ConfigHash(text => text, data))
    ensures ConfigHash(text => text, data[last := value]) ==
            ConfigHash(text => text, data) + last + "=" + value + "\n"
  {
    var keys, more := SortedList(data.Keys), data[last := value];
    assert last !in data by {
      if last in data { LessIsAsymmetric(last, last); }
    }
    SortedListsAgree(keys + [last], SortedList(more.Keys));
    SerializeSnoc(keys, last, more);
    SameEntriesSameText(keys, data, more);
    assert forall text: string :: text + Line(last, value) == text + last + "=" + value + "\n";
  }

  lemma {:induction false} SameEntriesSameText(keys: seq<string>, x: map<string, string>, y: map<string, string>)
    requires forall k :: k in keys ==> k in x && k in y && x[k] == y[k]
    ensures Serialize(keys, x) == Serialize(keys, y)
  {
    if keys != [] {
      SameEntriesSameText(keys[1..], x, y);
    }
  }

  lemma OneLineMore(keys: seq<string>, i: nat, data: map<string, string>)
    requires i < |keys| && forall k :: k in keys ==> k in data
    ensures Serialize(keys[..i + 1], data) == Serialize(keys[..i], data) + (keys[i] + "=" + data[keys[i]] + "\n")
  {
    SerializeSnoc(keys[..i], keys[i], data);
    assert keys[..i + 1] == keys[..i] + [keys[i]];
  }

  /** computeHash, whatever order the map is iterated in. */
  method ComputeHash(digest: string -> string, data: map<string, string>) returns (hash: string)
    ensures hash == ConfigHash(digest, data)
  {
    var keys := SkillKeys.Keys(data);
    keys := SortNames(keys);
    SortedListsAgree(keys, SortedList(data.Keys));
    var text := "";
    for i := 0 to |keys|
      invariant text == Serialize(keys[..i], data)
    {
      hide Serialize, SortedList, StrictlySorted;
      OneLineMore(keys, i, data);
      text := text + (keys[i] + "=" + data[keys[i]] + "\n");
    }
    assert keys[..|keys|] == keys;
    hash := digest(text);
  }

  // When the hash tells prompts apart ---------------------------------------------------------------

  predicate PlainKey(key: string) {
    key != "" && '=' !in key && '\n' !in key
  }

  /** No value has a line that starts like the line of one of the keys. */
  ghost predicate Unambiguous(data: map<string, string>, keys: set<string>) {
    forall k, l, i :: k in data && l in keys && 0 <= i < |data[k]| && data[k][i] == '\n' ==>
      !(l + "=" <= data[k][i + 1..])
  }

  /** The keys of two texts that agree are the same up to their first `=`. */
  lemma SameFirstKey(k: string, l: string, x: string, y: string)
    requires PlainKey(k) && PlainKey(l) && k + "=" + x == l + "=" + y
    ensures k == l && x == y
  {
    var s := k + "=" + x;
    assert s[|k|] == '=' && s[|l|] == '=';
    assert forall i :: 0 <= i < |k| ==> s[i] == k[i] && k[i] in k;
    assert forall i :: 0 <= i < |l| ==> s[i] == l[i] && l[i] in l;
    assert |k| == |l|;
    assert k == s[..|k|] && l == s[..|l|];
    assert x == s[|k| + 1..] && y == s[|l| + 1..];
  }

  /** If one value ends earlier, the next key's line starts inside the other value. */
  lemma ShorterValueShowsKey(v: string, w: string, k: string, tail: string, y: string)
    requires v + "\n" + (k + "=" + tail) == w + "\n" + y && |v| < |w| && PlainKey(k)
    ensures w[|v|] == '\n' && k + "=" <= w[|v| + 1..]
  {
    var head := k + "=";
    var s := v + "\n" + (head + tail);
    assert k + "=" + tail == head + tail && s == w + "\n" + y;
    assert w[|v|] == s[|v|];
    assert forall i :: 0 <= i < |head| ==> s[|v| + 1 + i] == head[i];
    assert forall i :: 0 <= i < |k| ==> head[i] == k[i] && k[i] in k;
    assert s[|w|] == '\n';
    assert |w| >= |v| + 1 + |head|;
    assert w[|v| + 1..][..|head|] == head;
  }

  /** A value that is followed by the lines of other keys ends where it ends in any such text. */
  lemma SameValue(v: string, w: string, x: string, y: string, keys: set<string>)
    requires v + "\n" + x == w + "\n" + y
    requires forall k :: k in keys ==> PlainKey(k)
    requires x == "" || exists k, tail :: k in keys && x == k + "=" + tail
    requires forall l, i :: l in keys && 0 <= i < |w| && w[i] == '\n' ==> !(l + "=" <= w[i + 1..])
    ensures |v| >= |w|
  {
    if x == "" {
      assert |v + "\n" + x| == |v| + 1 && |w + "\n" + y| >= |w| + 1;
    } else {
      var k, tail :| k in keys && x == k + "=" + tail;
      if |v| < |w| {
        ShorterValueShowsKey(v, w, k, tail, y);
      }
    }
  }

  lemma {:induction false} SerializeStartsWithKey(keys: seq<string>, data: map<string, string>)
    requires keys != [] && forall k :: k in keys ==> k in data
    ensures exists tail :: Serialize(keys, data) == keys[0] + "=" + tail
  {
    var tail := data[keys[0]] + "\n" + Serialize(keys[1..], data);
    assert Serialize(keys, data) == keys[0] + "=" + tail;
  }

  /** On unambiguous data equal texts come from equal keys and values. */
  lemma {:induction false} SerializeIsInjective(
    ks: seq<string>, x: map<string, string>, ls: seq<string>, y: map<string, string>, keys: set<string>)
    requires (forall k :: k in ks ==> k in x && k in keys) && (forall l :: l in ls ==> l in y && l in keys)
    requires (forall k :: k in keys ==> PlainKey(k)) && Unambiguous(x, keys) && Unambiguous(y, keys)
    requires Serialize(ks, x) == Serialize(ls, y)
    ensures ks == ls && forall k :: k in ks ==> x[k] == y[k]
    decreases |ks|
  {
    if ks != [] && ls != [] {
      var k, l, xs, ys := ks[0], ls[0], Serialize(ks[1..], x), Serialize(ls[1..], y);
      assert k in ks && l in ls;
      assert Serialize(ks, x) == k + "=" + (x[k] + "\n" + xs);
      assert Serialize(ls, y) == l + "=" + (y[l] + "\n" + ys);
      SameFirstKey(k, l, x[k] + "\n" + xs, y[l] + "\n" + ys);
      RestIsLines(ks[1..], x, keys);
      RestIsLines(ls[1..], y, keys);
      SameValue(x[k], y[l], xs, ys, keys);
      SameValue(y[l], x[k], ys, xs, keys);
      SplitAtValue(x[k], y[l], xs, ys);
      SerializeIsInjective(ks[1..], x, ls[1..], y, keys);
    } else {
      LinesAreNotEmpty(ks, x);
      LinesAreNotEmpty(ls, y);
    }
  }

  lemma LinesAreNotEmpty(ks: seq<string>, x: map<string, string>)
    requires forall k :: k in ks ==> k in x
    ensures Serialize(ks, x) == "" <==> ks == []
  {}

  lemma SplitAtValue(v: string, w: string, x: string, y: string)
    requires v + "\n" + x == w + "\n" + y && |v| == |w|
    ensures v == w && x == y
  {
    var s := v + "\n" + x;
    assert v == s[..|v|] && w == s[..|w|] && x == s[|v| + 1..] && y == s[|w| + 1..];
  }

  lemma RestIsLines(ks: seq<string>, x: map<string, string>, keys: set<string>)
    requires (forall k :: k in ks ==> k in x && k in keys) && forall k :: k in keys ==> PlainKey(k)
    ensures Serialize(ks, x) == "" || exists k, tail :: k in keys && Serialize(ks, x) == k + "=" + tail
  {
    if ks != [] {
      SerializeStartsWithKey(ks, x);
      assert ks[0] in ks;
    }
  }

  /** If the digest does not collide, the hash changes whenever unambiguous prompt data change. */
  lemma HashDetectsChange(digest: string -> string, x: map<string, string>, y: map<string, string>)
    requires forall a, b :: digest(a) == digest(b) ==> a == b
    requires forall k :: k in x || k in y ==> PlainKey(k)
    requires Unambiguous(x, x.Keys + y.Keys) && Unambiguous(y, x.Keys + y.Keys)
    requires ConfigHash(digest, x) == ConfigHash(digest, y)
    ensures x == y
  {
    hide *;
    SameHashSameText(digest, x, y);
    SerializeIsInjective(SortedList(x.Keys), x, SortedList(y.Keys), y, x.Keys + y.Keys);
    assert forall k :: k in x <==> k in SortedList(x.Keys);
    assert forall k :: k in y <==> k in SortedList(y.Keys);
  }

  // Which data have a hash of their own ------------------------------------------------------------------

  ghost predicate AtMostOne(x: map<string, string>) {
    forall k, l :: k in x && l in x ==> k == l
  }

  /** There is at most one entry, and no line of its value starts like the line of a later key. */
  ghost predicate Alone(x: map<string, string>, keys: set<string>) {
    && AtMostOne(x)
    && forall k, l, i :: k in x && l in keys && Less(k, l) && 0 <= i < |x[k]| && x[k][i] == '\n' ==>
         !(l + "=" <= x[k][i + 1..])
  }

  /** Every change away from x, within the given keys, changes the hash. */
  ghost predicate EveryChangeShows(digest: string -> string, x: map<string, string>, keys: set<string>) {
    forall y: map<string, string> :: y.Keys <= keys && y != x ==> ConfigHash(digest, y) != ConfigHash(digest, x)
  }

  lemma {:induction false} SerializeAgrees(ks: seq<string>, x: map<string, string>, y: map<string, string>)
    requires forall k :: k in ks ==> k in x && k in y && x[k] == y[k]
    ensures Serialize(ks, x) == Serialize(ks, y)
  {
    if ks != [] {
      assert ks[0] in ks;
      SerializeAgrees(ks[1..], x, y);
    }
  }

  /** If the digest does not collide: exactly for which data no change can go unnoticed. */
  lemma EveryChangeShowsIff(digest: string -> string, x: map<string, string>, keys: set<string>)
    requires forall a, b :: digest(a) == digest(b) ==> a == b
    requires x.Keys <= keys && forall k :: k in keys ==> PlainKey(k)
    ensures EveryChangeShows(digest, x, keys) <==> Alone(x, keys)
  {
    hide ConfigHash;
    if Alone(x, keys) {
      forall y: map<string, string> | y.Keys <= keys && ConfigHash(digest, y) == ConfigHash(digest, x)
        ensures y == x
      {
        SameHashSameText(digest, x, y);
        AloneIsOnlyText(x, y, keys);
      }
    } else if !AtMostOne(x) {
      var y := TwoEntriesMerge(x);
      SameTextSameHash(digest, x, y);
    } else {
      var k, l, i :| k in x && l in keys && Less(k, l) && 0 <= i < |x[k]|
        && x[k][i] == '\n' && l + "=" <= x[k][i + 1..];
      var y := OneEntrySplits(x, k, l, i);
      SameTextSameHash(digest, x, y);
    }
  }

  lemma SameHashSameText(digest: string -> string, x: map<string, string>, y: map<string, string>)
    requires forall a, b :: digest(a) == digest(b) ==> a == b
    requires ConfigHash(digest, x) == ConfigHash(digest, y)
    ensures Serialize(SortedList(x.Keys), x) == Serialize(SortedList(y.Keys), y)
  {}

  lemma SameTextSameHash(digest: string -> string, x: map<string, string>, y: map<string, string>)
    requires Serialize(SortedList(x.Keys), x) == Serialize(SortedList(y.Keys), y)
    ensures ConfigHash(digest, x) == ConfigHash(digest, y)
  {}

  lemma {:induction false} AloneIsOnlyText(x: map<string, string>, y: map<string, string>, keys: set<string>)
    requires Alone(x, keys) && x.Keys <= keys && y.Keys <= keys && forall k :: k in keys ==> PlainKey(k)
    requires Serialize(SortedList(x.Keys), x) == Serialize(SortedList(y.Keys), y)
    ensures x == y
  {
    var ks, ls := SortedList(x.Keys), SortedList(y.Keys);
    LinesAreNotEmpty(ks, x);
    LinesAreNotEmpty(ls, y);
    assert forall k :: k in ks <==> k in x;
    assert forall l :: l in ls <==> l in y;
    if ks == [] {
      assert x.Keys == {} == y.Keys;
    } else {
      assert ks[0] in x && ls[0] in y;
      assert |ks| > 1 ==> ks[1] in ks && Less(ks[0], ks[1]);
      LessIsIrreflexive(ks[0]);
      assert ks[1..] == [];
      OnlyOneText(ks[0], x[ks[0]], ls, y, keys);
      assert ls == [ks[0]];
      assert forall k :: k in x <==> k in y;
    }
  }

  /** A text of one line is the text of no other data, unless its value has a line like a later key's. */
  lemma OnlyOneText(k: string, v: string, ls: seq<string>, y: map<string, string>, keys: set<string>)
    requires ls != [] && StrictlySorted(ls) && (forall l :: l in ls ==> l in y && l in keys)
    requires k in keys && forall l :: l in keys ==> PlainKey(l)
    requires forall l, i :: l in keys && Less(k, l) && 0 <= i < |v| && v[i] == '\n' ==> !(l + "=" <= v[i + 1..])
    requires k + "=" + v + "\n" == Serialize(ls, y)
    ensures ls == [k] && y[k] == v
  {
    var l, ys := ls[0], Serialize(ls[1..], y);
    assert l in ls;
    assert Serialize(ls, y) == l + "=" + (y[l] + "\n" + ys);
    assert k + "=" + v + "\n" == k + "=" + (v + "\n" + "");
    SameFirstKey(k, l, v + "\n" + "", y[l] + "\n" + ys);
    LinesAreNotEmpty(ls[1..], y);
    hide Serialize;
    if ls[1..] != [] {
      var next := ls[1];
      assert next in ls && Less(k, next);
      SerializeStartsWithKey(ls[1..], y);
      var tail :| ys == next + "=" + tail;
      ShorterValueShowsKey(y[l], v, next, tail, "");
      assert false;
    } else {
      SplitAtValue(v, y[l], "", ys);
    }
  }

  /** The first two lines can be the line of one entry. */
  lemma TwoEntriesMerge(x: map<string, string>) returns (y: map<string, string>)
    requires !AtMostOne(x)
    ensures y.Keys <= x.Keys && y != x && Serialize(SortedList(x.Keys), x) == Serialize(SortedList(y.Keys), y)
  {
    var ks := SortedList(x.Keys);
    var a, b :| a in x && b in x && a != b;
    assert a in ks && b in ks;
    RestIsLater(ks);
    hide Serialize, AtMostOne, StrictlySorted, Less;
    y := EntryMerge(ks, x);
    SortedWithoutSecond(ks, SortedList(y.Keys));
  }

  lemma EntryMerge(ks: seq<string>, x: map<string, string>) returns (y: map<string, string>)
    requires |ks| >= 2 && ks[0] != ks[1] && (forall m :: m in ks <==> m in x)
    requires forall m :: m in ks[2..] ==> m != ks[0] && m != ks[1]
    ensures y.Keys == x.Keys - {ks[1]} && y != x
    ensures forall m :: m in [ks[0]] + ks[2..] ==> m in y
    ensures Serialize(ks, x) == Serialize([ks[0]] + ks[2..], y)
  {
    hide *;
    var k, l, rest := ks[0], ks[1], ks[2..];
    assert k in ks && l in ks && forall m :: m in rest ==> m in ks;
    y := (x - {l})[k := Merged(x[k], l, x[l])];
    assert y.Keys == x.Keys - {l};
    assert l in x && l !in y;
    assert forall m :: m in rest ==> y[m] == x[m];
    FirstTwoMerge(k, l, rest, x, y);
    assert [k] + ([l] + rest) == ks;
  }

  function Merged(v: string, l: string, w: string): string { v + "\n" + (l + "=" + w) }

  lemma RestIsLater(ks: seq<string>)
    requires StrictlySorted(ks) && |ks| >= 2
    ensures ks[0] != ks[1] && forall m :: m in ks[2..] ==> m in ks && m != ks[0] && m != ks[1]
  {
    assert Less(ks[0], ks[1]);
    LessIsIrreflexive(ks[0]);
    forall m | m in ks[2..]
      ensures m in ks && m != ks[0] && m != ks[1]
    {
      var j :| 0 <= j < |ks[2..]| && ks[2..][j] == m;
      assert ks[j + 2] == m && Less(ks[0], m) && Less(ks[1], m);
      LessIsIrreflexive(m);
    }
  }

  lemma FirstTwoMerge(k: string, l: string, rest: seq<string>, x: map<string, string>, y: map<string, string>)
    requires k in x && l in x && k in y && y[k] == Merged(x[k], l, x[l])
    requires forall m :: m in rest ==> m in x && m in y && x[m] == y[m]
    ensures Serialize([k] + ([l] + rest), x) == Serialize([k] + rest, y)
  {
    SerializeAgrees(rest, x, y);
    assert ([k] + ([l] + rest))[1..] == [l] + rest && ([l] + rest)[1..] == rest && ([k] + rest)[1..] == rest;
    assert Serialize([l] + rest, x) == Line(l, x[l]) + Serialize(rest, x);
    assert Serialize([k] + ([l] + rest), x) == Line(k, x[k]) + Serialize([l] + rest, x);
    assert Serialize([k] + rest, y) == Line(k, y[k]) + Serialize(rest, y);
    hide Serialize, Line;
    LinesMerge(k, x[k], l, x[l], Serialize(rest, x));
  }

  lemma LinesMerge(k: string, v: string, l: string, w: string, rest: string)
    ensures Line(k, v) + (Line(l, w) + rest) == Line(k, Merged(v, l, w)) + rest
  {}

  lemma SortedWithoutSecond(ks: seq<string>, ls: seq<string>)
    requires StrictlySorted(ks) && StrictlySorted(ls) && |ks| >= 2
    requires forall m :: m in ls <==> m in ks && m != ks[1]
    ensures ls == [ks[0]] + ks[2..]
  {
    var without := [ks[0]] + ks[2..];
    forall m
      ensures m in without <==> m in ks && m != ks[1]
    {
      LessIsIrreflexive(m);
      if m in ks && m != ks[1] {
        var j :| 0 <= j < |ks| && ks[j] == m;
        assert j >= 2 ==> without[j - 1] == m;
      }
      if m in ks[2..] {
        var j :| 0 <= j < |ks[2..]| && ks[2..][j] == m;
        assert ks[j + 2] == m;
      }
      assert ks[0] in ks && Less(ks[0], ks[1]);
    }
    SortedListsAgree(ls, without);
  }

  /** The one value can be cut at a line that starts like a later key's. */
  lemma OneEntrySplits(x: map<string, string>, k: string, l: string, i: nat) returns (y: map<string, string>)
    requires AtMostOne(x) && k in x && Less(k, l) && i < |x[k]| && x[k][i] == '\n' && l + "=" <= x[k][i + 1..]
    ensures y == map[k := x[k][..i], l := x[k][i + 1..][|l| + 1..]] && y != x
    ensures Serialize(SortedList(x.Keys), x) == Serialize(SortedList(y.Keys), y)
  {
    var v := x[k];
    var w := v[i + 1..][|l| + 1..];
    LessIsIrreflexive(k);
    y := map[k := v[..i], l := w];
    assert x.Keys == {k};
    SortedListsAgree(SortedList(x.Keys), [k]);
    SortedListsAgree(SortedList(y.Keys), [k, l]);
    assert l in y && l !in x;
    hide SortedList, Less, Merged;
    CutAtLine(v, i, l);
    SerializePair(k, l, y);
    assert [k][1..] == [] && Serialize([], x) == "";
    assert Serialize([k], x) == Line(k, v) + "";
    hide Serialize;
    LinesMerge(k, v[..i], l, w, "");
  }

  lemma CutAtLine(v: string, i: nat, l: string)
    requires i < |v| && v[i] == '\n' && l + "=" <= v[i + 1..]
    ensures v == Merged(v[..i], l, v[i + 1..][|l| + 1..])
  {}

  const MERGED_DATA := map["AGENTS.md" := "a\nSOUL.md=b"]
  const SPLIT_DATA := map["AGENTS.md" := "a", "SOUL.md" := "b"]

  lemma SerializePair(k: string, l: string, data: map<string, string>)
    requires k in data && l in data
    ensures Serialize([k, l], data) == (k + "=" + data[k] + "\n") + (l + "=" + data[l] + "\n")
  {
    assert [k, l][1..] == [l] && [l][1..] == [];
    assert Serialize([], data) == "";
    assert Serialize([l], data) == l + "=" + data[l] + "\n" + "";
  }

  /** A concrete change that does not show: one file holds what another file's line would add. */
  lemma HashMissesChange(digest: string -> string)
    ensures MERGED_DATA != SPLIT_DATA && ConfigHash(digest, MERGED_DATA) == ConfigHash(digest, SPLIT_DATA)
  {
    var k, l, v := "AGENTS.md", "SOUL.md", "a\nSOUL.md=b";
    assert k[0] == 'A' && l[0] == 'S' && v[1] == '\n' && v[2..] == l + "=" + "b";
    assert v[2..][|l| + 1..] == "b" && v[..1] == "a";
    assert Less(k, l);
    hide Serialize, SortedList, Less, ConfigHash;
    var y := OneEntrySplits(MERGED_DATA, k, l, 1);
    assert y == SPLIT_DATA;
    SameTextSameHash(digest, MERGED_DATA, SPLIT_DATA);
  }

  // A prompt that the repositories change the meaning of -----------------------------------------------

  const NESTED := "{{AGENT_{{REPOS}}}}"

  function NestedAgent(): Agent {
    Agent("x", "ns", "r", false, ["ID"], [], "", [], "", "")
  }

  /** A repository list that reads like part of a placeholder is replaced a second time. */
  lemma RepositoriesCanFormPlaceholder()
    ensures !KeepsPlaceholders(NestedAgent())
    ensures Resolve(NestedAgent(), NESTED) != Substitute(Rules(NestedAgent()), NESTED)
  {
    var v, q := "ID", "{{AGENT_ID}}";
    assert LiesOn(v, q, 8);
    assert JoinComma(["ID"]) == v;
    assert Trap("{{REPOS}}", v, q, 8) == NESTED;
    SprungPromptDiffers(NestedAgent(), v, q, 8);
  }
}
