/** Skill paths as ConfigMap keys: the encoding, the decoding of the migration script, and the mounted result. */
module SkillKeys {
  import opened Text

  /** A ConfigMap key cannot hold a slash. */
  function SkillKey(path: string): string {
    if path == "" then ""
    else if path[0] == '/' then "__" + SkillKey(path[1..])
    else [path[0]] + SkillKey(path[1..])
  }

  /** Every double underscore, left to right, back to a slash. */
  function Decode(key: string): string
    decreases |key|
  {
    if key == "" then ""
    else if |key| >= 2 && key[0] == '_' && key[1] == '_' then "/" + Decode(key[2..])
    else [key[0]] + Decode(key[1..])
  }

  /** No underscore is followed by an underscore or a slash. */
  predicate Decodable(path: string) {
    forall i :: 0 <= i < |path| - 1 && path[i] == '_' ==> path[i + 1] != '_' && path[i + 1] != '/'
  }

  lemma DecodableTail(path: string)
    requires path != ""
    ensures Decodable(path) <==>
      (|path| > 1 && path[0] == '_' ==> path[1] != '_' && path[1] != '/') && Decodable(path[1..])
  {
    if Decodable(path) {
      forall i | 0 <= i < |path[1..]| - 1 && path[1..][i] == '_'
        ensures path[1..][i + 1] != '_' && path[1..][i + 1] != '/'
      {
        assert path[i + 1] == '_';
      }
    }
    if (|path| > 1 && path[0] == '_' ==> path[1] != '_' && path[1] != '/') && Decodable(path[1..]) {
      forall i | 0 <= i < |path| - 1 && path[i] == '_'
        ensures path[i + 1] != '_' && path[i + 1] != '/'
      {
        if i > 0 {
          assert path[1..][i - 1] == path[i] && path[1..][i] == path[i + 1];
        }
      }
    }
  }

  /** Exactly which paths come back from their keys. */
  lemma {:induction false} RoundTripIff(path: string)
    ensures Decode(SkillKey(path)) == path <==> Decodable(path)
    decreases |path|
  {
    if path != "" {
      var rest := path[1..];
      DecodableTail(path);
      RoundTripIff(rest);
      assert path == [path[0]] + rest;
      if path[0] == '/' {
        assert ("__" + SkillKey(rest))[2..] == SkillKey(rest);
        assert Decode(SkillKey(path)) == "/" + Decode(SkillKey(rest));
      } else {
        var key := SkillKey(path);
        assert key == [path[0]] + SkillKey(rest) && key[1..] == SkillKey(rest);
        if path[0] == '_' && rest != "" && (rest[0] == '_' || rest[0] == '/') {
          assert Decode(key)[0] == '/';
        } else {
          assert Decode(key) == [path[0]] + Decode(SkillKey(rest));
        }
      }
    }
  }

  /** Decodable paths never share a key. */
  lemma KeysAreDistinct(p: string, q: string)
    requires Decodable(p) && Decodable(q) && SkillKey(p) == SkillKey(q)
    ensures p == q
  {
    RoundTripIff(p);
    RoundTripIff(q);
  }

  type Skills = map<string, string>

  ghost predicate AllDecodable(skills: Skills) {
    forall p :: p in skills ==> Decodable(p)
  }

  /** The data hold, under each skill's key, the content of some skill with that key. */
  ghost predicate IsSkillsData(skills: Skills, data: map<string, string>) {
    && (forall p :: p in skills ==> SkillKey(p) in data)
    && (forall key :: key in data ==> exists p :: p in skills && key == SkillKey(p) && data[key] == skills[p])
  }

  /** buildSkillsData: the loop over the map, in any order. */
  method BuildSkillsData(skills: Skills) returns (data: map<string, string>)
    ensures IsSkillsData(skills, data)
  {
    data := map[];
    var left := skills.Keys;
    while left != {}
      invariant left <= skills.Keys
      invariant forall p :: p in skills && p !in left ==> SkillKey(p) in data
      invariant forall key :: key in data ==>
        exists p :: p in skills && p !in left && key == SkillKey(p) && data[key] == skills[p]
      decreases left
    {
      var p :| p in left;
      data := data[SkillKey(p) := skills[p]];
      left := left - {p};
    }
  }

  /** Skills that share a key have the same content. */
  ghost predicate KeysAgree(skills: Skills) {
    forall p, q :: p in skills && q in skills && SkillKey(p) == SkillKey(q) ==> skills[p] == skills[q]
  }

  /** Decodable paths share no key to begin with. */
  lemma DecodableKeysAgree(skills: Skills)
    requires AllDecodable(skills)
    ensures KeysAgree(skills)
  {
    forall p, q | p in skills && q in skills && SkillKey(p) == SkillKey(q)
      ensures p == q
    {
      KeysAreDistinct(p, q);
    }
  }

  lemma SkillsDataIsUnique(skills: Skills, x: map<string, string>, y: map<string, string>)
    requires KeysAgree(skills) && IsSkillsData(skills, x) && IsSkillsData(skills, y)
    ensures x == y
  {
    hide SkillKey;
    forall key | key in x
      ensures key in y && x[key] == y[key]
    {
      var p :| p in skills && key == SkillKey(p) && x[key] == skills[p];
      var q :| q in skills && SkillKey(p) == SkillKey(q) && y[SkillKey(p)] == skills[q];
    }
    forall key | key in y
      ensures key in x
    {
      var p :| p in skills && key == SkillKey(p) && y[key] == skills[p];
    }
  }

  /** A loop that comes to a skill last leaves that skill's content under its key. */
  lemma LastSkillWins(skills: Skills, data: map<string, string>, p: string)
    requires IsSkillsData(skills, data) && p in skills
    ensures IsSkillsData(skills, data[SkillKey(p) := skills[p]])
  {
    hide SkillKey;
  }

  lemma {:induction false} SomeSkillsData(skills: Skills) returns (data: map<string, string>)
    ensures IsSkillsData(skills, data)
    decreases |skills|
  {
    if skills == map[] {
      return map[];
    }
    var p :| p in skills;
    var rest := skills - {p};
    assert |rest.Keys| == |skills.Keys - {p}| && rest.Keys == skills.Keys - {p};
    var before := SomeSkillsData(rest);
    hide SkillKey;
    data := before[SkillKey(p) := skills[p]];
  }

  /** The order of the map does not show, if and only if skills that share a key have the same content. */
  lemma SkillsDataIsUniqueIff(skills: Skills)
    ensures (forall x, y :: IsSkillsData(skills, x) && IsSkillsData(skills, y) ==> x == y) <==> KeysAgree(skills)
  {
    if KeysAgree(skills) {
      forall x, y | IsSkillsData(skills, x) && IsSkillsData(skills, y)
        ensures x == y
      {
        SkillsDataIsUnique(skills, x, y);
      }
    } else {
      var data := SomeSkillsData(skills);
      var other := DifferentSkillsData(skills, data);
    }
  }

  /** Where contents differ, another order comes to other data. */
  lemma DifferentSkillsData(skills: Skills, data: map<string, string>) returns (other: map<string, string>)
    requires IsSkillsData(skills, data) && !KeysAgree(skills)
    ensures IsSkillsData(skills, other) && other != data
  {
    hide SkillKey, IsSkillsData;
    var p, q :| p in skills && q in skills && SkillKey(p) == SkillKey(q) && skills[p] != skills[q];
    var x, y := data[SkillKey(p) := skills[p]], data[SkillKey(q) := skills[q]];
    LastSkillWins(skills, data, p);
    LastSkillWins(skills, data, q);
    assert x[SkillKey(p)] != y[SkillKey(p)];
    other := if x != data then x else y;
  }

  datatype Item = Item(key: string, path: string)

  /** buildSkillItems: one volume item for each skill, sorted by path. */
  ghost predicate AreSkillItems(skills: Skills, items: seq<Item>) {
    && (forall i, j :: 0 <= i < j < |items| ==> Less(items[i].path, items[j].path))
    && (forall it :: it in items ==> it.path in skills && it.key == SkillKey(it.path))
    && (forall p :: p in skills ==> Item(SkillKey(p), p) in items)
  }

  method BuildSkillItems(skills: Skills) returns (items: seq<Item>)
    ensures AreSkillItems(skills, items)
  {
    var paths := Keys(skills);
    paths := SortNames(paths);
    items := [];
    for i := 0 to |paths|
      invariant |items| == i
      invariant forall j :: 0 <= j < i ==> items[j] == Item(SkillKey(paths[j]), paths[j])
    {
      items := items + [Item(SkillKey(paths[i]), paths[i])];
    }
    forall it | it in items
      ensures it.path in skills && it.key == SkillKey(it.path)
    {
      var j :| 0 <= j < |items| && items[j] == it;
      assert paths[j] in paths;
    }
    forall p | p in skills
      ensures Item(SkillKey(p), p) in items
    {
      assert p in paths;
      var j :| 0 <= j < |paths| && paths[j] == p;
      assert items[j] == Item(SkillKey(p), p);
    }
  }

  /** The keys of a map, in the order in which the iteration happens to give them. */
  method Keys(m: map<string, string>) returns (keys: seq<string>)
    ensures forall i, j :: 0 <= i < j < |keys| ==> keys[i] != keys[j]
    ensures forall k :: k in keys <==> k in m
  {
    keys := [];
    var left := m.Keys;
    while left != {}
      invariant left <= m.Keys
      invariant forall i, j :: 0 <= i < j < |keys| ==> keys[i] != keys[j]
      invariant forall k :: k in keys <==> k in m && k !in left
      decreases left
    {
      var k :| k in left;
      keys, left := keys + [k], left - {k};
    }
  }

  /** The item list is the same whatever the order of the map. */
  lemma SkillItemsAreUnique(skills: Skills, x: seq<Item>, y: seq<Item>)
    requires AreSkillItems(skills, x) && AreSkillItems(skills, y)
    ensures x == y
  {
    var a := seq(|x|, i requires 0 <= i < |x| => x[i].path);
    var b := seq(|y|, i requires 0 <= i < |y| => y[i].path);
    forall p
      ensures p in a <==> p in skills
      ensures p in b <==> p in skills
    {
      ItemPaths(skills, x, a, p);
      ItemPaths(skills, y, b, p);
    }
    SortedListsAgree(a, b);
    forall i | 0 <= i < |x|
      ensures x[i] == y[i]
    {
      assert a[i] == b[i] && x[i] in x && y[i] in y;
    }
  }

  lemma ItemPaths(skills: Skills, items: seq<Item>, paths: seq<string>, p: string)
    requires AreSkillItems(skills, items) && |paths| == |items|
    requires forall i :: 0 <= i < |items| ==> paths[i] == items[i].path
    ensures p in paths <==> p in skills
  {
    if p in paths {
      var i :| 0 <= i < |paths| && paths[i] == p;
      assert items[i] in items;
    }
    if p in skills {
      var i :| 0 <= i < |items| && items[i] == Item(SkillKey(p), p);
      assert paths[i] == p;
    }
  }

  /** The kubelet's view: each item puts the data of its key at its path. */
  ghost predicate IsMount(data: map<string, string>, items: seq<Item>, mounted: map<string, string>) {
    && (forall it :: it in items ==> it.key in data && it.path in mounted && mounted[it.path] == data[it.key])
    && (forall p :: p in mounted ==> exists it :: it in items && it.path == p)
  }

  /** On decodable paths every item's key exists and the mounted tree is exactly the role's skills. */
  lemma MountRestoresSkills(skills: Skills, data: map<string, string>, items: seq<Item>, mounted: map<string, string>)
    requires IsSkillsData(skills, data) && AreSkillItems(skills, items)
    ensures forall it :: it in items ==> it.key in data
    ensures AllDecodable(skills) && IsMount(data, items, mounted) ==> mounted == skills
  {
    if AllDecodable(skills) && IsMount(data, items, mounted) {
      DecodableKeysAgree(skills);
      MountRestoresIff(skills, data, items, mounted);
    }
  }

  lemma MountIsData(skills: Skills, data: map<string, string>, items: seq<Item>, mounted: map<string, string>)
    requires IsSkillsData(skills, data) && AreSkillItems(skills, items) && IsMount(data, items, mounted)
    ensures mounted.Keys == skills.Keys
    ensures forall p :: p in skills ==> SkillKey(p) in data && mounted[p] == data[SkillKey(p)]
  {
    hide SkillKey, IsSkillsData;
    forall p | p in skills
      ensures p in mounted && SkillKey(p) in data && mounted[p] == data[SkillKey(p)]
    {
      assert Item(SkillKey(p), p) in items;
    }
    assert forall p :: p in mounted ==> p in skills;
  }

  /** Exactly when nothing is lost: paths that share a key have the same content. */
  lemma MountRestoresIff(skills: Skills, data: map<string, string>, items: seq<Item>, mounted: map<string, string>)
    requires IsSkillsData(skills, data) && AreSkillItems(skills, items) && IsMount(data, items, mounted)
    ensures mounted == skills <==> KeysAgree(skills)
  {
    MountIsData(skills, data, items, mounted);
    hide SkillKey, AreSkillItems, IsMount;
    if KeysAgree(skills) {
      forall p | p in skills
        ensures mounted[p] == skills[p]
      {
        var key := SkillKey(p);
        var q :| q in skills && key == SkillKey(q) && data[key] == skills[q];
      }
    }
  }

  /** Two paths that share a key show that the condition is needed: one content is lost. */
  lemma SharedKeyLosesContent()
    ensures SkillKey("skills/a__b") == SkillKey("skills/a/b")
  {
    var p, q := "skills/a__b", "skills/a/b";
    SkillKeySplits("skills/a", "__b");
    SkillKeySplits("skills/a", "/b");
    assert p == "skills/a" + "__b" && q == "skills/a" + "/b";
    assert SkillKey("__b") == "__b" == SkillKey("/b") by {
      assert "__b"[1..] == "_b" && "_b"[1..] == "b" && "b"[1..] == "" && "/b"[1..] == "b";
      assert SkillKey("b") == "b";
      assert SkillKey("_b") == "_b";
    }
  }

  lemma {:induction false} SkillKeySplits(x: string, y: string)
    ensures SkillKey(x + y) == SkillKey(x) + SkillKey(y)
  {
    if x == "" {
      assert x + y == y;
    } else {
      assert (x + y)[0] == x[0] && (x + y)[1..] == x[1..] + y;
      SkillKeySplits(x[1..], y);
    }
  }
}
