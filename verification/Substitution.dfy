/** Template variables in a role's prompt: replacing them one after the other and replacing them at once, when a
    replacement leaves the text around a placeholder alone, and the prompts in which a value makes another
    placeholder appear, which is what the exact conditions rest on. */
module Substitution {
  import opened Wrappers

  datatype Rule = Rule(name: string, value: string) {
    function Placeholder(): string { "{{" + name + "}}" }
  }

  predicate IsNameChar(c: char) { 'A' <= c <= 'Z' || c == '_' }

  predicate IsBrace(c: char) { c == '{' || c == '}' }

  predicate ValidName(name: string) {
    name != "" && forall c :: c in name ==> IsNameChar(c)
  }

  /** v, laid over q with its first character at position d, agrees with it wherever both are. */
  predicate LiesOn(v: string, q: string, d: int) {
    forall i :: 0 <= i < |v| && 0 <= d + i < |q| ==> v[i] == q[d + i]
  }

  /** v can be a part of q, hold it, or overlap it at either end; the empty text can be inside any q. */
  predicate Touches(v: string, q: string) {
    exists d :: -|v| < d < |q| && LiesOn(v, q, d)
  }

  /** A simple kind of value that touches no placeholder. */
  predicate Inert(value: string) {
    value != "" && (forall c :: c in value ==> !IsBrace(c)) && exists c :: c in value && !IsNameChar(c)
  }

  /** strings.ReplaceAll for a non-empty text to replace. */
  function ReplaceAll(s: string, target: string, value: string): string
    requires target != ""
    decreases |s|
  {
    if s == "" then ""
    else if target <= s then value + ReplaceAll(s[|target|..], target, value)
    else [s[0]] + ReplaceAll(s[1..], target, value)
  }

  /** The code's way: each rule over the whole result of the rules before it. */
  function Sequential(rules: seq<Rule>, s: string): string
    decreases |rules|
  {
    if rules == [] then s
    else
      var last := rules[|rules| - 1];
      ReplaceAll(Sequential(rules[..|rules| - 1], s), last.Placeholder(), last.value)
  }

  /** The rule whose placeholder starts the text. */
  function Match(rules: seq<Rule>, s: string): (r: Option<Rule>)
    ensures r.Some? ==> r.value in rules && r.value.Placeholder() <= s
    ensures r.None? ==> forall rule :: rule in rules ==> !(rule.Placeholder() <= s)
    decreases |rules|
  {
    if rules == [] then None
    else
      var before := Match(rules[..|rules| - 1], s);
      var last := rules[|rules| - 1];
      if before.Some? then before else if last.Placeholder() <= s then Some(last) else None
  }

  /** The intended meaning: one pass from left to right, values are never looked at again. */
  function Substitute(rules: seq<Rule>, s: string): string
    decreases |s|
  {
    if s == "" then ""
    else match Match(rules, s)
      case Some(rule) => rule.value + Substitute(rules, s[|rule.Placeholder()|..])
      case None => [s[0]] + Substitute(rules, s[1..])
  }

  ghost predicate ValidRules(rules: seq<Rule>) {
    && (forall r :: r in rules ==> ValidName(r.name))
    && (forall i, j :: 0 <= i < j < |rules| ==> rules[i].name != rules[j].name)
  }

  /** No value of the rules touches q. */
  ghost predicate AllClear(rules: seq<Rule>, q: string) {
    forall r :: r in rules ==> !Touches(r.value, q)
  }

  /** No value touches the placeholder of a later rule, but for rules that replace it by itself. */
  ghost predicate Orderly(rules: seq<Rule>) {
    forall i, j :: 0 <= i < j < |rules| ==>
      rules[j].value == rules[j].Placeholder() || !Touches(rules[i].value, rules[j].Placeholder())
  }

  /** No value touches any placeholder, not even its own. */
  ghost predicate Independent(rules: seq<Rule>) {
    forall r :: r in rules ==> AllClear(rules, r.Placeholder())
  }

  // Why one more replacement extends the substitution ---------------------------------------

  /** Text in which the placeholder never starts is passed over. */
  lemma {:induction false} ReplacePassesOver(text: string, rest: string, target: string, value: string)
    requires target != "" && forall i :: 0 <= i < |text| ==> !(target <= (text + rest)[i..])
    ensures ReplaceAll(text + rest, target, value) == text + ReplaceAll(rest, target, value)
    decreases |text|
  {
    if text == "" {
      assert text + rest == rest && text + ReplaceAll(rest, target, value) == ReplaceAll(rest, target, value);
    } else {
      var s := text + rest;
      assert s[0..] == s && s[1..] == text[1..] + rest;
      forall i | 0 <= i < |text[1..]|
        ensures !(target <= (text[1..] + rest)[i..])
      {
        assert s[1..][i..] == s[i + 1..];
      }
      ReplacePassesOver(text[1..], rest, target, value);
      assert [text[0]] + (text[1..] + ReplaceAll(rest, target, value)) == text + ReplaceAll(rest, target, value);
    }
  }

  lemma {:induction false} SubstitutePassesOver(rules: seq<Rule>, text: string, rest: string)
    requires forall i :: 0 <= i < |text| ==> Match(rules, (text + rest)[i..]).None?
    ensures Substitute(rules, text + rest) == text + Substitute(rules, rest)
    decreases |text|
  {
    if text == "" {
      assert text + rest == rest && text + Substitute(rules, rest) == Substitute(rules, rest);
    } else {
      var s := text + rest;
      assert s[0..] == s && s[1..] == text[1..] + rest;
      forall i | 0 <= i < |text[1..]|
        ensures Match(rules, (text[1..] + rest)[i..]).None?
      {
        assert s[1..][i..] == s[i + 1..];
      }
      SubstitutePassesOver(rules, text[1..], rest);
      assert [text[0]] + (text[1..] + Substitute(rules, rest)) == text + Substitute(rules, rest);
    }
  }

  /** In a text that does not touch q, no q starts, whatever follows. */
  lemma NothingStartsInside(v: string, rest: string, q: string, i: nat)
    requires !Touches(v, q) && i < |v| && q != ""
    ensures !(q <= (v + rest)[i..])
  {
    var t, d: int := v + rest, 0 - i;
    if q <= t[i..] {
      forall j | 0 <= j < |v| && 0 <= d + j < |q|
        ensures v[j] == q[d + j]
      {
        assert t[i..][j - i] == t[j];
      }
      assert LiesOn(v, q, d);
    }
  }

  /** A replacement leaves a text that does not touch the placeholder alone and goes on behind it. */
  lemma ReplaceSkipsValue(value: string, rest: string, rule: Rule)
    requires !Touches(value, rule.Placeholder())
    ensures ReplaceAll(value + rest, rule.Placeholder(), rule.value) ==
      value + ReplaceAll(rest, rule.Placeholder(), rule.value)
  {
    forall i | 0 <= i < |value|
      ensures !(rule.Placeholder() <= (value + rest)[i..])
    {
      NothingStartsInside(value, rest, rule.Placeholder(), i);
    }
    ReplacePassesOver(value, rest, rule.Placeholder(), rule.value);
  }

  /** The tail of a placeholder from its k-th character on. */
  function Tail(rule: Rule, k: nat): string
    requires k <= |rule.Placeholder()|
  {
    rule.Placeholder()[k..]
  }

  lemma TailChars(rule: Rule, k: nat)
    requires ValidName(rule.name) && k < |rule.Placeholder()|
    ensures var q := Tail(rule, k);
      && q != "" && q[|q| - 1] == '}'
      && (forall c :: c in q ==> IsBrace(c) || IsNameChar(c))
      && (k > 0 ==> q[0] != '{' || (|q| > 1 && q[1] != '{'))
  {
    var p, n := rule.Placeholder(), |rule.name|;
    assert p[0] == '{' && p[1] == '{' && p[n + 2] == '}' && p[n + 3] == '}' && |p| == n + 4;
    assert forall i :: 2 <= i < n + 2 ==> p[i] == rule.name[i - 2] && rule.name[i - 2] in rule.name;
    assert rule.name[0] in rule.name;
  }

  /** No value completes the tail of a placeholder. */
  lemma ValueIsNotInTail(value: string, rest: string, rule: Rule, k: nat)
    requires !Touches(value, rule.Placeholder()) && k < |rule.Placeholder()|
    ensures !(Tail(rule, k) <= value + rest)
  {
    var p, q, t := rule.Placeholder(), Tail(rule, k), value + rest;
    assert LiesOn("", p, 1);
    if q <= t {
      forall j | 0 <= j < |value| && 0 <= k + j < |p|
        ensures value[j] == p[k + j]
      {
        assert t[j] == q[j];
      }
      assert LiesOn(value, p, k);
    }
  }

  /** The output shows a placeholder's tail only where the input does. */
  lemma {:induction false} TailComesFromInput(rules: seq<Rule>, s: string, rule: Rule, k: nat)
    requires AllClear(rules, rule.Placeholder()) && ValidName(rule.name) && k < |rule.Placeholder()|
    requires Tail(rule, k) <= Substitute(rules, s)
    ensures Tail(rule, k) <= s
    decreases |s|
  {
    var q := Tail(rule, k);
    TailChars(rule, k);
    var m := Match(rules, s);
    if m.Some? {
      ValueIsNotInTail(m.value.value, Substitute(rules, s[|m.value.Placeholder()|..]), rule, k);
    } else {
      var rest := Substitute(rules, s[1..]);
      assert q[0] == s[0];
      if k + 1 < |rule.Placeholder()| {
        assert Tail(rule, k + 1) == q[1..];
        assert ([s[0]] + rest)[1..] == rest;
        assert q[1..] <= rest;
        TailComesFromInput(rules, s[1..], rule, k + 1);
        assert s == [s[0]] + s[1..] && q == [q[0]] + q[1..];
      }
    }
  }

  lemma PlaceholdersDiffer(a: Rule, b: Rule, s: string)
    requires ValidName(a.name) && ValidName(b.name) && a.Placeholder() <= s && b.Placeholder() <= s
    ensures a.name == b.name
  {
    if |a.name| <= |b.name| {
      ShorterIsSame(a, b, s);
    } else {
      ShorterIsSame(b, a, s);
    }
  }

  lemma ShorterIsSame(a: Rule, b: Rule, s: string)
    requires ValidName(a.name) && ValidName(b.name) && a.Placeholder() <= s && b.Placeholder() <= s
    requires |a.name| <= |b.name|
    ensures a.name == b.name
  {
    var m, y := |a.name|, b.Placeholder();
    assert forall i :: 0 <= i < |b.name| ==> y[i + 2] == b.name[i] && b.name[i] in b.name;
    assert a.Placeholder()[m + 2] == '}' == s[m + 2] == y[m + 2];
    assert m == |b.name|;
    assert s[..m + 4] == a.Placeholder() && s[..m + 4] == b.Placeholder();
    assert a.Placeholder()[2..m + 2] == a.name && b.Placeholder()[2..m + 2] == b.name;
  }

  lemma NoMatchInTail(rules: seq<Rule>, s: string, rule: Rule, k: nat)
    requires ValidName(rule.name) && k < |rule.Placeholder()| && Tail(rule, k) <= s
    requires forall r :: r in rules ==> ValidName(r.name) && r.name != rule.name
    ensures Match(rules, s).None?
  {
    var q := Tail(rule, k);
    TailChars(rule, k);
    assert q[0] == s[0] && (|q| > 1 ==> q[1] == s[1]);
    forall r | r in rules
      ensures !(r.Placeholder() <= s)
    {
      assert r.Placeholder()[0] == '{' && r.Placeholder()[1] == '{';
      if k == 0 && r.Placeholder() <= s {
        PlaceholdersDiffer(r, rule, s);
      }
    }
  }

  /** A placeholder no rule is for passes through unchanged. */
  lemma {:induction false} ForeignPlaceholderPasses(rules: seq<Rule>, s: string, rule: Rule, k: nat)
    requires ValidName(rule.name) && k <= |rule.Placeholder()| && Tail(rule, k) <= s
    requires forall r :: r in rules ==> ValidName(r.name) && r.name != rule.name
    ensures Substitute(rules, s) == Tail(rule, k) + Substitute(rules, s[|Tail(rule, k)|..])
    decreases |rule.Placeholder()| - k
  {
    var q := Tail(rule, k);
    if k == |rule.Placeholder()| {
      assert q == "" && s[0..] == s;
    } else {
      hide ValidName, Match;
      TailChars(rule, k);
      NoMatchInTail(rules, s, rule, k);
      assert Tail(rule, k + 1) == q[1..] && q[0] == s[0];
      assert q[1..] <= s[1..];
      ForeignPlaceholderPasses(rules, s[1..], rule, k + 1);
      assert s[1..][|q[1..]|..] == s[|q|..];
      assert [s[0]] + (q[1..] + Substitute(rules, s[|q|..])) == q + Substitute(rules, s[|q|..]);
    }
  }

  /** Replacing one more placeholder in the result is the same as having one more rule. */
  lemma {:induction false} OneMoreRule(rules: seq<Rule>, last: Rule, s: string)
    requires ValidRules(rules + [last]) && AllClear(rules, last.Placeholder())
    ensures ReplaceAll(Substitute(rules, s), last.Placeholder(), last.value) == Substitute(rules + [last], s)
    decreases |s|
  {
    if s != "" {
      var all := rules + [last];
      assert all[..|all| - 1] == rules && all[|all| - 1] == last;
      assert last in all && forall r :: r in rules ==> r in all;
      var m, p := Match(rules, s), last.Placeholder();
      if m.Some? {
        var rest := s[|m.value.Placeholder()|..];
        ReplaceSkipsValue(m.value.value, Substitute(rules, rest), last);
        OneMoreRule(rules, last, rest);
      } else if p <= s {
        var rest := Substitute(rules, s[|p|..]);
        NamesDiffer(rules, last);
        assert Tail(last, 0) == p;
        ForeignPlaceholderPasses(rules, s, last, 0);
        assert (p + rest)[|p|..] == rest;
        OneMoreRule(rules, last, s[|p|..]);
      } else {
        var rest := Substitute(rules, s[1..]);
        assert !(p <= Substitute(rules, s)) by {
          if p <= Substitute(rules, s) {
            assert Tail(last, 0) == p;
            TailComesFromInput(rules, s, last, 0);
          }
        }
        assert ([s[0]] + rest)[1..] == rest;
        OneMoreRule(rules, last, s[1..]);
      }
    }
  }

  lemma NamesDiffer(rules: seq<Rule>, last: Rule)
    requires ValidRules(rules + [last])
    ensures forall r :: r in rules ==> ValidName(r.name) && r.name != last.name
  {
    var all := rules + [last];
    forall r | r in rules
      ensures ValidName(r.name) && r.name != last.name
    {
      var i :| 0 <= i < |rules| && rules[i] == r;
      assert all[i] == r && all[|rules|] == last && r in all;
    }
  }

  lemma {:induction false} NoRulesNoChange(s: string)
    ensures Substitute([], s) == s
  {
    if s != "" {
      NoRulesNoChange(s[1..]);
    }
  }

  /** A rule that replaces its placeholder by itself changes nothing. */
  lemma {:induction false} ReplaceBySelf(s: string, target: string)
    requires target != ""
    ensures ReplaceAll(s, target, target) == s
    decreases |s|
  {
    if s != "" {
      if target <= s {
        ReplaceBySelf(s[|target|..], target);
        assert s == target + s[|target|..];
      } else {
        ReplaceBySelf(s[1..], target);
      }
    }
  }

  lemma {:induction false} OneIdleRule(rules: seq<Rule>, last: Rule, s: string)
    requires ValidRules(rules + [last]) && last.value == last.Placeholder()
    ensures Substitute(rules + [last], s) == Substitute(rules, s)
    decreases |s|
  {
    if s != "" {
      var all := rules + [last];
      assert all[..|all| - 1] == rules && all[|all| - 1] == last;
      assert last in all;
      var m, p := Match(rules, s), last.Placeholder();
      if m.Some? {
        OneIdleRule(rules, last, s[|m.value.Placeholder()|..]);
      } else if p <= s {
        NamesDiffer(rules, last);
        assert Tail(last, 0) == p;
        ForeignPlaceholderPasses(rules, s, last, 0);
        OneIdleRule(rules, last, s[|p|..]);
      } else {
        OneIdleRule(rules, last, s[1..]);
      }
    }
  }

  /** If the rules are orderly, replacing in sequence is substituting at once. */
  lemma {:induction false} SequentialIsSimultaneous(rules: seq<Rule>, s: string)
    requires ValidRules(rules) && Orderly(rules)
    ensures Sequential(rules, s) == Substitute(rules, s)
    decreases |rules|
  {
    if rules == [] {
      NoRulesNoChange(s);
    } else {
      var before, last := rules[..|rules| - 1], rules[|rules| - 1];
      assert rules == before + [last];
      assert ValidRules(before) by {
        assert forall r :: r in before ==> r in rules;
      }
      SequentialIsSimultaneous(before, s);
      if last.value == last.Placeholder() {
        ReplaceBySelf(Substitute(before, s), last.value);
        OneIdleRule(before, last, s);
      } else {
        assert AllClear(before, last.Placeholder());
        OneMoreRule(before, last, s);
      }
    }
  }

  // Order and repetition ----------------------------------------------------------------------

  lemma {:induction false} MatchIsUnique(x: seq<Rule>, y: seq<Rule>, s: string)
    requires ValidRules(x) && ValidRules(y) && forall r :: r in x <==> r in y
    ensures Match(x, s) == Match(y, s)
  {
    var a, b := Match(x, s), Match(y, s);
    if a.Some? && b.Some? {
      PlaceholdersDiffer(a.value, b.value, s);
    }
  }

  lemma {:induction false} SubstituteIgnoresOrder(x: seq<Rule>, y: seq<Rule>, s: string)
    requires ValidRules(x) && ValidRules(y) && forall r :: r in x <==> r in y
    ensures Substitute(x, s) == Substitute(y, s)
    decreases |s|
  {
    if s != "" {
      MatchIsUnique(x, y, s);
      var m := Match(x, s);
      SubstituteIgnoresOrder(x, y, if m.Some? then s[|m.value.Placeholder()|..] else s[1..]);
    }
  }

  lemma OrderDoesNotMatter(x: seq<Rule>, y: seq<Rule>, s: string)
    requires SameRules(x, y) && OrderlyBothWays(x)
    ensures Sequential(x, s) == Sequential(y, s)
  {
    BothWaysIsOrderly(x, x);
    BothWaysIsOrderly(x, y);
    SequentialIsSimultaneous(x, s);
    SequentialIsSimultaneous(y, s);
    SubstituteIgnoresOrder(x, y, s);
  }

  lemma BothWaysIsOrderly(x: seq<Rule>, y: seq<Rule>)
    requires SameRules(x, y) && OrderlyBothWays(x)
    ensures Orderly(y)
  {
    hide Touches;
    forall i, j | 0 <= i < j < |y|
      ensures y[j].value == y[j].Placeholder() || !Touches(y[i].value, y[j].Placeholder())
    {
      assert y[i] in y && y[j] in y && y[i].name != y[j].name;
    }
  }

  /** A value that touches no placeholder of the rules is not looked into. */
  lemma SubstituteSkipsValue(rules: seq<Rule>, value: string, rest: string)
    requires forall r :: r in rules ==> !Touches(value, r.Placeholder())
    ensures Substitute(rules, value + rest) == value + Substitute(rules, rest)
  {
    forall i | 0 <= i < |value|
      ensures Match(rules, (value + rest)[i..]).None?
    {
      forall r | r in rules
        ensures !(r.Placeholder() <= (value + rest)[i..])
      {
        NothingStartsInside(value, rest, r.Placeholder(), i);
      }
    }
    SubstitutePassesOver(rules, value, rest);
  }

  /** With independent rules a second substitution changes nothing. */
  lemma {:induction false} SecondTimeChangesNothing(rules: seq<Rule>, s: string)
    requires ValidRules(rules) && Independent(rules)
    ensures Substitute(rules, Substitute(rules, s)) == Substitute(rules, s)
    decreases |s|
  {
    if s != "" {
      var m := Match(rules, s);
      if m.Some? {
        var rest := s[|m.value.Placeholder()|..];
        SubstituteSkipsValue(rules, m.value.value, Substitute(rules, rest));
        SecondTimeChangesNothing(rules, rest);
      } else {
        var t := Substitute(rules, s);
        var again := Match(rules, t);
        if again.Some? {
          assert Tail(again.value, 0) == again.value.Placeholder();
          TailComesFromInput(rules, s, again.value, 0);
          assert false;
        }
        assert t[1..] == Substitute(rules, s[1..]);
        SecondTimeChangesNothing(rules, s[1..]);
      }
    }
  }

  // Why nothing less will do ---------------------------------------------------------------------

  /** A prompt in which replacing p by v makes a q appear: v's place in q is taken by p. */
  function Trap(p: string, v: string, q: string, d: int): string
    requires -|v| < d < |q|
  {
    Before(q, d) + p + Behind(v, q, d)
  }

  /** What the prompt turns into. */
  function Sprung(v: string, q: string, d: int): string
    requires -|v| < d < |q|
  {
    Before(q, d) + v + Behind(v, q, d)
  }

  function Before(q: string, d: int): string
    requires d < |q|
  {
    if d >= 0 then q[..d] else ""
  }

  function Behind(v: string, q: string, d: int): string
    requires -|v| < d
  {
    if d + |v| <= |q| then q[d + |v|..] else ""
  }

  /** The sprung trap holds a q. */
  lemma SprungHolds(v: string, q: string, d: int) returns (u: string, z: string)
    requires -|v| < d < |q| && LiesOn(v, q, d)
    ensures Sprung(v, q, d) == u + q + z
  {
    var t := Sprung(v, q, d);
    var at := if d >= 0 then 0 else -d;
    assert forall i :: 0 <= i < |q| ==> at + i < |t| && t[at + i] == q[i];
    SplitAround(t, q, at);
    u, z := t[..at], t[at + |q|..];
  }

  lemma SplitAround(t: string, q: string, at: nat)
    requires at + |q| <= |t| && forall i :: 0 <= i < |q| ==> t[at + i] == q[i]
    ensures t == t[..at] + q + t[at + |q|..]
  {
    assert t[at..at + |q|] == q;
  }

  /** Behind a part of a placeholder that another one cuts short, no placeholder starts before that. */
  lemma NoMatchBefore(rules: seq<Rule>, q: Rule, p: Rule, rest: string, d: nat, i: nat)
    requires ValidName(q.name) && ValidName(p.name) && i < d < |q.Placeholder()|
    requires forall r :: r in rules ==> ValidName(r.name)
    ensures Match(rules, (q.Placeholder()[..d] + (p.Placeholder() + rest))[i..]).None?
  {
    var s := (q.Placeholder()[..d] + (p.Placeholder() + rest))[i..];
    forall r | r in rules
      ensures !(r.Placeholder() <= s)
    {
      CutShort(r, q, p, rest, d, i);
    }
  }

  lemma PlaceholderChars(r: Rule, k: nat)
    requires ValidName(r.name) && k < |r.Placeholder()|
    ensures r.Placeholder()[k] == '{' <==> k < 2
    ensures |r.Placeholder()| >= 5
  {
    var p, n := r.Placeholder(), |r.name|;
    assert p[0] == '{' && p[1] == '{' && p[n + 2] == '}' && p[n + 3] == '}' && |p| == n + 4;
    assert 2 <= k < n + 2 ==> p[k] == r.name[k - 2] && r.name[k - 2] in r.name;
  }

  lemma CutShort(r: Rule, q: Rule, p: Rule, rest: string, d: nat, i: nat)
    requires ValidName(r.name) && ValidName(q.name) && ValidName(p.name) && i < d < |q.Placeholder()|
    ensures !(r.Placeholder() <= (q.Placeholder()[..d] + (p.Placeholder() + rest))[i..])
  {
    var x, y, z := r.Placeholder(), q.Placeholder(), p.Placeholder();
    var whole := y[..d] + (z + rest);
    PlaceholderChars(p, 0);
    PlaceholderChars(p, 1);
    PlaceholderChars(q, i);
    PlaceholderChars(q, 2);
    PlaceholderChars(r, 0);
    PlaceholderChars(r, 1);
    PlaceholderChars(r, 2);
    assert whole[i] == y[i] && whole[d] == '{' && whole[d + 1] == '{';
    if i >= 2 {
      assert whole[i..][0] != x[0];
    } else if d - i < |x| {
      PlaceholderChars(r, d - i);
      assert d - i >= 2 ==> whole[i..][d - i] != x[d - i];
      assert d - i == 1 ==> whole[i..][2] != x[2];
    } else if i == 1 {
      assert whole[i..][1] == y[2] != x[1];
    } else {
      assert x <= y ==> r.name == q.name by {
        if x <= y {
          PlaceholdersDiffer(r, q, y);
        }
      }
      assert x <= whole[i..] ==> x <= y by {
        assert whole[..|x|] == y[..|x|] && whole[i..] == whole;
      }
    }
  }

  /** What lies behind the first character of a placeholder is passed over. */
  lemma SubstituteLeavesTail(rules: seq<Rule>, q: Rule, e: nat)
    requires ValidName(q.name) && 0 < e <= |q.Placeholder()|
    ensures Substitute(rules, q.Placeholder()[e..]) == q.Placeholder()[e..]
  {
    var t := q.Placeholder()[e..];
    forall i | 0 <= i < |t|
      ensures Match(rules, (t + "")[i..]).None?
    {
      assert (t + "")[i..] == q.Placeholder()[e + i..];
      if e + i + 1 < |q.Placeholder()| {
        PlaceholderChars(q, e + i + 1);
        assert q.Placeholder()[e + i..][1] == q.Placeholder()[e + i + 1];
      }
    }
    SubstitutePassesOver(rules, t, "");
    assert t + "" == t;
  }

  /** One pass springs the trap, and leaves it at that. */
  lemma SubstituteSprings(rules: seq<Rule>, p: Rule, q: Rule, d: int)
    requires p in rules && ValidRules(rules) && ValidName(q.name) && ValidName(p.name)
    requires -|p.value| < d < |q.Placeholder()|
    ensures Substitute(rules, Trap(p.Placeholder(), p.value, q.Placeholder(), d)) == Sprung(p.value, q.Placeholder(), d)
  {
    var left, right := Before(q.Placeholder(), d), Behind(p.value, q.Placeholder(), d);
    if d + |p.value| <= |q.Placeholder()| {
      SubstituteLeavesTail(rules, q, d + |p.value|);
    }
    assert Substitute(rules, right) == right;
    hide Substitute, Match, ValidName;
    SubstituteFirst(rules, p, right);
    FrontPasses(rules, p, q, right, d);
    PiecesJoin(rules, left, p.Placeholder(), p.value, right);
  }

  lemma PiecesJoin(rules: seq<Rule>, left: string, p: string, v: string, right: string)
    requires Substitute(rules, left + (p + right)) == left + Substitute(rules, p + right)
    requires Substitute(rules, p + right) == v + right
    ensures Substitute(rules, left + p + right) == left + v + right
  {
    hide *;
    assert left + p + right == left + (p + right);
    assert left + v + right == left + (v + right);
  }

  lemma FrontPasses(rules: seq<Rule>, p: Rule, q: Rule, right: string, d: int)
    requires ValidRules(rules) && ValidName(q.name) && ValidName(p.name) && d < |q.Placeholder()|
    ensures
      var left, rest := Before(q.Placeholder(), d), p.Placeholder() + right;
      Substitute(rules, left + rest) == left + Substitute(rules, rest)
  {
    var left, rest := Before(q.Placeholder(), d), p.Placeholder() + right;
    forall i | 0 <= i < |left|
      ensures Match(rules, (left + rest)[i..]).None?
    {
      NoMatchBefore(rules, q, p, right, d, i);
    }
    hide Substitute, Match;
    SubstitutePassesOver(rules, left, rest);
  }

  lemma SubstituteFirst(rules: seq<Rule>, p: Rule, rest: string)
    requires p in rules && ValidRules(rules)
    ensures Substitute(rules, p.Placeholder() + rest) == p.value + Substitute(rules, rest)
  {
    var s := p.Placeholder() + rest;
    var m := Match(rules, s);
    assert p.Placeholder() <= s;
    PlaceholdersDiffer(m.value, p, s);
    assert s[|p.Placeholder()|..] == rest;
  }

  /** Placeholders do not overlap themselves: replacing goes through each of them on its own. */
  lemma {:induction false} ReplaceAcross(u: string, z: string, q: Rule)
    requires ValidName(q.name)
    ensures ReplaceAll(u + q.Placeholder() + z, q.Placeholder(), q.value) ==
      ReplaceAll(u, q.Placeholder(), q.value) + q.value + ReplaceAll(z, q.Placeholder(), q.value)
    decreases |u|
  {
    var p := q.Placeholder();
    var s := u + p + z;
    if u == "" {
      assert s == p + z && s[|p|..] == z;
    } else if p <= s {
      assert |p| <= |u| by {
        if |u| < |p| {
          NoOverlap(q, u, z);
        }
      }
      assert p <= u && s[|p|..] == u[|p|..] + p + z;
      ReplaceAcross(u[|p|..], z, q);
    } else {
      assert p <= u ==> p <= s;
      assert s[0] == u[0] && s[1..] == u[1..] + p + z;
      ReplaceAcross(u[1..], z, q);
    }
  }

  lemma NoOverlap(q: Rule, u: string, z: string)
    requires ValidName(q.name) && 0 < |u| < |q.Placeholder()|
    ensures !(q.Placeholder() <= u + q.Placeholder() + z)
  {
    var p := q.Placeholder();
    var s := u + p + z;
    PlaceholderChars(q, 0);
    PlaceholderChars(q, 1);
    PlaceholderChars(q, 2);
    PlaceholderChars(q, |u|);
    assert s[|u|] == p[0] && s[|u| + 1] == p[1];
    assert |u| >= 2 ==> p[|u|] != s[|u|];
    assert |u| == 1 ==> p[2] != s[2];
  }

  lemma {:induction false} ReplaceLength(s: string, target: string, value: string)
    requires target != ""
    ensures |value| >= |target| ==> |ReplaceAll(s, target, value)| >= |s|
    ensures |value| <= |target| ==> |ReplaceAll(s, target, value)| <= |s|
    decreases |s|
  {
    if s != "" {
      ReplaceLength(if target <= s then s[|target|..] else s[1..], target, value);
    }
  }

  /** A text with the placeholder in it does not stay as it is, unless the placeholder stands for itself. */
  lemma ReplaceChanges(u: string, z: string, q: Rule)
    requires ValidName(q.name) && q.value != q.Placeholder()
    ensures ReplaceAll(u + q.Placeholder() + z, q.Placeholder(), q.value) != u + q.Placeholder() + z
  {
    var p, w := q.Placeholder(), q.value;
    var a, b := ReplaceAll(u, p, w), ReplaceAll(z, p, w);
    ReplaceAcross(u, z, q);
    ReplaceLength(u, p, w);
    ReplaceLength(z, p, w);
    hide ReplaceAll;
    if |p| == |w| {
      assert (a + w + b)[|u|..|u| + |p|] == w;
      assert (u + p + z)[|u|..|u| + |p|] == p;
    }
  }

  /** The first replacement springs it as well. */
  lemma ReplaceSprings(p: Rule, q: Rule, d: int)
    requires ValidName(p.name) && ValidName(q.name) && -|p.value| < d < |q.Placeholder()|
    ensures ReplaceAll(Trap(p.Placeholder(), p.value, q.Placeholder(), d), p.Placeholder(), p.value) ==
      Sprung(p.value, q.Placeholder(), d)
  {
    var s := Trap(p.Placeholder(), p.value, q.Placeholder(), d);
    assert Orderly([p]) && ValidRules([p]) && [p][..0] == [];
    assert Sequential([], s) == s;
    assert Sequential([p], s) == ReplaceAll(Sequential([p][..0], s), p.Placeholder(), p.value);
    SequentialIsSimultaneous([p], s);
    SubstituteSprings([p], p, q, d);
  }

  // In any order, and once more ----------------------------------------------------------------------

  /** The trap for p holds no other placeholder. */
  lemma TrapIsLeftAlone(r: Rule, p: Rule, q: Rule, d: int)
    requires ValidName(r.name) && ValidName(p.name) && ValidName(q.name) && r.name != p.name
    requires -|p.value| < d < |q.Placeholder()|
    ensures var s := Trap(p.Placeholder(), p.value, q.Placeholder(), d);
      ReplaceAll(s, r.Placeholder(), r.value) == s
  {
    var left, right := Before(q.Placeholder(), d), Behind(p.value, q.Placeholder(), d);
    var s, rules := Trap(p.Placeholder(), p.value, q.Placeholder(), d), [r];
    if d + |p.value| <= |q.Placeholder()| {
      SubstituteLeavesTail(rules, q, d + |p.value|);
    }
    assert Substitute(rules, right) == right;
    assert Tail(p, 0) == p.Placeholder() && (p.Placeholder() + right)[|p.Placeholder()|..] == right;
    ForeignPlaceholderPasses(rules, p.Placeholder() + right, p, 0);
    assert ValidRules(rules);
    hide Substitute, Match, ValidName, ReplaceAll, Sequential;
    FrontPasses(rules, p, q, right, d);
    PiecesJoin(rules, left, p.Placeholder(), p.Placeholder(), right);
    OneRule(r, s);
  }

  lemma OneRule(r: Rule, s: string)
    requires ValidName(r.name)
    ensures Substitute([r], s) == ReplaceAll(s, r.Placeholder(), r.value)
  {
    assert [r][..0] == [] && Sequential([], s) == s;
    assert Sequential([r], s) == ReplaceAll(Sequential([r][..0], s), r.Placeholder(), r.value);
    SequentialIsSimultaneous([r], s);
  }

  lemma {:induction false} OthersLeaveTrap(rules: seq<Rule>, p: Rule, q: Rule, d: int)
    requires ValidName(p.name) && ValidName(q.name) && -|p.value| < d < |q.Placeholder()|
    requires forall r :: r in rules ==> ValidName(r.name) && r.name != p.name
    ensures var s := Trap(p.Placeholder(), p.value, q.Placeholder(), d); Sequential(rules, s) == s
    decreases |rules|
  {
    if rules != [] {
      OthersLeaveTrap(rules[..|rules| - 1], p, q, d);
      TrapIsLeftAlone(rules[|rules| - 1], p, q, d);
    }
  }

  lemma SequentialTwoMore(rules: seq<Rule>, a: Rule, b: Rule, s: string)
    ensures Sequential(rules + [a, b], s) ==
      ReplaceAll(ReplaceAll(Sequential(rules, s), a.Placeholder(), a.value), b.Placeholder(), b.value)
  {
    assert (rules + [a, b])[..|rules| + 1] == rules + [a] && (rules + [a])[..|rules|] == rules;
  }

  /** If a value touches the placeholder of another rule, the two orders of these rules differ. */
  lemma OrderShows(others: seq<Rule>, p: Rule, q: Rule)
    requires ValidName(p.name) && ValidName(q.name) && p.name != q.name && q.value != q.Placeholder()
    requires forall r :: r in others ==> ValidName(r.name) && r.name != p.name
    requires Touches(p.value, q.Placeholder())
    ensures exists s :: Sequential(others + [p, q], s) != Sequential(others + [q, p], s)
  {
    var d :| -|p.value| < d < |q.Placeholder()| && LiesOn(p.value, q.Placeholder(), d);
    var s, t := Trap(p.Placeholder(), p.value, q.Placeholder(), d), Sprung(p.value, q.Placeholder(), d);
    hide ReplaceAll, Sequential, Trap, Sprung, LiesOn;
    OthersLeaveTrap(others, p, q, d);
    SequentialTwoMore(others, p, q, s);
    SequentialTwoMore(others, q, p, s);
    TrapIsLeftAlone(q, p, q, d);
    ReplaceSprings(p, q, d);
    var u, z := SprungHolds(p.value, q.Placeholder(), d);
    ReplaceChanges(u, z, q);
  }

  /** No value touches the placeholder of another rule, but for rules that replace it by itself. */
  ghost predicate OrderlyBothWays(rules: seq<Rule>) {
    forall x, r :: x in rules && r in rules && x != r ==>
      r.value == r.Placeholder() || !Touches(x.value, r.Placeholder())
  }

  ghost predicate SameRules(x: seq<Rule>, y: seq<Rule>) {
    ValidRules(x) && ValidRules(y) && forall r :: r in x <==> r in y
  }

  lemma WithoutRule(rules: seq<Rule>, p: Rule) returns (rest: seq<Rule>)
    requires ValidRules(rules) && p in rules
    ensures ValidRules(rest) && (forall r :: r in rest <==> r in rules && r != p)
    ensures forall r :: r in rest ==> r.name != p.name
  {
    var i :| 0 <= i < |rules| && rules[i] == p;
    rest := rules[..i] + rules[i + 1..];
    assert forall r :: r in rules ==> r in rest || r == p;
  }

  lemma WithRule(rules: seq<Rule>, r: Rule)
    requires ValidRules(rules) && ValidName(r.name) && forall x :: x in rules ==> x.name != r.name
    ensures ValidRules(rules + [r]) && forall x :: x in rules + [r] <==> x in rules || x == r
  {
    hide ValidName;
  }

  lemma SplitPair(rules: seq<Rule>, p: Rule, q: Rule) returns (others: seq<Rule>)
    requires ValidRules(rules) && p in rules && q in rules && p != q
    ensures SameRules(rules, others + [p, q]) && SameRules(rules, others + [q, p])
    ensures forall r :: r in others ==> ValidName(r.name) && r.name != p.name
    ensures p.name != q.name
  {
    var rest := WithoutRule(rules, p);
    others := WithoutRule(rest, q);
    assert p.name != q.name && ValidName(p.name) && ValidName(q.name);
    WithRule(others, p);
    WithRule(others, q);
    WithRule(others + [p], q);
    WithRule(others + [q], p);
    assert others + [p] + [q] == others + [p, q] && others + [q] + [p] == others + [q, p];
    hide ValidName;
  }

  predicate IsIdle(r: Rule) { r.value == r.Placeholder() }

  /** The rules that replace something. */
  function Active(rules: seq<Rule>): (active: seq<Rule>)
    ensures forall r :: r in active <==> r in rules && !IsIdle(r)
    decreases |rules|
  {
    if rules == [] then []
    else
      var last := rules[|rules| - 1];
      Active(rules[..|rules| - 1]) + if IsIdle(last) then [] else [last]
  }

  lemma {:induction false} ActiveIsValid(rules: seq<Rule>)
    requires ValidRules(rules)
    ensures ValidRules(Active(rules))
    decreases |rules|
  {
    if rules != [] {
      var before, last := rules[..|rules| - 1], rules[|rules| - 1];
      assert last in rules && forall r :: r in before ==> r in rules && r.name != last.name;
      ActiveIsValid(before);
      hide Active, ValidName;
      WithRule(Active(before), last);
      assert Active(rules) == Active(before) + if IsIdle(last) then [] else [last];
    }
  }

  lemma {:induction false} IdleRulesDoNothing(rules: seq<Rule>, s: string)
    requires ValidRules(rules)
    ensures Substitute(rules, s) == Substitute(Active(rules), s)
    decreases |s|
  {
    hide Substitute, ValidName, Match;
    var active := Active(rules);
    if s == "" {
      EmptyStays(rules);
      EmptyStays(active);
    } else {
      ActiveIsValid(rules);
      OnePlace(rules, s);
      OnePlace(active, s);
      var m, n := Match(rules, s), Match(active, s);
      if m.Some? {
        var p := m.value.Placeholder();
        IdleRulesDoNothing(rules, s[|p|..]);
        if n.Some? {
          PlaceholdersDiffer(m.value, n.value, s);
        } else {
          assert IsIdle(m.value) && Tail(m.value, 0) == p;
          assert forall r :: r in active ==> r.name != m.value.name;
          ForeignPlaceholderPasses(active, s, m.value, 0);
        }
      } else {
        IdleRulesDoNothing(rules, s[1..]);
      }
    }
  }

  /** No value touches a placeholder, not even its own, that does not stand for itself. */
  ghost predicate Undisturbed(rules: seq<Rule>) {
    forall x, r :: x in rules && r in rules ==> IsIdle(r) || !Touches(x.value, r.Placeholder())
  }

  /** In a text that substituting leaves as it is: the first placeholder in it that is replaced. */
  lemma {:induction false} FirstChange(rules: seq<Rule>, u: string, q: Rule, z: string) returns (m: Rule, rest: string)
    requires ValidRules(rules) && q in rules && !IsIdle(q)
    requires Substitute(rules, u + q.Placeholder() + z) == u + q.Placeholder() + z
    ensures m in rules && !IsIdle(m) && m.value + Substitute(rules, rest) == m.Placeholder() + rest
    decreases |u|
  {
    hide Substitute, ValidName, Match;
    var t := u + q.Placeholder() + z;
    var found := Match(rules, t);
    OnePlace(rules, t);
    if u == "" {
      assert q.Placeholder() <= t;
      PlaceholdersDiffer(found.value, q, t);
    }
    if found.Some? {
      var r := found.value;
      var behind := t[|r.Placeholder()|..];
      if !IsIdle(r) {
        return r, behind;
      }
      PlaceholderEnds(r, u, q, z);
      SameBehind(r.value, Substitute(rules, behind), behind);
      m, rest := FirstChange(rules, u[|r.Placeholder()|..], q, z);
    } else {
      SameBehind([t[0]], Substitute(rules, t[1..]), t[1..]);
      assert t[1..] == u[1..] + q.Placeholder() + z;
      m, rest := FirstChange(rules, u[1..], q, z);
    }
  }

  lemma EmptyStays(rules: seq<Rule>)
    ensures Substitute(rules, "") == ""
  {}

  lemma OnePlace(rules: seq<Rule>, t: string)
    requires t != ""
    ensures match Match(rules, t)
      case Some(r) => t == r.Placeholder() + t[|r.Placeholder()|..] &&
        Substitute(rules, t) == r.value + Substitute(rules, t[|r.Placeholder()|..])
      case None => t == [t[0]] + t[1..] && Substitute(rules, t) == [t[0]] + Substitute(rules, t[1..])
  {}

  lemma SameBehind(x: string, y: string, z: string)
    requires x + y == x + z
    ensures y == z
  {
    assert (x + y)[|x|..] == y && (x + z)[|x|..] == z;
  }

  lemma PlaceholderEnds(r: Rule, u: string, q: Rule, z: string)
    requires ValidName(r.name) && ValidName(q.name) && u != "" && r.Placeholder() <= u + q.Placeholder() + z
    ensures |r.Placeholder()| <= |u|
    ensures (u + q.Placeholder() + z)[|r.Placeholder()|..] == u[|r.Placeholder()|..] + q.Placeholder() + z
  {
    var p, t := r.Placeholder(), u + q.Placeholder() + z;
    if |u| < |p| {
      assert t[..|p|][..|u|] == u;
      assert p[..|u|] == u && (p[..|u|] + (q.Placeholder() + z))[0..] == t;
      CutShort(r, r, q, z, |u|, 0);
    }
  }

  /** A value inside a placeholder springs a trap that leaves just that placeholder. */
  lemma SprungExactly(rules: seq<Rule>, p: Rule, q: Rule, d: nat) returns (s: string)
    requires ValidRules(rules) && p in rules && q in rules
    requires d < |q.Placeholder()| && d + |p.value| <= |q.Placeholder()| && -|p.value| < d
    requires q.Placeholder()[d..d + |p.value|] == p.value
    ensures Substitute(rules, s) == q.Placeholder()
  {
    assert ValidName(p.name) && ValidName(q.name);
    hide *;
    s := Trap(p.Placeholder(), p.value, q.Placeholder(), d);
    SubstituteSprings(rules, p, q, d);
    SprungIsWhole(p.value, q.Placeholder(), d);
  }

  lemma SprungIsWhole(v: string, q: string, d: nat)
    requires d < |q| && d + |v| <= |q| && -|v| < d && q[d..d + |v|] == v
    ensures Sprung(v, q, d) == q
  {
    assert q == q[..d] + q[d..d + |v|] + q[d + |v|..];
  }

  /** If the first replaced placeholder leads back to the same text, some text becomes a placeholder. */
  lemma SomeTextBecomes(rules: seq<Rule>, m: Rule, rest: string) returns (s: string)
    requires ValidRules(rules) && m in rules && !IsIdle(m)
    requires m.value + Substitute(rules, rest) == m.Placeholder() + rest
    requires Substitute(rules, Substitute(rules, m.Placeholder())) == Substitute(rules, m.Placeholder())
    ensures Substitute(rules, s) == m.Placeholder()
  {
    hide Substitute, ValidName;
    OneBeginsTheOther(m.value, Substitute(rules, rest), m.Placeholder(), rest);
    if |m.value| < |m.Placeholder()| {
      s := SprungExactly(rules, m, m, if m.value == "" then 2 else 0);
    } else {
      s := GrownValue(rules, m, m.value[|m.Placeholder()|..]);
    }
  }

  lemma OneBeginsTheOther(w: string, x: string, p: string, y: string)
    requires w + x == p + y
    ensures |w| < |p| ==> w == p[..|w|]
    ensures |w| >= |p| ==> w == p + w[|p|..]
  {
    assert |w| < |p| ==> (w + x)[..|w|] == (p + y)[..|w|];
    assert |w| >= |p| ==> (w + x)[..|p|] == (p + y)[..|p|];
  }

  /** A value that goes on behind its placeholder does so with placeholders of empty values. */
  lemma GrownValue(rules: seq<Rule>, m: Rule, r: string) returns (s: string)
    requires ValidRules(rules) && m in rules && m.value == m.Placeholder() + r && r != ""
    requires Substitute(rules, Substitute(rules, m.Placeholder())) == Substitute(rules, m.Placeholder())
    ensures Substitute(rules, s) == m.Placeholder()
  {
    BecomesValue(rules, m);
    SubstituteFirst(rules, m, r);
    assert m.value + Substitute(rules, r) == m.value;
    assert Substitute(rules, r) == "";
    var k := Match(rules, r);
    assert k.Some? && k.value.value == "";
    hide Substitute, Match, ValidName;
    s := SprungExactly(rules, k.value, m, 2);
  }

  lemma SecondTimeShows(rules: seq<Rule>, p: Rule, q: Rule) returns (s: string)
    requires ValidRules(rules) && p in rules && q in rules && !IsIdle(q) && Touches(p.value, q.Placeholder())
    ensures Substitute(rules, Substitute(rules, s)) != Substitute(rules, s)
  {
    var d :| -|p.value| < d < |q.Placeholder()| && LiesOn(p.value, q.Placeholder(), d);
    s := Trap(p.Placeholder(), p.value, q.Placeholder(), d);
    SubstituteSprings(rules, p, q, d);
    var u, z := SprungHolds(p.value, q.Placeholder(), d);
    hide Trap, Sprung, LiesOn, Touches, Match, Substitute, ValidName;
    if Substitute(rules, Substitute(rules, s)) == Substitute(rules, s) {
      var m, rest := FirstChange(rules, u, q, z);
      s := m.Placeholder();
      if Substitute(rules, Substitute(rules, s)) == Substitute(rules, s) {
        s := SomeTextBecomes(rules, m, rest);
        BecomesValue(rules, m);
      }
    }
  }

  lemma BecomesValue(rules: seq<Rule>, m: Rule)
    requires ValidRules(rules) && m in rules
    ensures Substitute(rules, m.Placeholder()) == m.value
  {
    SubstituteFirst(rules, m, "");
    assert m.Placeholder() + "" == m.Placeholder() && m.value + "" == m.value;
  }
}
