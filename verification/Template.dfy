/** When the replacements in a role's prompt are one substitution, commute, and can be repeated. */
module Template {
  import opened Substitution

  /** If all rules but the last are orderly: exactly when replacing one after the other is one pass on
      every prompt. */
  lemma LastRuleIff(front: seq<Rule>, last: Rule)
    requires ValidRules(front + [last]) && Orderly(front)
    ensures (forall s :: Sequential(front + [last], s) == Substitute(front + [last], s)) <==>
      (last.value == last.Placeholder() || AllClear(front, last.Placeholder()))
  {
    var rules, q := front + [last], last.Placeholder();
    assert rules[..|rules| - 1] == front && rules[|rules| - 1] == last && last in rules;
    assert forall r :: r in front ==> r in rules;
    assert ValidRules(front);
    if last.value == q || AllClear(front, q) {
      forall s
        ensures Sequential(rules, s) == Substitute(rules, s)
      {
        SequentialIsSimultaneous(front, s);
        if last.value == q {
          ReplaceBySelf(Substitute(front, s), q);
          OneIdleRule(front, last, s);
        } else {
          OneMoreRule(front, last, s);
        }
      }
    } else {
      var r :| r in front && Touches(r.value, q);
      var d :| -|r.value| < d < |q| && LiesOn(r.value, q, d);
      var s := Trap(r.Placeholder(), r.value, q, d);
      SubstituteSprings(rules, r, last, d);
      SubstituteSprings(front, r, last, d);
      SequentialIsSimultaneous(front, s);
      var u, z := SprungHolds(r.value, q, d);
      ReplaceChanges(u, z, last);
      assert Sequential(rules, s) != Substitute(rules, s);
    }
  }

  /** Every order of the replacements gives the same text for every prompt, if and only if no value touches
      the placeholder of another rule that does not stand for itself. */
  lemma OrderDoesNotMatterIff(rules: seq<Rule>)
    requires ValidRules(rules)
    ensures (forall order, s :: SameRules(rules, order) ==> Sequential(order, s) == Sequential(rules, s))
      <==> OrderlyBothWays(rules)
  {
    if OrderlyBothWays(rules) {
      forall order, s | SameRules(rules, order)
        ensures Sequential(order, s) == Sequential(rules, s)
      {
        OrderDoesNotMatter(rules, order, s);
      }
    } else {
      var p, q :| p in rules && q in rules && p != q && q.value != q.Placeholder() && Touches(p.value, q.Placeholder());
      var others := SplitPair(rules, p, q);
      hide SameRules, ValidName, Touches;
      OrderShows(others, p, q);
    }
  }

  /** Substituting again changes nothing for any prompt, if and only if no value touches a placeholder,
      not even its own, that does not stand for itself. */
  lemma SecondTimeIff(rules: seq<Rule>)
    requires ValidRules(rules)
    ensures (forall s :: Substitute(rules, Substitute(rules, s)) == Substitute(rules, s)) <==> Undisturbed(rules)
  {
    if Undisturbed(rules) {
      ActiveIsValid(rules);
      forall s
        ensures Substitute(rules, Substitute(rules, s)) == Substitute(rules, s)
      {
        IdleRulesDoNothing(rules, s);
        IdleRulesDoNothing(rules, Substitute(rules, s));
        hide Active, Touches, Substitute;
        SecondTimeChangesNothing(Active(rules), s);
      }
    } else {
      var p, q :| p in rules && q in rules && !IsIdle(q) && Touches(p.value, q.Placeholder());
      hide Substitute, Touches, ValidName;
      var s := SecondTimeShows(rules, p, q);
    }
  }

  // Values that are easily seen to be harmless ------------------------------------------------------

  lemma InertTouchesNothing(value: string, rule: Rule)
    requires Inert(value) && ValidName(rule.name)
    ensures !Touches(value, rule.Placeholder())
  {
    var q, n := rule.Placeholder(), |rule.name|;
    assert forall i :: 2 <= i < n + 2 ==> q[i] == rule.name[i - 2] && rule.name[i - 2] in rule.name;
    forall d | -|value| < d < |q|
      ensures !LiesOn(value, q, d)
    {
      if d < 0 {
        assert value[-d] in value && value[-d] != q[d + -d];
      } else if d + |value| >= |q| {
        var i := |q| - 1 - d;
        assert value[i] in value && value[i] != q[d + i];
      } else {
        var c :| c in value && !IsNameChar(c);
        var i :| 0 <= i < |value| && value[i] == c;
        assert value[i] != q[d + i];
      }
    }
  }

  /** The simple kind is not the only one: a value with a brace in it can be harmless too. */
  lemma HarmlessBrace(rule: Rule)
    requires ValidName(rule.name)
    ensures !Inert("a{b") && !Touches("a{b", rule.Placeholder())
  {
    var v, q, n := "a{b", rule.Placeholder(), |rule.name|;
    assert v[1] == '{' && IsBrace('{') && '{' in v;
    assert forall i :: 2 <= i < n + 2 ==> q[i] == rule.name[i - 2] && rule.name[i - 2] in rule.name;
    forall d | -|v| < d < |q|
      ensures !LiesOn(v, q, d)
    {
      assert d >= 0 ==> v[0] == 'a' != q[d + 0];
      assert d < 0 ==> v[2] == 'b' != q[d + 2];
    }
  }
}
