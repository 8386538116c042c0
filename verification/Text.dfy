/** Strings as the source's languages see them: their order, which is total and which sorting by insertion respects,
    splitting and joining at slashes, lower case, and searching for the first place at which a text occurs in
    another one. */
module Text {
  import opened Wrappers

  // Lexicographic order ------------------------------------------------------

  predicate Less(a: string, b: string) {
    if b == "" then false
    else if a == "" then true
    else a[0] < b[0] || (a[0] == b[0] && Less(a[1..], b[1..]))
  }

  lemma {:induction false} LessIsTotal(a: string, b: string)
    ensures Less(a, b) || a == b || Less(b, a)
  {
    if a != "" && b != "" && a[0] == b[0] {
      LessIsTotal(a[1..], b[1..]);
      assert a == [a[0]] + a[1..] && b == [b[0]] + b[1..];
    }
  }

  lemma {:induction false} LessIsTransitive(a: string, b: string, c: string)
    requires Less(a, b) && Less(b, c)
    ensures Less(a, c)
  {
    if a != "" && a[0] == b[0] && b[0] == c[0] {
      LessIsTransitive(a[1..], b[1..], c[1..]);
    }
  }

  lemma {:induction false} LessIsIrreflexive(a: string)
    ensures !Less(a, a)
  {
    if a != "" {
      LessIsIrreflexive(a[1..]);
    }
  }

  lemma LessIsAsymmetric(a: string, b: string)
    requires Less(a, b)
    ensures !Less(b, a)
  {
    if Less(b, a) {
      LessIsTransitive(a, b, a);
      LessIsIrreflexive(a);
    }
  }

  // Sorted lists of distinct names ---------------------------------------------

  ghost predicate StrictlySorted(names: seq<string>) {
    forall i, j :: 0 <= i < j < |names| ==> Less(names[i], names[j])
  }

  /** A strictly sorted list is determined by what it contains. */
  lemma {:induction false} SortedListsAgree(x: seq<string>, y: seq<string>)
    requires StrictlySorted(x) && StrictlySorted(y)
    requires forall n :: n in x <==> n in y
    ensures x == y
    decreases |x|
  {
    assert x != [] ==> x[0] in y;
    assert y != [] ==> y[0] in x;
    if x != [] {
      LessIsAsymmetricUnlessEqual(x[0], y[0]);
      forall n
        ensures n in x[1..] <==> n in y[1..]
      {
        TailMembers(x, n);
        TailMembers(y, n);
      }
      SortedListsAgree(x[1..], y[1..]);
    }
  }

  lemma LessIsAsymmetricUnlessEqual(a: string, b: string)
    requires a == b || Less(b, a)
    requires b == a || Less(a, b)
    ensures a == b
  {
    if a != b {
      LessIsAsymmetric(a, b);
    }
  }

  lemma TailMembers(x: seq<string>, n: string)
    requires StrictlySorted(x) && x != []
    ensures n in x[1..] <==> n in x && n != x[0]
  {
    if n in x[1..] {
      var i :| 0 <= i < |x[1..]| && x[1..][i] == n;
      assert x[i + 1] == n && Less(x[0], n);
      LessIsIrreflexive(n);
    }
    if n in x && n != x[0] {
      var i :| 0 <= i < |x| && x[i] == n;
      assert x[1..][i - 1] == n;
    }
  }

  /** The sorted list of a set of names. */
  ghost function SortedList(names: set<string>): (sorted: seq<string>)
    ensures StrictlySorted(sorted) && forall n :: n in sorted <==> n in names
  {
    if names == {} then []
    else
      var n :| n in names;
      var rest := SortedList(names - {n});
      var i := PlaceOf(rest, n);
      InsertKeepsOrder(rest, i, n);
      rest[..i] + [n] + rest[i..]
  }

  function PlaceOf(sorted: seq<string>, name: string): (i: nat)
    ensures i <= |sorted|
    ensures forall j :: 0 <= j < i ==> Less(sorted[j], name)
    ensures i < |sorted| ==> !Less(sorted[i], name)
  {
    if sorted == [] || !Less(sorted[0], name) then 0 else 1 + PlaceOf(sorted[1..], name)
  }

  /** sort.Strings on a list without repetitions, as an insertion sort. */
  method SortNames(names: seq<string>) returns (sorted: seq<string>)
    requires forall i, j :: 0 <= i < j < |names| ==> names[i] != names[j]
    ensures StrictlySorted(sorted)
    ensures forall n :: n in sorted <==> n in names
    ensures |sorted| == |names|
  {
    sorted := [];
    for k := 0 to |names|
      invariant StrictlySorted(sorted) && |sorted| == k
      invariant forall n :: n in sorted <==> n in names[..k]
    {
      var name := names[k];
      assert name !in names[..k];
      var i := 0;
      while i < |sorted| && Less(sorted[i], name)
        invariant 0 <= i <= |sorted|
        invariant forall j :: 0 <= j < i ==> Less(sorted[j], name)
      {
        i := i + 1;
      }
      InsertKeepsOrder(sorted, i, name);
      sorted := sorted[..i] + [name] + sorted[i..];
      assert names[..k + 1] == names[..k] + [name];
    }
  }

  lemma InsertKeepsOrder(sorted: seq<string>, i: nat, name: string)
    requires StrictlySorted(sorted) && i <= |sorted| && name !in sorted
    requires forall j :: 0 <= j < i ==> Less(sorted[j], name)
    requires i < |sorted| ==> !Less(sorted[i], name)
    ensures StrictlySorted(sorted[..i] + [name] + sorted[i..])
    ensures forall n :: n in sorted[..i] + [name] + sorted[i..] <==> n in sorted || n == name
  {
    forall j | i <= j < |sorted|
      ensures Less(name, sorted[j])
    {
      LessIsTotal(name, sorted[i]);
      if i < j {
        LessIsTransitive(name, sorted[i], sorted[j]);
      }
    }
    assert sorted == sorted[..i] + sorted[i..];
  }

  // Splitting and joining at '/' -------------------------------------------------

  /** strings.Split(s, "/"). */
  function Split(s: string): (parts: seq<string>)
    ensures |parts| >= 1
    ensures forall p :: p in parts ==> '/' !in p
  {
    if s == "" then [""]
    else
      var rest := Split(s[1..]);
      if s[0] == '/' then [""] + rest else [[s[0]] + rest[0]] + rest[1..]
  }

  /** strings.Join(parts, "/"). */
  function Join(parts: seq<string>): string {
    if parts == [] then "" else if |parts| == 1 then parts[0] else parts[0] + "/" + Join(parts[1..])
  }

  lemma {:induction false} SplitJoin(parts: seq<string>)
    requires parts != [] && forall p :: p in parts ==> '/' !in p
    ensures Split(Join(parts)) == parts
    decreases |parts|
  {
    assert parts[0] + "" == parts[0];
    if |parts| == 1 {
      SplitWord(parts[0], "");
    } else {
      SplitJoin(parts[1..]);
      var rest := "/" + Join(parts[1..]);
      assert rest[1..] == Join(parts[1..]);
      assert Split(rest) == [""] + parts[1..];
      SplitWord(parts[0], rest);
      assert Join(parts) == parts[0] + rest;
    }
  }

  lemma {:induction false} JoinSplit(s: string)
    ensures Join(Split(s)) == s
  {
    if s != "" {
      var rest := Split(s[1..]);
      JoinSplit(s[1..]);
      hide Split;
      if s[0] == '/' {
        assert ([""] + rest)[1..] == rest;
        assert Join([""] + rest) == "" + "/" + Join(rest);
      } else {
        JoinGrows(s[0], rest);
      }
    }
  }

  lemma JoinGrows(c: char, parts: seq<string>)
    requires parts != []
    ensures Join([[c] + parts[0]] + parts[1..]) == [c] + Join(parts)
  {
    var grown := [[c] + parts[0]] + parts[1..];
    assert grown[0] == [c] + parts[0] && grown[1..] == parts[1..];
    if |parts| > 1 {
      Assoc([c], parts[0], "/" + Join(parts[1..]));
      Assoc(parts[0], "/", Join(parts[1..]));
      Assoc([c] + parts[0], "/", Join(parts[1..]));
    }
  }

  /** A word without slashes goes in front of the first part. */
  lemma {:induction false} SplitWord(word: string, rest: string)
    requires '/' !in word
    ensures Split(word + rest) == [word + Split(rest)[0]] + Split(rest)[1..]
    decreases |word|
  {
    if word == "" {
      assert word + rest == rest && word + Split(rest)[0] == Split(rest)[0];
    } else {
      assert (word + rest)[0] == word[0] && (word + rest)[1..] == word[1..] + rest;
      SplitWord(word[1..], rest);
      assert [word[0]] + (word[1..] + Split(rest)[0]) == word + Split(rest)[0];
    }
  }

  lemma {:induction false} SplitAcross(a: string, b: string)
    ensures Split(a + "/" + b) == Split(a) + Split(b)
    decreases |a|
  {
    hide Split;
    var s := a + "/" + b;
    SplitStep(s);
    if a == "" {
      assert s[0] == '/' && s[1..] == b;
      SplitNothing();
    } else {
      SplitStep(a);
      SplitAcross(a[1..], b);
      assert s[0] == a[0] && s[1..] == a[1..] + "/" + b;
      var rest := Split(a[1..]);
      assert (rest + Split(b))[0] == rest[0] && (rest + Split(b))[1..] == rest[1..] + Split(b);
    }
  }

  lemma SplitNothing()
    ensures Split("") == [""]
  {}

  lemma SplitStep(s: string)
    requires s != ""
    ensures var rest := Split(s[1..]);
      rest != [] && Split(s) == if s[0] == '/' then [""] + rest else [[s[0]] + rest[0]] + rest[1..]
  {}

  // Lower case ---------------------------------------------------------------------

  /** The Kelvin sign and the dotted capital I are the only letters outside ASCII with a lower case in it;
      the other ones are left as they are, which no comparison with an ASCII text can tell. */
  function Lower(c: char): char {
    if 'A' <= c <= 'Z' then (c as int + 32) as char
    else if c == '\U{212A}' then 'k'
    else if c == '\U{130}' then 'i'
    else c
  }

  function ToLower(s: string): (t: string)
    ensures |t| == |s| && forall i :: 0 <= i < |s| ==> t[i] == Lower(s[i])
  {
    seq(|s|, i requires 0 <= i < |s| => Lower(s[i]))
  }

  // Searching ----------------------------------------------------------------------

  predicate OccursAt(s: string, target: string, i: nat) {
    i + |target| <= |s| && s[i..i + |target|] == target
  }

  lemma OccursAtIff(s: string, target: string, i: nat)
    requires i <= |s|
    ensures OccursAt(s, target, i) <==> target <= s[i..]
  {
    if OccursAt(s, target, i) {
      assert s[i..][..|target|] == s[i..i + |target|];
    }
  }

  /** The first place from `k` on at which `target` occurs in `s`. */
  function Find(s: string, target: string, k: nat): (at: Option<nat>)
    ensures at.Some? ==> k <= at.value && OccursAt(s, target, at.value)
    ensures at.Some? ==> forall i :: k <= i < at.value ==> !OccursAt(s, target, i)
    ensures at.None? ==> forall i :: k <= i ==> !OccursAt(s, target, i)
    decreases |s| - k
  {
    if k + |target| > |s| then None
    else if OccursAt(s, target, k) then Some(k)
    else Find(s, target, k + 1)
  }

  lemma Assoc<T>(a: seq<T>, b: seq<T>, c: seq<T>)
    ensures (a + b) + c == a + (b + c)
  {}
}
