/** Path cleaning and the check that guards every role and file name. */
module Paths {
  import opened Text

  /** Components, counted from the root of the file system. */
  type Path = seq<string>

  predicate Normal(part: string) {
    part != "" && part != "." && part != ".." && '/' !in part
  }

  ghost predicate NormalPath(p: Path) {
    forall part :: part in p ==> Normal(part)
  }

  function Parent(p: Path): Path
    requires p != []
  {
    p[..|p| - 1]
  }

  // filepath.Clean as a stack machine over components --------------------------

  function Push(rooted: bool, stack: Path, part: string): Path {
    if part == "" || part == "." then stack
    else if part != ".." then stack + [part]
    else if stack != [] && stack[|stack| - 1] != ".." then Parent(stack)
    else if rooted then stack
    else stack + [".."]
  }

  function CleanParts(rooted: bool, stack: Path, parts: seq<string>): Path
    decreases |parts|
  {
    if parts == [] then stack else CleanParts(rooted, Push(rooted, stack, parts[0]), parts[1..])
  }

  predicate Rooted(s: string) { s != "" && s[0] == '/' }

  function Clean(s: string): string {
    var parts := CleanParts(Rooted(s), [], Split(s));
    if Rooted(s) then "/" + Join(parts) else if parts == [] then "." else Join(parts)
  }

  /** validatePath: neither absolute nor with a parent component once cleaned. */
  predicate Accepted(name: string) {
    var cleaned := Clean(name);
    !Rooted(cleaned) && ".." !in Split(cleaned)
  }

  /** The cleaned components of a relative name. */
  function Rel(name: string): Path {
    CleanParts(false, [], Split(name))
  }

  /** filepath.Join of an absolute directory and a name. */
  function JoinPath(dir: Path, name: string): Path {
    CleanParts(true, [], Split("/" + Join(dir) + "/" + name))
  }

  /** Reading the components left to right from `depth` levels down, one never climbs above level 0. */
  predicate NeverClimbsOut(parts: seq<string>, depth: nat) {
    parts == [] ||
    (if parts[0] == "" || parts[0] == "." then NeverClimbsOut(parts[1..], depth)
     else if parts[0] == ".." then depth > 0 && NeverClimbsOut(parts[1..], depth - 1)
     else NeverClimbsOut(parts[1..], depth + 1))
  }

  lemma {:induction false} CleanSplits(rooted: bool, stack: Path, x: seq<string>, y: seq<string>)
    ensures CleanParts(rooted, stack, x + y) == CleanParts(rooted, CleanParts(rooted, stack, x), y)
    decreases |x|
  {
    if x == [] {
      assert x + y == y;
    } else {
      assert (x + y)[0] == x[0] && (x + y)[1..] == x[1..] + y;
      CleanSplits(rooted, Push(rooted, stack, x[0]), x[1..], y);
    }
  }

  lemma {:induction false} CleanNormal(rooted: bool, stack: Path, parts: Path)
    requires NormalPath(parts)
    ensures CleanParts(rooted, stack, parts) == stack + parts
    decreases |parts|
  {
    if parts != [] {
      assert parts[0] in parts;
      CleanNormal(rooted, stack + [parts[0]], parts[1..]);
      assert stack + [parts[0]] + parts[1..] == stack + parts;
    } else {
      assert stack + parts == stack;
    }
  }

  /** A name that never climbs out cleans to normal components, and cleans alike below any directory. */
  lemma {:induction false} CleanInside(dir: Path, stack: Path, parts: seq<string>)
    requires NormalPath(stack) && NeverClimbsOut(parts, |stack|)
    requires forall part :: part in parts ==> '/' !in part
    ensures NormalPath(CleanParts(false, stack, parts))
    ensures CleanParts(true, dir + stack, parts) == dir + CleanParts(false, stack, parts)
    decreases |parts|
  {
    if parts != [] {
      var next := Push(false, stack, parts[0]);
      if parts[0] == ".." {
        assert stack[|stack| - 1] in stack;
        assert Parent(dir + stack) == dir + Parent(stack);
      } else {
        assert (dir + stack) + [parts[0]] == dir + (stack + [parts[0]]);
      }
      assert Push(true, dir + stack, parts[0]) == dir + next;
      CleanInside(dir, next, parts[1..]);
    }
  }

  /** Once a parent component is at the bottom of the stack it stays there. */
  lemma {:induction false} CleanKeepsClimb(stack: Path, parts: seq<string>)
    requires stack != [] && stack[0] == ".."
    ensures ".." in CleanParts(false, stack, parts)
    decreases |parts|
  {
    if parts != [] {
      CleanKeepsClimb(Push(false, stack, parts[0]), parts[1..]);
    }
  }

  lemma {:induction false} CleanOutside(stack: Path, parts: seq<string>)
    requires NormalPath(stack) && !NeverClimbsOut(parts, |stack|)
    requires forall part :: part in parts ==> '/' !in part
    ensures ".." in CleanParts(false, stack, parts)
    decreases |parts|
  {
    assert stack != [] ==> stack[|stack| - 1] in stack;
    assert parts[0] in parts;
    if parts[0] == ".." && stack == [] {
      assert Push(false, stack, parts[0]) == [".."];
      CleanKeepsClimb([".."], parts[1..]);
    } else {
      CleanOutside(Push(false, stack, parts[0]), parts[1..]);
    }
  }

  /** Cleaned components of a relative name hold no slash and are never empty. */
  lemma {:induction false} CleanHasNoSlash(stack: Path, parts: seq<string>)
    requires forall part :: part in stack ==> '/' !in part && part != ""
    requires forall part :: part in parts ==> '/' !in part
    ensures forall part :: part in CleanParts(false, stack, parts) ==> '/' !in part && part != ""
    decreases |parts|
  {
    if parts != [] {
      CleanHasNoSlash(Push(false, stack, parts[0]), parts[1..]);
    }
  }

  /** Exactly which names the check lets through. */
  lemma AcceptedIff(name: string)
    ensures Accepted(name) <==> !Rooted(name) && NeverClimbsOut(Split(name), 0)
  {
    var parts := Rel(name);
    if !Rooted(name) {
      CleanHasNoSlash([], Split(name));
      if parts == [] {
        assert Split(".") == ["."];
      } else {
        SplitJoin(parts);
        assert Clean(name) == Join(parts);
        assert parts[0] in parts;
        assert Join(parts)[0] == parts[0][0] && parts[0][0] in parts[0];
      }
      assert Accepted(name) <==> ".." !in parts;
      if NeverClimbsOut(Split(name), 0) {
        CleanInside([], [], Split(name));
      } else {
        CleanOutside([], Split(name));
      }
    }
  }

  /** The cleaned join of an accepted name stays under the directory it is joined to. */
  lemma JoinStaysUnder(dir: Path, name: string)
    requires NormalPath(dir) && Accepted(name)
    ensures NormalPath(Rel(name)) && NormalPath(JoinPath(dir, name))
    ensures JoinPath(dir, name) == dir + Rel(name)
  {
    AcceptedIff(name);
    var head := "/" + Join(dir);
    SplitAcross(head, name);
    CleanSplits(true, [], Split(head), Split(name));
    assert CleanParts(true, [], Split(head)) == dir by {
      assert head[1..] == Join(dir);
      assert Split(head) == [""] + Split(Join(dir));
      assert ([""] + Split(Join(dir)))[1..] == Split(Join(dir));
      if dir == [] {
        assert Split("") == [""];
      } else {
        SplitJoin(dir);
        CleanNormal(true, [], dir);
      }
    }
    assert dir + [] == dir;
    CleanInside(dir, [], Split(name));
  }

  /** A clean relative path printed as a name is accepted and cleans to itself. */
  lemma PrintedNameIsClean(p: Path)
    requires p != [] && NormalPath(p)
    ensures Accepted(Join(p)) && Rel(Join(p)) == p
    ensures Join(p) != "" && !Rooted(Join(p)) && !("./" <= Join(p))
  {
    var name, first := Join(p), p[0];
    assert first in p && first[0] in first && name[0] == first[0];
    assert |first| == 1 ==> first == [first[0]];
    assert |first| > 1 ==> first[1] in first && name[1] == first[1];
    SplitJoin(p);
    NormalNeverClimbs(p, 0);
    AcceptedIff(Join(p));
    CleanNormal(false, [], p);
    hide Accepted, NeverClimbsOut, Split, Join, CleanParts;
    assert [] + p == p;
  }

  lemma {:induction false} NormalNeverClimbs(p: Path, depth: nat)
    requires NormalPath(p)
    ensures NeverClimbsOut(p, depth)
    decreases |p|
  {
    if p != [] {
      assert p[0] in p;
      NormalNeverClimbs(p[1..], depth + 1);
    }
  }
}
