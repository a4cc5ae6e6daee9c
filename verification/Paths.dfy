/** Go's path.Join and path.Clean, by their documented rules on the elements between slashes. */
module Paths {

  predicate SlashFree(s: string) { '/' !in s }

  /** The elements between slashes. */
  function Split(s: string): (levels: seq<string>)
    ensures |levels| > 0 && forall k :: 0 <= k < |levels| ==> SlashFree(levels[k])
    decreases |s|
  {
    if s == "" then [""]
    else
      var rest := Split(s[1..]);
      if s[0] == '/' then [""] + rest
      else [[s[0]] + rest[0]] + rest[1..]
  }

  /** The elements with a slash between any two. */
  function Glue(levels: seq<string>): string
    decreases |levels|
  {
    if levels == [] then ""
    else if |levels| == 1 then levels[0]
    else levels[0] + "/" + Glue(levels[1..])
  }

  /** One element of a path, given the cleaned elements before it. */
  function CleanStep(rooted: bool, stack: seq<string>, level: string): seq<string> {
    if level == "" || level == "." then stack
    else if level == ".." then
      if stack != [] && stack[|stack| - 1] != ".." then stack[..|stack| - 1]
      else if rooted then stack
      else stack + [".."]
    else stack + [level]
  }

  function CleanLevels(rooted: bool, stack: seq<string>, levels: seq<string>): seq<string>
    decreases |levels|
  {
    if levels == [] then stack
    else CleanLevels(rooted, CleanStep(rooted, stack, levels[0]), levels[1..])
  }

  predicate Rooted(s: string) { s != "" && s[0] == '/' }

  /** The elements that are left of a path. */
  function Stack(s: string): seq<string> {
    CleanLevels(Rooted(s), [], Split(s))
  }

  function Render(rooted: bool, stack: seq<string>): string {
    if rooted then "/" + Glue(stack)
    else if stack == [] then "."
    else Glue(stack)
  }

  function Clean(s: string): string {
    Render(Rooted(s), Stack(s))
  }

  /** The elements joined by slashes, leading empty ones skipped. */
  function Raw(buf: string, elements: seq<string>): string
    decreases |elements|
  {
    if elements == [] then buf
    else Raw(if buf == "" then elements[0] else buf + "/" + elements[0], elements[1..])
  }

  function Join(elements: seq<string>): string {
    var raw := Raw("", elements);
    if raw == "" then "" else Clean(raw)
  }

  // ---- Properties ------------------------------------------------------------------------------------------------

  /** An element that cleaning keeps. */
  predicate Plain(level: string) {
    level != "" && level != "." && level != ".." && SlashFree(level)
  }

  lemma {:induction false} SplitSlashFree(s: string)
    requires SlashFree(s)
    ensures Split(s) == [s]
    decreases |s|
  {
    if s != "" {
      SplitSlashFree(s[1..]);
      assert [s[0]] + s[1..] == s;
    }
  }

  lemma {:induction false} SplitAppend(a: string, b: string)
    ensures Split(a + "/" + b) == Split(a) + Split(b)
    decreases |a|
  {
    if a == "" {
      assert ("" + "/" + b)[1..] == b;
    } else {
      assert (a + "/" + b)[1..] == a[1..] + "/" + b;
      SplitAppend(a[1..], b);
    }
  }

  lemma {:induction false} CleanAppend(rooted: bool, stack: seq<string>, a: seq<string>, b: seq<string>)
    ensures CleanLevels(rooted, stack, a + b) == CleanLevels(rooted, CleanLevels(rooted, stack, a), b)
    decreases |a|
  {
    if a == [] {
      assert a + b == b;
    } else {
      assert (a + b)[1..] == a[1..] + b;
      CleanAppend(rooted, CleanStep(rooted, stack, a[0]), a[1..], b);
    }
  }

  /** What is left of a path has no slash and no empty element. */
  predicate Solid(stack: seq<string>) {
    forall k :: 0 <= k < |stack| ==> stack[k] != "" && SlashFree(stack[k])
  }

  lemma {:induction false} CleanLevelsSolid(rooted: bool, stack: seq<string>, levels: seq<string>)
    requires Solid(stack) && forall k :: 0 <= k < |levels| ==> SlashFree(levels[k])
    ensures Solid(CleanLevels(rooted, stack, levels))
    ensures forall x :: x in CleanLevels(rooted, stack, levels) ==> x in stack || x in levels
    decreases |levels|
  {
    if levels != [] {
      var next := CleanStep(rooted, stack, levels[0]);
      assert forall x :: x in next ==> x in stack || x == levels[0];
      assert forall k :: 0 <= k < |levels[1..]| ==> levels[1..][k] == levels[k + 1];
      CleanLevelsSolid(rooted, next, levels[1..]);
    }
  }

  /** A plain element at the end of a path survives cleaning, and the rest is cleaned as if it were not there. */
  lemma StackPush(s: string, level: string)
    requires s != "" && Plain(level)
    ensures Stack(s + "/" + level) == Stack(s) + [level]
    ensures Rooted(s + "/" + level) == Rooted(s)
  {
    SplitAppend(s, level);
    SplitSlashFree(level);
    CleanAppend(Rooted(s), [], Split(s), [level]);
    var stack := Stack(s);
    assert CleanLevels(Rooted(s), stack, [level]) == CleanLevels(Rooted(s), stack + [level], []);
  }

  lemma {:induction false} GlueAppend(a: seq<string>, b: seq<string>)
    requires a != [] && b != []
    ensures Glue(a + b) == Glue(a) + "/" + Glue(b)
    decreases |a|
  {
    if |a| == 1 {
      assert (a + b)[1..] == b;
    } else {
      assert (a + b)[1..] == a[1..] + b;
      GlueAppend(a[1..], b);
    }
  }

  lemma {:induction false} SplitGlue(levels: seq<string>)
    requires levels != [] && forall k :: 0 <= k < |levels| ==> SlashFree(levels[k])
    ensures Split(Glue(levels)) == levels
    decreases |levels|
  {
    SplitSlashFree(levels[0]);
    if |levels| > 1 {
      SplitGlue(levels[1..]);
      SplitAppend(levels[0], Glue(levels[1..]));
    }
  }

  /** A rendered path splits into the elements it was rendered from, after an empty one if it is rooted. */
  lemma SplitRender(rooted: bool, stack: seq<string>)
    requires Solid(stack) && stack != []
    ensures Split(Render(rooted, stack)) == (if rooted then [""] else []) + stack
  {
    SplitGlue(stack);
    if rooted {
      SplitAppend("", Glue(stack));
      assert "" + "/" + Glue(stack) == "/" + Glue(stack);
    }
  }

  function RootLevels(rooted: bool): seq<string> { if rooted then [""] else [] }

  lemma SplitOfRender(rooted: bool, stack: seq<string>)
    requires Solid(stack)
    ensures Split(Render(rooted, stack)) ==
      if stack != [] then RootLevels(rooted) + stack else if rooted then ["", ""] else ["."]
  {
    if stack != [] {
      SplitRender(rooted, stack);
    } else if rooted {
      SplitAppend("", "");
      assert "" + "/" + "" == "/";
    } else {
      SplitSlashFree(".");
    }
  }

  // ---- The documented result of cleaning -------------------------------------------------------------------------

  /** Only plain elements are left, and parent elements at the front of a path that is not rooted. */
  predicate Normal(rooted: bool, stack: seq<string>) {
    forall k :: 0 <= k < |stack| ==>
      Plain(stack[k]) || (stack[k] == ".." && !rooted && forall j :: 0 <= j < k ==> stack[j] == "..")
  }

  lemma CleanStepNormal(rooted: bool, stack: seq<string>, level: string)
    requires Normal(rooted, stack) && SlashFree(level)
    ensures Normal(rooted, CleanStep(rooted, stack, level))
  {
    var next := CleanStep(rooted, stack, level);
    if stack != [] && stack[|stack| - 1] == ".." {
      assert forall j :: 0 <= j < |stack| ==> stack[j] == "..";
    }
    assert forall k :: 0 <= k < |next| && k < |stack| ==> next[k] == stack[k];
  }

  lemma {:induction false} CleanLevelsNormal(rooted: bool, stack: seq<string>, levels: seq<string>)
    requires Normal(rooted, stack) && forall k :: 0 <= k < |levels| ==> SlashFree(levels[k])
    ensures Normal(rooted, CleanLevels(rooted, stack, levels))
    decreases |levels|
  {
    if levels != [] {
      CleanStepNormal(rooted, stack, levels[0]);
      assert forall k :: 0 <= k < |levels[1..]| ==> levels[1..][k] == levels[k + 1];
      CleanLevelsNormal(rooted, CleanStep(rooted, stack, levels[0]), levels[1..]);
    }
  }

  lemma {:induction false} NormalIsKept(rooted: bool, stack: seq<string>, levels: seq<string>)
    requires Normal(rooted, stack + levels)
    ensures CleanLevels(rooted, stack, levels) == stack + levels
    decreases |levels|
  {
    if levels == [] {
      assert stack + levels == stack;
    } else {
      var all := stack + levels;
      assert all[|stack|] == levels[0];
      assert stack != [] ==> all[|stack| - 1] == stack[|stack| - 1];
      assert CleanStep(rooted, stack, levels[0]) == stack + [levels[0]];
      assert stack + [levels[0]] + levels[1..] == stack + levels;
      NormalIsKept(rooted, stack + [levels[0]], levels[1..]);
    }
  }

  lemma RenderRooted(rooted: bool, stack: seq<string>)
    requires Solid(stack)
    ensures Rooted(Render(rooted, stack)) == rooted
  {
    if stack != [] && !rooted {
      assert Glue(stack)[0] == stack[0][0];
    }
  }

  /** A path to which no rule applies is left as it is, and nothing at all is the current directory. */
  lemma NormalPathStays(rooted: bool, stack: seq<string>)
    requires Normal(rooted, stack)
    ensures Clean(Render(rooted, stack)) == Render(rooted, stack) && Clean("") == "."
  {
    assert Solid(stack);
    RenderRooted(rooted, stack);
    SplitOfRender(rooted, stack);
    assert [] + stack == stack;
    NormalIsKept(rooted, [], stack);
    CleanAppend(rooted, [], RootLevels(rooted), stack);
    assert RootLevels(rooted) == [""] || RootLevels(rooted) == [];
    assert CleanLevels(rooted, [], [""]) == CleanLevels(rooted, [], []);
    assert CleanLevels(false, [], ["."]) == CleanLevels(false, [], []);
    assert CleanLevels(true, [], ["", ""]) == CleanLevels(true, [], [""]);
  }

  /** Cleaning leaves a normal path, and cleaning that again changes nothing. */
  lemma CleanIsNormalAndIdempotent(s: string)
    ensures Normal(Rooted(s), Stack(s))
    ensures Clean(Clean(s)) == Clean(s)
  {
    CleanLevelsNormal(Rooted(s), [], Split(s));
    NormalPathStays(Rooted(s), Stack(s));
  }

  /** A parent element takes back the plain element before it. */
  lemma ParentTakesBack(s: string, level: string)
    requires s != "" && Plain(level)
    ensures Clean(s + "/" + level + "/" + "..") == Clean(s)
  {
    StackPush(s, level);
    var t := s + "/" + level;
    SplitAppend(t, "..");
    SplitSlashFree("..");
    CleanAppend(Rooted(s), [], Split(t), [".."]);
    assert CleanLevels(Rooted(s), Stack(t), [".."]) == CleanLevels(Rooted(s), Stack(s), []);
  }

  lemma SplitThree(a: string, level: string, b: string)
    requires SlashFree(level)
    ensures Split(a + "/" + level + "/" + b) == Split(a) + [level] + Split(b)
    ensures Rooted(a + "/" + level + "/" + b) == Rooted(a + "/" + b)
  {
    SplitAppend(a + "/" + level, b);
    SplitAppend(a, level);
    SplitSlashFree(level);
  }

  /** Leaving out elements that bring the stack back to where it was does not change the result. */
  lemma CleanWithout(a: string, levels: seq<string>, b: string, whole: string)
    requires Split(whole) == Split(a) + levels + Split(b) && Rooted(whole) == Rooted(a + "/" + b)
    requires
      var rooted := Rooted(a + "/" + b);
      var before := CleanLevels(rooted, [], Split(a));
      CleanLevels(rooted, before, levels) == before
    ensures Clean(whole) == Clean(a + "/" + b)
  {
    var rooted := Rooted(a + "/" + b);
    SplitAppend(a, b);
    CleanAppend(rooted, [], Split(a) + levels, Split(b));
    CleanAppend(rooted, [], Split(a), levels);
    CleanAppend(rooted, [], Split(a), Split(b));
  }

  /** Empty elements and "." are left out, wherever they stand. */
  lemma IdleElementsGo(a: string, level: string, b: string)
    requires level == "" || level == "."
    ensures Clean(a + "/" + level + "/" + b) == Clean(a + "/" + b)
  {
    SplitThree(a, level, b);
    CleanWithout(a, [level], b, a + "/" + level + "/" + b);
  }

  /** A plain element and the ".." behind it are left out, wherever they stand. */
  lemma ElementAndParentGo(a: string, level: string, b: string)
    requires Plain(level)
    ensures Clean(a + "/" + level + "/" + ".." + "/" + b) == Clean(a + "/" + b)
  {
    var front := a + "/" + level;
    var whole := front + "/" + ".." + "/" + b;
    SplitThree(front, "..", b);
    SplitAppend(a, level);
    SplitSlashFree(level);
    assert Split(a) + [level] + [".."] + Split(b) == Split(a) + [level, ".."] + Split(b);
    var rooted := Rooted(a + "/" + b);
    var before := CleanLevels(rooted, [], Split(a));
    assert [level, ".."][1..] == [".."];
    assert CleanLevels(rooted, before, [level, ".."]) == CleanLevels(rooted, before + [level], [".."]);
    assert (before + [level])[..|before|] == before;
    assert CleanLevels(rooted, before + [level], [".."]) == CleanLevels(rooted, before, []);
    CleanWithout(a, [level, ".."], b, whole);
  }

  /** A rooted path has no parent above its root. */
  lemma ParentOfRootGoes(b: string)
    ensures Clean("/" + ".." + "/" + b) == Clean("/" + b)
  {
    SplitThree("", "..", b);
    assert "" + "/" + ".." + "/" + b == "/" + ".." + "/" + b && "" + "/" + b == "/" + b;
    assert CleanLevels(true, [], [""]) == CleanLevels(true, [], []);
    assert CleanLevels(true, [], [".."]) == CleanLevels(true, [], []);
    CleanWithout("", [".."], b, "/" + ".." + "/" + b);
  }
}
