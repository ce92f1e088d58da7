/** How a path is read: joined to a directory and cleaned, which gives the file it
    names, or made relative to the directory again. Directories are absolute paths,
    given by their names. */
module Paths {

  function SplitSlash(path: string): (names: seq<string>)
    ensures names != []
  {
    if path == "" then [""]
    else if path[0] == '/' then [""] + SplitSlash(path[1..])
    else
      var rest := SplitSlash(path[1..]);
      [[path[0]] + rest[0]] + rest[1..]
  }

  function JoinSlash(names: seq<string>): string {
    if names == [] then ""
    else if |names| == 1 then names[0]
    else names[0] + "/" + JoinSlash(names[1..])
  }

  /** One name after a clean absolute path. */
  function Enter(dir: seq<string>, name: string): seq<string> {
    if name == "" || name == "." then dir
    else if name == ".." then if dir == [] then [] else dir[..|dir| - 1]
    else dir + [name]
  }

  /** The clean absolute path reached from a directory by the names. */
  function Walk(dir: seq<string>, names: seq<string>): seq<string>
    decreases |names|
  {
    if names == [] then dir else Walk(Enter(dir, names[0]), names[1..])
  }

  function Ups(n: nat): seq<string> {
    if n == 0 then [] else [".."] + Ups(n - 1)
  }

  /** The target from the base: down from their common part, or up first. */
  function Relative(from: seq<string>, target: seq<string>): seq<string> {
    if from != [] && target != [] && from[0] == target[0] then Relative(from[1..], target[1..])
    else Ups(|from|) + target
  }

  /** The path under which the walk would meet the file that the given path means. */
  function Resolve(root: seq<string>, given: string): string {
    var names := Relative(root, Walk(root, SplitSlash(given)));
    if names == [] then "." else JoinSlash(names)
  }

  predicate Name(s: string) {
    s != "" && s != "." && s != ".." && '/' !in s
  }

  predicate Names(names: seq<string>) {
    forall k :: 0 <= k < |names| ==> Name(names[k])
  }

  lemma {:induction false} SplitName(name: string)
    requires '/' !in name
    ensures SplitSlash(name) == [name]
  {
    if name != "" {
      SplitName(name[1..]);
      assert [name[0]] + name[1..] == name;
    }
  }

  lemma {:induction false} SplitAtSlash(name: string, rest: string)
    requires '/' !in name
    ensures SplitSlash(name + "/" + rest) == [name] + SplitSlash(rest)
  {
    var path := name + "/" + rest;
    if name == "" {
      assert path[1..] == rest;
    } else {
      SplitAtSlash(name[1..], rest);
      assert path[1..] == name[1..] + "/" + rest && path[0] == name[0];
      var names := [name[1..]] + SplitSlash(rest);
      assert names[0] == name[1..] && names[1..] == SplitSlash(rest);
      assert [name[0]] + name[1..] == name;
    }
  }

  lemma {:induction false} SplitJoinSlash(names: seq<string>)
    requires names != [] && Names(names)
    ensures SplitSlash(JoinSlash(names)) == names
  {
    SplitName(names[0]);
    if |names| > 1 {
      SplitJoinSlash(names[1..]);
      SplitAtSlash(names[0], JoinSlash(names[1..]));
    }
  }

  lemma {:induction false} WalkDown(dir: seq<string>, names: seq<string>)
    requires Names(names)
    ensures Walk(dir, names) == dir + names
    decreases |names|
  {
    if names == [] {
      assert dir + names == dir;
    } else {
      assert Name(names[0]);
      WalkDown(dir + [names[0]], names[1..]);
      assert dir + [names[0]] + names[1..] == dir + names;
    }
  }

  lemma {:induction false} RelativeDown(root: seq<string>, names: seq<string>)
    ensures Relative(root, root + names) == names
  {
    if root == [] {
      assert root + names == names;
      assert Ups(0) + names == names;
    } else {
      assert (root + names)[1..] == root[1..] + names;
      RelativeDown(root[1..], names);
    }
  }

  /** A path of plain names means itself, whatever the root. */
  lemma CleanPathStays(root: seq<string>, names: seq<string>)
    requires names != [] && Names(names)
    ensures Resolve(root, JoinSlash(names)) == JoinSlash(names)
  {
    SplitJoinSlash(names);
    WalkDown(root, names);
    RelativeDown(root, names);
  }

  lemma DotWalk(dir: seq<string>, names: seq<string>)
    requires names != [] && Names(names)
    ensures Walk(dir, SplitSlash("./" + JoinSlash(names))) == dir + names
  {
    var rest := JoinSlash(names);
    SplitAtSlash(".", rest);
    assert "./" + rest == "." + "/" + rest;
    SplitJoinSlash(names);
    assert (["."] + names)[1..] == names;
    assert Walk(dir, ["."] + names) == Walk(dir, names);
    WalkDown(dir, names);
  }

  /** A leading "./" is dropped. */
  lemma DotIsDropped(root: seq<string>, names: seq<string>)
    requires names != [] && Names(names)
    ensures Resolve(root, "./" + JoinSlash(names)) == JoinSlash(names)
  {
    DotWalk(root, names);
    RelativeDown(root, names);
  }

  // ---------------------------------------------------------- absolute files

  /** The file a path names in a working directory: the path itself if it is absolute. */
  function Absolute(wd: seq<string>, given: string): string {
    var from := if given != "" && given[0] == '/' then [] else wd;
    "/" + JoinSlash(Walk(from, SplitSlash(given)))
  }

  lemma JoinedStart(names: seq<string>)
    requires names != [] && Names(names)
    ensures JoinSlash(names) != "" && JoinSlash(names)[0] == names[0][0] && names[0][0] != '/'
  {
    assert Name(names[0]);
  }

  /** A plain relative path names the file below the working directory. */
  lemma PlainAbsolute(wd: seq<string>, names: seq<string>)
    requires names != [] && Names(names)
    ensures Absolute(wd, JoinSlash(names)) == "/" + JoinSlash(wd + names)
  {
    JoinedStart(names);
    SplitJoinSlash(names);
    WalkDown(wd, names);
  }

  /** A leading "./" makes no difference. */
  lemma DotAbsolute(wd: seq<string>, names: seq<string>)
    requires names != [] && Names(names)
    ensures Absolute(wd, "./" + JoinSlash(names)) == Absolute(wd, JoinSlash(names))
  {
    PlainAbsolute(wd, names);
    DotWalk(wd, names);
  }

  /** An absolute path is read from the top, whatever the working directory. */
  lemma AbsoluteStays(wd: seq<string>, names: seq<string>)
    requires names != [] && Names(names)
    ensures Absolute(wd, "/" + JoinSlash(names)) == "/" + JoinSlash(names)
  {
    var given := "/" + JoinSlash(names);
    assert given[1..] == JoinSlash(names);
    SplitJoinSlash(names);
    assert ([""] + names)[1..] == names;
    assert Walk([], [""] + names) == Walk([], names);
    WalkDown([], names);
    assert [] + names == names;
  }

  lemma {:induction false} WalkJoins(dir: seq<string>, a: seq<string>, b: seq<string>)
    ensures Walk(dir, a + b) == Walk(Walk(dir, a), b)
    decreases |a|
  {
    if a == [] {
      assert a + b == b;
    } else {
      assert (a + b)[1..] == a[1..] + b;
      WalkJoins(Enter(dir, a[0]), a[1..], b);
    }
  }

  lemma UpWalk(dir: seq<string>, name: string, rest: string)
    requires Name(name)
    ensures Walk(dir, SplitSlash(name + "/../" + rest)) == Walk(dir, SplitSlash(rest))
  {
    SplitAtSlash("..", rest);
    SplitAtSlash(name, ".." + "/" + rest);
    assert name + "/../" + rest == name + "/" + (".." + "/" + rest);
    var down := [name] + ([".."] + SplitSlash(rest));
    assert down[1..][1..] == SplitSlash(rest);
    assert (dir + [name])[..|dir|] == dir;
    assert Walk(dir, down) == Walk(Enter(Enter(dir, name), ".."), SplitSlash(rest));
  }

  /** A name and ".." after it are dropped. */
  lemma UpCancels(root: seq<string>, name: string, rest: string)
    requires Name(name)
    ensures Resolve(root, name + "/../" + rest) == Resolve(root, rest)
  {
    UpWalk(root, name, rest);
  }

  /** At the top there is nothing above. */
  lemma TopIsTop(rest: string)
    ensures Walk([], SplitSlash("../" + rest)) == Walk([], SplitSlash(rest))
  {
    SplitAtSlash("..", rest);
    assert "../" + rest == ".." + "/" + rest;
    assert ([".."] + SplitSlash(rest))[1..] == SplitSlash(rest);
  }

  lemma {:induction false} UpsClimb(dir: seq<string>, n: nat)
    requires n <= |dir|
    ensures Walk(dir, Ups(n)) == dir[..|dir| - n]
    decreases n
  {
    if n > 0 {
      UpsClimb(dir[..|dir| - 1], n - 1);
      assert ([".."] + Ups(n - 1))[1..] == Ups(n - 1);
    }
  }

  /** The relative path leads from the base to the target. */
  lemma {:induction false} RelativeLeads(above: seq<string>, from: seq<string>, target: seq<string>)
    requires Names(target)
    ensures Walk(above + from, Relative(from, target)) == above + target
    decreases |from|
  {
    if from != [] && target != [] && from[0] == target[0] {
      RelativeLeads(above + [from[0]], from[1..], target[1..]);
      assert above + [from[0]] + from[1..] == above + from;
      assert above + [from[0]] + target[1..] == above + target;
    } else {
      WalkJoins(above + from, Ups(|from|), target);
      UpsClimb(above + from, |from|);
      assert (above + from)[..|above|] == above;
      WalkDown(above, target);
    }
  }

  lemma {:induction false} WalkIsClean(dir: seq<string>, names: seq<string>)
    requires Names(dir) && forall k :: 0 <= k < |names| ==> '/' !in names[k]
    ensures Names(Walk(dir, names))
    decreases |names|
  {
    if names != [] {
      WalkIsClean(Enter(dir, names[0]), names[1..]);
    }
  }

  lemma {:induction false} SplitHasNoSlash(path: string)
    ensures forall k :: 0 <= k < |SplitSlash(path)| ==> '/' !in SplitSlash(path)[k]
  {
    if path != "" {
      SplitHasNoSlash(path[1..]);
    }
  }

  /** The steps of a relative path: names and "..". */
  predicate Steps(names: seq<string>) {
    forall k :: 0 <= k < |names| ==> names[k] != "" && '/' !in names[k]
  }

  lemma {:induction false} RelativeSteps(from: seq<string>, target: seq<string>)
    requires Names(target)
    ensures Steps(Relative(from, target))
  {
    if from != [] && target != [] && from[0] == target[0] {
      RelativeSteps(from[1..], target[1..]);
    } else {
      UpsAreSteps(|from|);
    }
  }

  lemma {:induction false} UpsAreSteps(n: nat)
    ensures Steps(Ups(n))
  {
    if n > 0 {
      UpsAreSteps(n - 1);
    }
  }

  lemma {:induction false} SplitJoinSteps(names: seq<string>)
    requires names != [] && Steps(names)
    ensures SplitSlash(JoinSlash(names)) == names && JoinSlash(names) != "" && JoinSlash(names)[0] != '/'
  {
    SplitName(names[0]);
    assert names[0] != "" && '/' !in names[0];
    if |names| > 1 {
      SplitJoinSteps(names[1..]);
      SplitAtSlash(names[0], JoinSlash(names[1..]));
    }
  }

  /** The path that a given relative path resolves to names the same file. */
  lemma ResolveNamesTheSameFile(root: seq<string>, given: string)
    requires Names(root) && (given == "" || given[0] != '/')
    ensures Absolute(root, Resolve(root, given)) == Absolute(root, given)
  {
    var target := Walk(root, SplitSlash(given));
    SplitHasNoSlash(given);
    WalkIsClean(root, SplitSlash(given));
    var names := Relative(root, target);
    RelativeLeads([], root, target);
    assert [] + root == root && [] + target == target;
    if names == [] {
      SplitName(".");
      assert Walk(root, ["."]) == root;
    } else {
      RelativeSteps(root, target);
      SplitJoinSteps(names);
    }
  }

  /** Clean absolute paths of different names differ. */
  lemma AbsoluteIsOne(a: seq<string>, b: seq<string>)
    requires Names(a) && Names(b) && a != [] && b != []
    ensures "/" + JoinSlash(a) == "/" + JoinSlash(b) <==> a == b
  {
    SplitJoinSlash(a);
    SplitJoinSlash(b);
    assert ("/" + JoinSlash(a))[1..] == JoinSlash(a) && ("/" + JoinSlash(b))[1..] == JoinSlash(b);
  }
}
