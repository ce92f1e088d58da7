/** From a parsed patch to changed files: computing the new contents, and writing
    and removing files one change after another, in no fixed order. */
module PatchCommit {
  import opened Basics
  import opened Text
  import opened PatchModel
  import opened PatchChunks
  import Paths

  datatype FileChange = FileChange(
    kind: ActionType, oldContent: Option<string>, newContent: Option<string>, movePath: Option<string>)

  type Changes = map<string, FileChange>

  function Lookup(files: map<string, string>, path: string): string {
    if path in files then files[path] else ""
  }

  // ---------------------------------------------------------- new contents

  function UpdatedText(text: string, action: PatchAction): Outcome<string> {
    if action.kind != ActionUpdate then Err(NotAnUpdate)
    else
      var lines :- Updated(Split(text), action.chunks);
      Ok(Join(lines))
  }

  method GetUpdatedFile(text: string, action: PatchAction) returns (r: Outcome<string>)
    ensures r == UpdatedText(text, action)
  {
    if action.kind != ActionUpdate {
      return Err(NotAnUpdate);
    }
    var origLines := Split(text);
    var destLines: seq<string> := [];
    var origIndex: nat := 0;
    var k := 0;
    ghost var spec := Splice(origLines, Spliced([], 0), action.chunks);
    assert action.chunks[0..] == action.chunks;
    while k < |action.chunks|
      invariant 0 <= k <= |action.chunks| && origIndex <= |origLines|
      invariant spec == Splice(origLines, Spliced(destLines, origIndex), action.chunks[k..])
    {
      var chunk := action.chunks[k];
      assert action.chunks[k..][0] == chunk && action.chunks[k..][1..] == action.chunks[k + 1..];
      if chunk.origIndex > |origLines| {
        return Err(ChunkPastEnd(chunk.origIndex, |origLines|));
      }
      if origIndex > chunk.origIndex {
        return Err(ChunkBackwards(origIndex, chunk.origIndex));
      }
      destLines := destLines + origLines[origIndex..chunk.origIndex];
      origIndex := chunk.origIndex;
      if |chunk.insLines| > 0 {
        destLines := destLines + chunk.insLines;
      } else {
        assert destLines + chunk.insLines == destLines;
      }
      origIndex := origIndex + |chunk.delLines|;
      if origIndex > |origLines| {
        return Err(DeletesPastEnd(origIndex - |origLines|, |origLines|));
      }
      k := k + 1;
    }
    destLines := destLines + origLines[origIndex..];
    r := Ok(Join(destLines));
  }

  function ChangeOf(path: string, action: PatchAction, orig: map<string, string>): Outcome<FileChange> {
    var old' := Lookup(orig, path);
    match action.kind
    case ActionDelete => Ok(FileChange(ActionDelete, Some(old'), None, None))
    case ActionAdd => Ok(FileChange(ActionAdd, None, action.newFile, None))
    case ActionUpdate =>
      var text :- UpdatedText(old', action);
      Ok(FileChange(ActionUpdate, Some(old'), Some(text), action.movePath))
  }

  /** The commit of a patch: all its changes, or the error of one of its updates. */
  method PatchToCommit(actions: map<string, PatchAction>, orig: map<string, string>) returns (r: Outcome<Changes>)
    ensures r.Ok? <==> forall path :: path in actions ==> ChangeOf(path, actions[path], orig).Ok?
    ensures r.Ok? ==>
      r.value.Keys == actions.Keys
      && forall path :: path in actions ==> ChangeOf(path, actions[path], orig) == Ok(r.value[path])
    ensures r.Ok? ==> forall path :: path in actions ==>
      var change, before := r.value[path], if path in orig then orig[path] else "";
      && change.kind == actions[path].kind
      && change.oldContent == (if change.kind == ActionAdd then None else Some(before))
      && change.movePath == (if change.kind == ActionUpdate then actions[path].movePath else None)
      && (change.kind == ActionAdd ==> change.newContent == actions[path].newFile)
      && (change.kind == ActionUpdate ==> change.newContent.Some?)
      && (change.kind == ActionDelete ==> change.newContent.None?)
    ensures !r.Ok? ==>
      r.Err? && exists path :: path in actions && ChangeOf(path, actions[path], orig) == Err(r.error)
  {
    var changes: Changes := map[];
    var left := actions.Keys;
    while left != {}
      invariant left <= actions.Keys && changes.Keys == actions.Keys - left
      invariant forall path :: path in changes ==> ChangeOf(path, actions[path], orig) == Ok(changes[path])
      decreases left
    {
      var path :| path in left;
      var action := actions[path];
      var before := Lookup(orig, path);
      match action.kind {
        case ActionDelete =>
          changes := changes[path := FileChange(ActionDelete, Some(before), None, None)];
        case ActionAdd =>
          changes := changes[path := FileChange(ActionAdd, None, action.newFile, None)];
        case ActionUpdate =>
          var updated := GetUpdatedFile(before, action);
          if !updated.Ok? {
            return updated.PropagateFailure();
          }
          changes := changes[path := FileChange(ActionUpdate, Some(before), Some(updated.value), action.movePath)];
      }
      left := left - {path};
    }
    r := Ok(changes);
  }

  // ------------------------------------------------------- applying changes

  /** The file that a path names. Two spellings may name one file. */
  type Place = string -> string

  /** The content a change leaves in a file; None where it removes the file. */
  type Effects = map<string, Option<string>>

  predicate HasContent(change: FileChange) {
    change.kind == ActionDelete || change.newContent.Some?
  }

  function EffectsOf(place: Place, path: string, change: FileChange): Effects
    requires HasContent(change)
  {
    if change.kind == ActionDelete then map[place(path) := None]
    else if change.kind == ActionUpdate && change.movePath.Some? then
      map[place(change.movePath.value) := Some(change.newContent.value)][place(path) := None]
    else map[place(path) := Some(change.newContent.value)]
  }

  function At(files: map<string, string>, path: string): Option<string> {
    if path in files then Some(files[path]) else None
  }

  /** Files with some contents set and some files removed. */
  function Overlay(files: map<string, string>, effects: Effects): (r: map<string, string>)
    ensures forall path :: At(r, path) == if path in effects then effects[path] else At(files, path)
  {
    map path | path in files.Keys + effects.Keys && (path in effects ==> effects[path].Some?)
      :: if path in effects then effects[path].value else files[path]
  }

  predicate AllHaveContent(changes: Changes) {
    forall path :: path in changes ==> HasContent(changes[path])
  }

  /** An order in which every change is taken once. */
  ghost predicate Enumerates(order: seq<string>, changes: Changes) {
    && (forall path :: path in order <==> path in changes)
    && (forall j, k :: 0 <= j < k < |order| ==> order[j] != order[k])
  }

  /** All changes in the given order, with every write and removal succeeding. */
  function RunOrder(place: Place, changes: Changes, order: seq<string>, files: map<string, string>): map<string, string>
    requires AllHaveContent(changes) && forall path :: path in order ==> path in changes
  {
    if order == [] then files
    else
      var path := order[|order| - 1];
      Overlay(RunOrder(place, changes, order[..|order| - 1], files), EffectsOf(place, path, changes[path]))
  }

  predicate Touches(place: Place, changes: Changes, path: string, x: string)
    requires AllHaveContent(changes)
  {
    path in changes && x in EffectsOf(place, path, changes[path])
  }

  /** No two changes leave different things in one file. */
  ghost predicate Compatible(place: Place, changes: Changes)
    requires AllHaveContent(changes)
  {
    forall p, q, x :: Touches(place, changes, p, x) && Touches(place, changes, q, x) ==>
      EffectsOf(place, p, changes[p])[x] == EffectsOf(place, q, changes[q])[x]
  }

  lemma {:induction false} RunOrderAt(
    place: Place, changes: Changes, order: seq<string>, files: map<string, string>, x: string)
    requires AllHaveContent(changes) && Compatible(place, changes) && forall path :: path in order ==> path in changes
    ensures forall p :: p in order && Touches(place, changes, p, x) ==>
      At(RunOrder(place, changes, order, files), x) == EffectsOf(place, p, changes[p])[x]
    ensures (forall p :: p in order ==> !Touches(place, changes, p, x)) ==>
      At(RunOrder(place, changes, order, files), x) == At(files, x)
  {
    if order != [] {
      var init, last := order[..|order| - 1], order[|order| - 1];
      assert order == init + [last];
      RunOrderAt(place, changes, init, files, x);
      assert last in order;
      hide EffectsOf;
    }
  }

  /** One pure update of the files: each file gets what the change touching it leaves. */
  ghost predicate IsUpdateOf(place: Place, changes: Changes, files: map<string, string>, result: map<string, string>)
    requires AllHaveContent(changes)
  {
    forall x ::
      && (forall p :: Touches(place, changes, p, x) ==> At(result, x) == EffectsOf(place, p, changes[p])[x])
      && ((forall p :: p in changes ==> !Touches(place, changes, p, x)) ==> At(result, x) == At(files, x))
  }

  /** With compatible changes every order ends in the one pure update. */
  lemma OrderIsPureUpdate(place: Place, changes: Changes, order: seq<string>, files: map<string, string>)
    requires AllHaveContent(changes) && Compatible(place, changes) && Enumerates(order, changes)
    ensures IsUpdateOf(place, changes, files, RunOrder(place, changes, order, files))
  {
    hide EffectsOf, Compatible;
    forall x
      ensures forall p :: Touches(place, changes, p, x) ==>
        At(RunOrder(place, changes, order, files), x) == EffectsOf(place, p, changes[p])[x]
      ensures (forall p :: p in changes ==> !Touches(place, changes, p, x)) ==>
        At(RunOrder(place, changes, order, files), x) == At(files, x)
    {
      RunOrderAt(place, changes, order, files, x);
    }
  }

  lemma SameFiles(a: map<string, string>, b: map<string, string>)
    requires forall x :: At(a, x) == At(b, x)
    ensures a == b
  {
    assert forall x :: x in a <==> At(a, x).Some?;
    assert forall x :: x in b <==> At(b, x).Some?;
    assert forall x :: x in a ==> At(a, x).value == At(b, x).value;
  }

  lemma PureUpdateIsOne(
    place: Place, changes: Changes, files: map<string, string>, a: map<string, string>, b: map<string, string>)
    requires AllHaveContent(changes) && IsUpdateOf(place, changes, files, a) && IsUpdateOf(place, changes, files, b)
    ensures a == b
  {
    hide EffectsOf;
    forall x
      ensures At(a, x) == At(b, x)
    {
      if p :| Touches(place, changes, p, x) {
        assert At(a, x) == EffectsOf(place, p, changes[p])[x];
      }
    }
    SameFiles(a, b);
  }

  /** The changes of a set, one after the other. */
  lemma {:induction false} ListOf(paths: set<string>) returns (order: seq<string>)
    ensures forall path :: path in order <==> path in paths
    ensures forall j, k :: 0 <= j < k < |order| ==> order[j] != order[k]
    decreases |paths|
  {
    if paths == {} {
      order := [];
    } else {
      var path :| path in paths;
      var rest := ListOf(paths - {path});
      order := rest + [path];
    }
  }

  lemma LastWins(place: Place, changes: Changes, order: seq<string>, files: map<string, string>, p: string, x: string)
    requires AllHaveContent(changes) && (forall path :: path in order ==> path in changes)
    requires order != [] && order[|order| - 1] == p && Touches(place, changes, p, x)
    ensures At(RunOrder(place, changes, order, files), x) == EffectsOf(place, p, changes[p])[x]
  {
    hide EffectsOf;
  }

  ghost predicate OrderIndependent(place: Place, changes: Changes, files: map<string, string>)
    requires AllHaveContent(changes)
  {
    forall a, b :: Enumerates(a, changes) && Enumerates(b, changes) ==>
      RunOrder(place, changes, a, files) == RunOrder(place, changes, b, files)
  }

  /** Two changes that leave different things in one file can be run either last. */
  lemma ConflictShows(place: Place, changes: Changes, files: map<string, string>, p: string, q: string, x: string)
    requires AllHaveContent(changes) && Touches(place, changes, p, x) && Touches(place, changes, q, x)
    requires EffectsOf(place, p, changes[p])[x] != EffectsOf(place, q, changes[q])[x]
    ensures !OrderIndependent(place, changes, files)
  {
    hide EffectsOf, RunOrder;
    assert p != q;
    var rest := ListOf(changes.Keys - {p, q});
    var a, b := rest + [p, q], rest + [q, p];
    assert Enumerates(a, changes) && Enumerates(b, changes);
    LastWins(place, changes, a, files, q, x);
    LastWins(place, changes, b, files, p, x);
  }

  /** The final files are the same for every iteration order exactly when no two
      changes leave different things in one file, under whatever paths. */
  lemma OrderIndependentIff(place: Place, changes: Changes, files: map<string, string>)
    requires AllHaveContent(changes)
    ensures OrderIndependent(place, changes, files) <==> Compatible(place, changes)
  {
    hide EffectsOf, RunOrder;
    if Compatible(place, changes) {
      forall a, b | Enumerates(a, changes) && Enumerates(b, changes)
        ensures RunOrder(place, changes, a, files) == RunOrder(place, changes, b, files)
      {
        OrderIsPureUpdate(place, changes, a, files);
        OrderIsPureUpdate(place, changes, b, files);
        PureUpdateIsOne(place, changes, files, RunOrder(place, changes, a, files), RunOrder(place, changes, b, files));
      }
    } else {
      var p, q, x :| Touches(place, changes, p, x) && Touches(place, changes, q, x)
        && EffectsOf(place, p, changes[p])[x] != EffectsOf(place, q, changes[q])[x];
      ConflictShows(place, changes, files, p, q, x);
    }
  }

  /** The text of a moved file is in the target's file afterwards exactly when that is
      another file: a file moved onto itself, under whatever name, is written and then
      removed. */
  lemma MoveOntoItselfLosesTheFile(place: Place, path: string, change: FileChange, files: map<string, string>)
    requires HasContent(change) && change.kind == ActionUpdate && change.movePath.Some?
    ensures
      var target := change.movePath.value;
      var after := Overlay(files, EffectsOf(place, path, change));
      && (At(after, place(target)) == Some(change.newContent.value) <==> place(target) != place(path))
      && At(after, place(path)) == None
  {
  }

  // ------------------------------------------------- writes that may fail

  /** The files whose writing, and whose removal, fails. */
  datatype Faults = Faults(noWrite: set<string>, noRemove: set<string>)

  const NO_FAULTS: Faults := Faults({}, {})

  /** A file can be removed if it is there. */
  predicate Removable(file: string, files: map<string, string>, faults: Faults) {
    file in files && file !in faults.noRemove
  }

  /** One change against a disk with faults. */
  datatype Attempt = Attempt(files: map<string, string>, ok: bool)

  function TryChange(place: Place, path: string, change: FileChange, files: map<string, string>, faults: Faults): Attempt
  {
    match change.kind
    case ActionDelete =>
      if Removable(place(path), files, faults) then Attempt(files - {place(path)}, true) else Attempt(files, false)
    case ActionAdd =>
      if change.newContent.None? || place(path) in faults.noWrite then Attempt(files, false)
      else Attempt(files[place(path) := change.newContent.value], true)
    case ActionUpdate =>
      if change.newContent.None? then Attempt(files, false)
      else
        var target := place(if change.movePath.Some? then change.movePath.value else path);
        if target in faults.noWrite then Attempt(files, false)
        else
          var written := files[target := change.newContent.value];
          if change.movePath.None? then Attempt(written, true)
          else if Removable(place(path), written, faults) then Attempt(written - {place(path)}, true)
          else Attempt(written, false)
  }

  /** The changes taken in order, stopping at the first that fails. */
  function TryAll(
    place: Place, changes: Changes, order: seq<string>, files: map<string, string>, faults: Faults): Attempt
    requires forall path :: path in order ==> path in changes
  {
    if order == [] then Attempt(files, true)
    else
      var before := TryAll(place, changes, order[..|order| - 1], files, faults);
      var path := order[|order| - 1];
      if !before.ok then before else TryChange(place, path, changes[path], before.files, faults)
  }

  /** A disk below the functions that write and remove what a path names. */
  class FileTree {
    var files: map<string, string>
    const place: Place
    const faults: Faults

    constructor (files: map<string, string>, place: Place, faults: Faults)
      ensures this.files == files && this.place == place && this.faults == faults
    {
      this.files, this.place, this.faults := files, place, faults;
    }

    method Write(path: string, content: string) returns (ok: bool)
      modifies this
      ensures ok == (place(path) !in faults.noWrite)
      ensures files == if ok then old(files)[place(path) := content] else old(files)
    {
      ok := place(path) !in faults.noWrite;
      if ok {
        files := files[place(path) := content];
      }
    }

    /** Removing a file that is not there is an error, too. */
    method Remove(path: string) returns (ok: bool)
      modifies this
      ensures ok == Removable(place(path), old(files), faults)
      ensures files == if ok then old(files) - {place(path)} else old(files)
    {
      ok := Removable(place(path), files, faults);
      if ok {
        files := files - {place(path)};
      }
    }
  }

  method ApplyChange(path: string, change: FileChange, tree: FileTree) returns (ok: bool)
    modifies tree
    ensures Attempt(tree.files, ok) == TryChange(tree.place, path, change, old(tree.files), tree.faults)
  {
    match change.kind
    case ActionDelete =>
      ok := tree.Remove(path);
    case ActionAdd =>
      if change.newContent.None? {
        return false;
      }
      ok := tree.Write(path, change.newContent.value);
    case ActionUpdate =>
      if change.newContent.None? {
        return false;
      }
      if change.movePath.Some? {
        ok := tree.Write(change.movePath.value, change.newContent.value);
        if ok {
          ok := tree.Remove(path);
        }
      } else {
        ok := tree.Write(path, change.newContent.value);
      }
  }

  lemma TryNext(
    place: Place, changes: Changes, order: seq<string>, path: string, files: map<string, string>, faults: Faults)
    requires path in changes && (forall p :: p in order ==> p in changes)
    requires TryAll(place, changes, order, files, faults).ok
    ensures TryAll(place, changes, order + [path], files, faults)
      == TryChange(place, path, changes[path], TryAll(place, changes, order, files, faults).files, faults)
  {
    assert (order + [path])[..|order|] == order;
  }

  /** The commit's changes in whatever order the map yields them; `order` records it. */
  method ApplyCommit(changes: Changes, tree: FileTree) returns (ok: bool, ghost order: seq<string>)
    modifies tree
    ensures forall path :: path in order ==> path in changes
    ensures forall j, k :: 0 <= j < k < |order| ==> order[j] != order[k]
    ensures ok ==> Enumerates(order, changes)
    ensures Attempt(tree.files, ok) == TryAll(tree.place, changes, order, old(tree.files), tree.faults)
  {
    var left := changes.Keys;
    order := [];
    while left != {}
      invariant left <= changes.Keys
      invariant forall path :: path in order <==> path in changes.Keys - left
      invariant forall j, k :: 0 <= j < k < |order| ==> order[j] != order[k]
      invariant Attempt(tree.files, true) == TryAll(tree.place, changes, order, old(tree.files), tree.faults)
      decreases left
    {
      var path :| path in left;
      TryNext(tree.place, changes, order, path, old(tree.files), tree.faults);
      assert path !in order;
      order := order + [path];
      var applied := ApplyChange(path, changes[path], tree);
      if !applied {
        return false, order;
      }
      left := left - {path};
    }
    ok := true;
  }

  /** When no attempt fails, the attempts are the run. */
  lemma {:induction false} SuccessIsTheRun(
    place: Place, changes: Changes, order: seq<string>, files: map<string, string>, faults: Faults)
    requires AllHaveContent(changes) && forall path :: path in order ==> path in changes
    requires TryAll(place, changes, order, files, faults).ok
    ensures TryAll(place, changes, order, files, faults).files == RunOrder(place, changes, order, files)
  {
    if order != [] {
      var init, path := order[..|order| - 1], order[|order| - 1];
      assert order == init + [path];
      SuccessIsTheRun(place, changes, init, files, faults);
      OneSucceeds(place, path, changes[path], RunOrder(place, changes, init, files), faults);
    }
  }

  lemma OneSucceeds(place: Place, path: string, change: FileChange, files: map<string, string>, faults: Faults)
    requires HasContent(change) && TryChange(place, path, change, files, faults).ok
    ensures TryChange(place, path, change, files, faults).files == Overlay(files, EffectsOf(place, path, change))
  {
    var r := TryChange(place, path, change, files, faults).files;
    assert forall x :: At(r, x) == At(Overlay(files, EffectsOf(place, path, change)), x);
    SameFiles(r, Overlay(files, EffectsOf(place, path, change)));
  }

  /** The text of a file moved to another file is never lost: at every point of every
      run, failing or not, the new text is in the target or the old file is still there. */
  ghost predicate MoveSafe(
    place: Place, path: string, change: FileChange, before: map<string, string>, now: map<string, string>)
  {
    change.kind == ActionUpdate && change.movePath.Some? && change.newContent.Some?
    && place(change.movePath.value) != place(path) ==>
      || At(now, place(change.movePath.value)) == Some(change.newContent.value)
      || At(now, place(path)) == At(before, place(path))
  }

  /** All files written or removed are different. */
  ghost predicate Separate(place: Place, changes: Changes) {
    forall p, q :: p in changes && q in changes && p != q ==>
      FilesOf(place, p, changes[p]) !! FilesOf(place, q, changes[q])
  }

  function FilesOf(place: Place, path: string, change: FileChange): set<string> {
    {place(path)} + if change.kind == ActionUpdate && change.movePath.Some? then {place(change.movePath.value)} else {}
  }

  lemma TouchesOnlyItsFiles(
    place: Place, path: string, change: FileChange, files: map<string, string>, faults: Faults, x: string)
    requires x !in FilesOf(place, path, change)
    ensures At(TryChange(place, path, change, files, faults).files, x) == At(files, x)
  {
  }

  lemma {:induction false} MovesNeverLoseText(
    place: Place, changes: Changes, order: seq<string>, files: map<string, string>, faults: Faults, p: string)
    requires Separate(place, changes) && p in changes
    requires (forall path :: path in order ==> path in changes)
    requires (forall j, k :: 0 <= j < k < |order| ==> order[j] != order[k])
    ensures MoveSafe(place, p, changes[p], files, TryAll(place, changes, order, files, faults).files)
    ensures p !in order ==> forall x :: x in FilesOf(place, p, changes[p]) ==>
      At(TryAll(place, changes, order, files, faults).files, x) == At(files, x)
  {
    if order != [] {
      var init, last := order[..|order| - 1], order[|order| - 1];
      assert order == init + [last];
      MovesNeverLoseText(place, changes, init, files, faults, p);
      var before := TryAll(place, changes, init, files, faults);
      if before.ok && last != p {
        assert last in order;
        forall x | x in FilesOf(place, p, changes[p])
          ensures At(TryAll(place, changes, order, files, faults).files, x) == At(before.files, x)
        {
          TouchesOnlyItsFiles(place, last, changes[last], before.files, faults, x);
        }
      }
    }
  }

  predicate Removes(change: FileChange) {
    change.kind == ActionDelete || (change.kind == ActionUpdate && change.movePath.Some?)
  }

  /** Changes of different files all succeed, in any order, on a disk without faults
      that has the files to be removed. */
  lemma {:induction false} AllSucceed(place: Place, changes: Changes, order: seq<string>, files: map<string, string>)
    requires AllHaveContent(changes) && Separate(place, changes)
    requires forall path :: path in changes && Removes(changes[path]) ==> place(path) in files
    requires (forall path :: path in order ==> path in changes)
    requires (forall j, k :: 0 <= j < k < |order| ==> order[j] != order[k])
    ensures TryAll(place, changes, order, files, NO_FAULTS) == Attempt(RunOrder(place, changes, order, files), true)
  {
    if order != [] {
      var init, path := order[..|order| - 1], order[|order| - 1];
      assert order == init + [path];
      AllSucceed(place, changes, init, files);
      MovesNeverLoseText(place, changes, init, files, NO_FAULTS, path);
      assert path in order;
      hide Separate, RunOrder, AllHaveContent;
      var now := TryAll(place, changes, init, files, NO_FAULTS).files;
      assert At(now, place(path)) == At(files, place(path));
      assert TryChange(place, path, changes[path], now, NO_FAULTS).ok;
    }
    SuccessIsTheRun(place, changes, order, files, NO_FAULTS);
  }

  // --------------------------------------------------- spellings of one file

  /** The file named in a working directory. */
  function PlaceIn(wd: seq<string>): Place {
    path => Paths.Absolute(wd, path)
  }

  /** Plain relative paths name different files exactly when they differ. */
  lemma PlainPathsAreFiles(wd: seq<string>, a: seq<string>, b: seq<string>)
    requires Paths.Names(wd) && Paths.Names(a) && Paths.Names(b) && a != [] && b != []
    ensures PlaceIn(wd)(Paths.JoinSlash(a)) == PlaceIn(wd)(Paths.JoinSlash(b)) <==>
      Paths.JoinSlash(a) == Paths.JoinSlash(b)
  {
    Paths.PlainAbsolute(wd, a);
    Paths.PlainAbsolute(wd, b);
    Paths.AbsoluteIsOne(wd + a, wd + b);
    if wd + a == wd + b {
      assert a == (wd + a)[|wd|..] && b == (wd + b)[|wd|..];
    }
  }

  /** Moving a file to "./" and its own path loses it, although the paths differ. */
  lemma MoveToAnotherSpellingLosesTheFile(
    wd: seq<string>, names: seq<string>, change: FileChange, files: map<string, string>)
    requires Paths.Names(names) && names != []
    requires HasContent(change) && change.kind == ActionUpdate && change.movePath == Some("./" + Paths.JoinSlash(names))
    ensures
      var place, path := PlaceIn(wd), Paths.JoinSlash(names);
      && change.movePath.value != path
      && At(Overlay(files, EffectsOf(place, path, change)), place(change.movePath.value)) == None
  {
    Paths.DotAbsolute(wd, names);
    MoveOntoItselfLosesTheFile(PlaceIn(wd), Paths.JoinSlash(names), change, files);
  }

  /** Updating a file under both names leaves what the last of the two changes wrote. */
  lemma TwoSpellingsDependOnOrder(wd: seq<string>, names: seq<string>, x: string, y: string, files: map<string, string>)
    requires Paths.Names(names) && names != [] && x != y
    ensures
      var path := Paths.JoinSlash(names);
      var changes := map[path := Updates(x), "./" + path := Updates(y)];
      AllHaveContent(changes) && !OrderIndependent(PlaceIn(wd), changes, files)
  {
    var path := Paths.JoinSlash(names);
    var dotted := "./" + path;
    var changes := map[path := Updates(x), dotted := Updates(y)];
    Paths.DotAbsolute(wd, names);
    assert |dotted| > |path|;
    var place := PlaceIn(wd);
    assert Touches(place, changes, path, place(path)) && Touches(place, changes, dotted, place(path));
    ConflictShows(place, changes, files, path, dotted, place(path));
  }

  function Updates(content: string): FileChange {
    FileChange(ActionUpdate, Some(""), Some(content), None)
  }

  /** Deleting a file under both names fails: the second removal finds nothing. */
  lemma TwoSpellingsCannotBothBeDeleted(
    wd: seq<string>, names: seq<string>, order: seq<string>, files: map<string, string>)
    requires Paths.Names(names) && names != []
    requires
      var path := Paths.JoinSlash(names);
      order == [path, "./" + path] || order == ["./" + path, path]
    ensures
      var path := Paths.JoinSlash(names);
      var changes := map[path := DELETES, "./" + path := DELETES];
      Enumerates(order, changes) && !TryAll(PlaceIn(wd), changes, order, files, NO_FAULTS).ok
  {
    var path := Paths.JoinSlash(names);
    var dotted := "./" + path;
    var changes := map[path := DELETES, dotted := DELETES];
    Paths.DotAbsolute(wd, names);
    assert |dotted| > |path|;
    var place := PlaceIn(wd);
    var before := TryAll(place, changes, order[..1], files, NO_FAULTS);
    assert order[..1] == [order[0]] && order[..1][..0] == [];
    assert TryAll(place, changes, [], files, NO_FAULTS) == Attempt(files, true);
    assert before == TryChange(place, order[0], DELETES, files, NO_FAULTS);
  }

  const DELETES: FileChange := FileChange(ActionDelete, Some(""), None, None)
}
