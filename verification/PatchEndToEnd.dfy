/** The engine from one end to the other: edits written as a patch, parsed, turned
    into a commit and applied give the edited files; and the inputs on which the
    engine does not deliver. */
module PatchEndToEnd {
  import opened Basics
  import opened Text
  import opened PatchModel
  import opened PatchChunks
  import opened PatchParser
  import opened PatchRoundTrip
  import opened PatchCommit

  /** What an edit leaves on disk. */
  function EditEffects(place: Place, e: Edit): Effects {
    match e
    case Rewrite(path, moveTo, _, script) =>
      if moveTo.Some? then map[place(moveTo.value) := Some(Join(NewSide(script)))][place(path) := None]
      else map[place(path) := Some(Join(NewSide(script)))]
    case Remove(path) => map[place(path) := None]
    case Create(path, content) => map[place(path) := Some(content)]
  }

  /** The edits write and remove different files. */
  ghost predicate Apart(place: Place, edits: seq<Edit>) {
    forall j, k :: 0 <= j < |edits| && 0 <= k < |edits| && j != k ==>
      EditEffects(place, edits[j]).Keys !! EditEffects(place, edits[k]).Keys
  }

  /** The commit PatchToCommit makes of a patch (its contract says exactly this). */
  ghost predicate IsCommitOf(changes: Changes, patch: Patch, files: map<string, string>) {
    && changes.Keys == patch.actions.Keys
    && forall path :: path in patch.actions ==> ChangeOf(path, patch.actions[path], files) == Ok(changes[path])
  }

  lemma ChangeOfEdit(place: Place, e: Edit, files: map<string, string>)
    requires Fits(e, files)
    ensures ChangeOf(e.path, ActionOf(ParsedEdit(e)), files).Ok?
    ensures
      var change := ChangeOf(e.path, ActionOf(ParsedEdit(e)), files).value;
      HasContent(change) && EffectsOf(place, e.path, change) == EditEffects(place, e)
  {
    hide Split, HunkChunks, Join, Updated, NewSide;
    if e.Rewrite? {
      RewriteGivesNewLines(e, files);
    }
  }

  lemma EditsAreChanges(place: Place, edits: seq<Edit>, files: map<string, string>, changes: Changes)
    requires AllFit(edits, files)
    requires IsCommitOf(changes, PatchOf(Plan(PlanEdits(edits, map[]), 0)), files)
    ensures forall k :: 0 <= k < |edits| ==>
      edits[k].path in changes && HasContent(changes[edits[k].path])
      && EffectsOf(place, edits[k].path, changes[edits[k].path]) == EditEffects(place, edits[k])
    ensures forall path :: path in changes ==> exists k :: 0 <= k < |edits| && edits[k].path == path
  {
    hide Fits, ParsedEdit, ActionOf, ChangeOf, EffectsOf, EditEffects, HasContent, PlanEdits;
    forall k | 0 <= k < |edits|
      ensures edits[k].path in changes && HasContent(changes[edits[k].path])
        && EffectsOf(place, edits[k].path, changes[edits[k].path]) == EditEffects(place, edits[k])
    {
      PlanEditsAt(edits, map[], edits[k].path);
      ChangeOfEdit(place, edits[k], files);
    }
    forall path | path in changes
      ensures exists k :: 0 <= k < |edits| && edits[k].path == path
    {
      PlanEditsAt(edits, map[], path);
    }
  }

  lemma ApartIsCompatible(place: Place, edits: seq<Edit>, files: map<string, string>, changes: Changes)
    requires AllFit(edits, files) && Apart(place, edits)
    requires IsCommitOf(changes, PatchOf(Plan(PlanEdits(edits, map[]), 0)), files)
    ensures AllHaveContent(changes) && Compatible(place, changes)
  {
    hide Fits, EffectsOf, EditEffects, HasContent, IsCommitOf;
    EditsAreChanges(place, edits, files, changes);
    forall p, q, x | Touches(place, changes, p, x) && Touches(place, changes, q, x)
      ensures EffectsOf(place, p, changes[p])[x] == EffectsOf(place, q, changes[q])[x]
    {
      var j :| 0 <= j < |edits| && edits[j].path == p;
      var k :| 0 <= k < |edits| && edits[k].path == q;
      assert x in EditEffects(place, edits[j]).Keys && x in EditEffects(place, edits[k]).Keys;
    }
  }

  lemma ChangedFiles(place: Place, path: string, change: FileChange)
    requires HasContent(change)
    ensures FilesOf(place, path, change) == EffectsOf(place, path, change).Keys
  {
  }

  /** What is removed was there to be read. */
  lemma RemovedWasRead(e: Edit, files: map<string, string>)
    requires Fits(e, files) && ChangeOf(e.path, ActionOf(ParsedEdit(e)), files).Ok?
    ensures Removes(ChangeOf(e.path, ActionOf(ParsedEdit(e)), files).value) ==> e.path in files
  {
    hide Split, HunkChunks, Updated;
  }

  lemma ApartIsSeparate(place: Place, edits: seq<Edit>, files: map<string, string>, changes: Changes)
    requires AllFit(edits, files) && Apart(place, edits)
    requires IsCommitOf(changes, PatchOf(Plan(PlanEdits(edits, map[]), 0)), files)
    ensures Separate(place, changes) && forall path :: path in changes && Removes(changes[path]) ==> path in files
  {
    hide Fits, EffectsOf, EditEffects, HasContent, ParsedEdit, ActionOf, ChangeOf, Removes, FilesOf, PlanEdits;
    EditsAreChanges(place, edits, files, changes);
    forall p, q | p in changes && q in changes && p != q
      ensures FilesOf(place, p, changes[p]) !! FilesOf(place, q, changes[q])
    {
      var j :| 0 <= j < |edits| && edits[j].path == p;
      var k :| 0 <= k < |edits| && edits[k].path == q;
      ChangedFiles(place, p, changes[p]);
      ChangedFiles(place, q, changes[q]);
    }
    forall path | path in changes && Removes(changes[path]) ensures path in files {
      var k :| 0 <= k < |edits| && edits[k].path == path;
      PlanEditsAt(edits, map[], path);
      RemovedWasRead(edits[k], files);
    }
  }

  /** End to end. A patch written for edits that fit the files and keep apart is
      accepted without fuzz; its commit, applied to a disk in any order, leaves exactly
      what the edits say in the files their paths name and every other file as it was;
      and no attempt fails on a disk without faults that holds the files read. */
  lemma PatchDoesTheEdits(
    place: Place, edits: seq<Edit>, files: map<string, string>, disk: map<string, string>, changes: Changes, order: seq<string>)
    requires AllFit(edits, files) && Apart(place, edits)
    requires PlanOf(RenderPatch(edits), files).Ok? ==>
      IsCommitOf(changes, PatchOf(PlanOf(RenderPatch(edits), files).value), files)
    requires Enumerates(order, changes)
    ensures PlanOf(RenderPatch(edits), files).Ok? && PlanOf(RenderPatch(edits), files).value.fuzz == 0
    ensures AllHaveContent(changes)
    ensures
      var result := RunOrder(place, changes, order, disk);
      forall x ::
        && (forall k :: 0 <= k < |edits| && x in EditEffects(place, edits[k]) ==>
              At(result, x) == EditEffects(place, edits[k])[x])
        && ((forall k :: 0 <= k < |edits| ==> x !in EditEffects(place, edits[k])) ==> At(result, x) == At(disk, x))
    ensures (forall path :: path in files ==> place(path) in disk) ==>
      TryAll(place, changes, order, disk, NO_FAULTS) == Attempt(RunOrder(place, changes, order, disk), true)
  {
    hide PlanOf, RenderPatch, AllFit, Apart, IsCommitOf, EffectsOf, EditEffects, HasContent, RunOrder, Compatible;
    RoundTrip(edits, files);
    EditsAreChanges(place, edits, files, changes);
    ApartIsCompatible(place, edits, files, changes);
    OrderIsPureUpdate(place, changes, order, disk);
    var result := RunOrder(place, changes, order, disk);
    forall x
      ensures forall k :: 0 <= k < |edits| && x in EditEffects(place, edits[k]) ==>
        At(result, x) == EditEffects(place, edits[k])[x]
      ensures (forall k :: 0 <= k < |edits| ==> x !in EditEffects(place, edits[k])) ==> At(result, x) == At(disk, x)
    {
      forall k | 0 <= k < |edits| && x in EditEffects(place, edits[k])
        ensures At(result, x) == EditEffects(place, edits[k])[x]
      {
        assert Touches(place, changes, edits[k].path, x);
      }
    }
    if forall path :: path in files ==> place(path) in disk {
      ApartIsSeparate(place, edits, files, changes);
      AllSucceed(place, changes, order, disk);
    }
  }
}
