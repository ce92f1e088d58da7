/** Patches on which the engine never answers, panics, or accepts an update it then
    refuses to apply. */
module PatchLimits {
  import opened Basics
  import opened Text
  import opened PatchModel
  import opened PatchChunks
  import opened PatchSplice
  import opened PatchSafety
  import opened PatchParser
  import opened PatchRoundTrip
  import opened PatchCommit

  const PATH := "f"

  /** A patch of one update with the given section lines. */
  function UpdatePatch(section: seq<string>): (lines: seq<string>)
    ensures |lines| == |section| + 3
    ensures forall k :: 0 <= k < |section| ==> lines[k + 2] == section[k]
  {
    [BEGIN_PATCH, UPDATE_FILE + PATH] + section + [END_PATCH]
  }

  lemma UpdatePatchReads(section: seq<string>)
    requires section != [] && !HasPrefix(section[0], MOVE_TO)
    ensures
      var lines := UpdatePatch(section);
      && !Done(lines, 1, [END_PATCH])
      && ReadStr(lines, 1, UPDATE_FILE) == Read(PATH, 2) && ReadStr(lines, 2, MOVE_TO) == Read("", 2)
  {
    var lines := UpdatePatch(section);
    assert lines[1] == UPDATE_FILE + PATH;
    assert lines[2] == section[0];
    hide UpdatePatch;
    assert END_PATCH[4] == 'E' && UPDATE_FILE[4] == 'U';
    assert HasPrefix(lines[1], UPDATE_FILE) && lines[1][|UPDATE_FILE|..] == PATH;
    assert !HasPrefix(lines[1], [END_PATCH][0]);
  }

  lemma UpdatePatchEnvelope(section: seq<string>)
    requires AllOneLine(section)
    ensures HasEnvelope(UpdatePatch(section)) && AllOneLine(UpdatePatch(section))
  {
    hide OneLine;
    assert OneLine(UPDATE_FILE + PATH) && OneLine(BEGIN_PATCH) && OneLine(END_PATCH) by { MarkersOneLine(); }
  }

  lemma MarkersOneLine()
    ensures OneLine(UPDATE_FILE + PATH) && OneLine(BEGIN_PATCH) && OneLine(END_PATCH)
  {
  }

  /** Such a patch's lines, and where its update begins. */
  lemma UpdatePatchLines(section: seq<string>)
    requires AllOneLine(section) && section != [] && !HasPrefix(section[0], MOVE_TO)
    ensures
      var lines := UpdatePatch(section);
      && PatchLines(Join(lines)) == lines && HasEnvelope(lines) && !Done(lines, 1, [END_PATCH])
      && ReadStr(lines, 1, UPDATE_FILE) == Read(PATH, 2) && ReadStr(lines, 2, MOVE_TO) == Read("", 2)
  {
    hide *;
    UpdatePatchReads(section);
    UpdatePatchEnvelope(section);
    EnvelopeLines(UpdatePatch(section));
  }

  /** Such a patch is parsed by parsing its update. */
  lemma UpdateDecides(section: seq<string>, text: string, files: map<string, string>)
    requires AllOneLine(section) && section != [] && !HasPrefix(section[0], MOVE_TO)
    requires PATH in files && text == Join(UpdatePatch(section))
    ensures
      var r := ParseUpdate(UpdatePatch(section), Split(files[PATH]), Cursor(2, 0, 0, []));
      && (r.Diverge? ==> PlanOf(text, files).Diverge?)
      && (r.Panic? ==> PlanOf(text, files).Panic?)
  {
    hide ParseUpdate, Split, Join, PatchLines, HasEnvelope, Done, ReadStr, UpdatePatch, HasPrefix;
    UpdatePatchLines(section);
  }

  lemma UpdateAccepted(section: seq<string>, text: string, files: map<string, string>)
    requires AllOneLine(section) && section != [] && !HasPrefix(section[0], MOVE_TO)
    requires PATH in files && text == Join(UpdatePatch(section))
    ensures
      var r := ParseUpdate(UpdatePatch(section), Split(files[PATH]), Cursor(2, 0, 0, []));
      r.Ok? && r.value.pos == |UpdatePatch(section)| - 1 ==>
        PlanOf(text, files) == Ok(Plan(map[PATH := ParsedUpdate(r.value.hunks, None)], r.value.fuzz))
  {
    hide ParseUpdate, Split, Join, PatchLines, HasEnvelope, Done, ReadStr, HasPrefix, ParseEntries;
    UpdatePatchLines(section);
    var lines := UpdatePatch(section);
    var r := ParseUpdate(lines, Split(files[PATH]), Cursor(2, 0, 0, []));
    if r.Ok? && r.value.pos == |lines| - 1 {
      var start := ParseState(1, 0, map[]);
      var next := ParseState(r.value.pos, r.value.fuzz, map[PATH := ParsedUpdate(r.value.hunks, None)]);
      assert ParseEntry(lines, files, start) == Ok(next);
      OneEntry(lines, files, start, next);
      assert lines[next.index..] == [END_PATCH];
      NoMoreEntries(lines, files, next);
    }
  }

  /** The header "@@x" is neither "@@" nor "@@ ...": the engine loops on it. */
  lemma UnknownHeaderLoops(files: map<string, string>)
    requires PATH in files
    ensures PlanOf(Join(UpdatePatch(["@@x"])), files) == Diverge
  {
    hide Split, Join, PlanOf, ParseUpdate;
    var section := ["@@x"];
    var lines := UpdatePatch(section);
    assert lines[2] == section[0];
    NotStarred("@@x");
    assert "@@x"[2] != "@@ "[2] && |"@@x"| == 3;
    assert HasPrefix("@@x", "@@");
    assert Stuck(lines[2]);
    assert !Done(lines, 2, UPDATE_ENDS);
    UpdateDivergesIff(lines, Split(files[PATH]), Cursor(2, 0, 0, []));
    UpdateDecides(section, Join(lines), files);
  }

  /** An end-of-file section of two lines on a file of one line panics. */
  lemma LongEofSectionPanics(files: map<string, string>)
    requires PATH in files && |Split(files[PATH])| == 1
    ensures PlanOf(Join(UpdatePatch([" a", " b", END_OF_FILE])), files) == Panic
  {
    hide *;
    var section := [" a", " b", END_OF_FILE];
    var lines := UpdatePatch(section);
    var c := Cursor(2, 0, 0, []);
    TwoLinesThenEof(lines, section);
    TurnPanicsIff(lines, Split(files[PATH]), c);
    FirstTurnDecides(lines, Split(files[PATH]), c);
    PlainSection(section);
    UpdateDecides(section, Join(lines), files);
  }

  lemma PlainSection(section: seq<string>)
    requires section == [" a", " b", END_OF_FILE]
    ensures AllOneLine(section) && !HasPrefix(section[0], MOVE_TO)
  {
    NotStarred(section[0]);
  }

  lemma TwoLinesThenEof(lines: seq<string>, section: seq<string>)
    requires section == [" a", " b", END_OF_FILE] && lines == UpdatePatch(section)
    ensures HasEnvelope(lines) && !Done(lines, 2, UPDATE_ENDS)
    ensures ReadHeader(lines, 2) == Header("", false, 2)
    ensures PeekSection(lines, 2).eof && |OldSide(PeekSection(lines, 2).ops)| == 2
  {
    hide SectionEnd, OldSide, PeekSection;
    assert lines[2] == section[0] && lines[3] == section[1] && lines[4] == section[2];
    NotStarred(lines[2]);
    assert HasPrefix(END_OF_FILE, "***");
    assert !EndsSection(lines[2]) && !EndsSection(lines[3]);
    SectionEndIs(lines, 2, 4);
    assert lines[2][1..] == "a" && lines[3][1..] == "b";
    TwoKept(lines);
  }

  lemma FirstTurnDecides(lines: seq<string>, file: seq<string>, c: Cursor)
    requires c.pos < |lines| && c.at <= |file| && !Done(lines, c.pos, UPDATE_ENDS)
    ensures Turn(lines, file, c).Panic? ==> ParseUpdate(lines, file, c).Panic?
  {
    hide Turn, Done;
  }

  lemma TwoKept(lines: seq<string>)
    requires |lines| >= 5 && SectionEnd(lines, 2) == 4 && lines[4] == END_OF_FILE
    requires OpOf(lines[2]) == Keep("a") && OpOf(lines[3]) == Keep("b")
    ensures PeekSection(lines, 2).eof && |OldSide(PeekSection(lines, 2).ops)| == 2
  {
    var ops := PeekSection(lines, 2).ops;
    assert |ops| == 2 && ops[0] == Keep("a") && ops[1] == Keep("b");
    assert ops[..1][..0] == [];
    assert |OldSide(ops[..1])| == 1;
  }

  /** The last line is found again by an end-of-file section although the cursor is
      past it. */
  lemma LastLineIsFound(file: seq<string>, at: nat)
    requires at + 1 == |file|
    ensures FindContext(file, [file[at]], at, false) == Ok(Some(Hit(at, Exact, 0)))
    ensures FindContext(file, [file[at]], |file|, true) == Ok(Some(Hit(at, Exact, 0)))
  {
    hide FuzzOf;
    FuzzLevels();
    assert MatchesAt(Exact, file, [file[at]], at);
    assert FirstMatch(Exact, file, [file[at]], at) == Some(at);
  }

  // ------------------------------------------------ a section behind the cursor

  /** A section over the whole file, then an end-of-file section. */
  function TwoSections(first: seq<Op>, second: seq<Op>): (section: seq<string>)
    ensures |section| == |first| + |second| + 2
    ensures section[..|first|] == RenderOps(first) && section[|first|] == "@@"
    ensures section[|first| + 1..|first| + 1 + |second|] == RenderOps(second)
    ensures section[|first| + 1 + |second|] == END_OF_FILE
  {
    RenderOps(first) + ["@@"] + RenderOps(second) + [END_OF_FILE]
  }

  /** A rendered section up to a line that ends it. */
  lemma SectionIs(lines: seq<string>, body: nat, script: seq<Op>)
    requires OneLineOps(script) && body + |script| < |lines| && EndsSection(lines[body + |script|])
    requires lines[body..body + |script|] == RenderOps(script)
    ensures
      var eof := lines[body + |script|] == END_OF_FILE;
      PeekSection(lines, body) == Section(script, if eof then body + |script| + 1 else body + |script|, eof)
  {
    var end := body + |script|;
    forall k | 0 <= k < |script|
      ensures OpOf(lines[body + k]) == script[k] && !EndsSection(lines[body + k])
    {
      assert lines[body + k] == lines[body..end][k];
      RenderedOp(script[k]);
    }
    forall k | body <= k < end ensures !EndsSection(lines[k]) {
      assert !EndsSection(lines[body + (k - body)]);
    }
    SectionEndIs(lines, body, end);
    assert OpsOf(lines[body..end]) == script;
  }

  /** A turn on a section that is found. */
  lemma TurnTakes(lines: seq<string>, file: seq<string>, c: Cursor, body: nat, bare: bool, section: Section, hit: Hit)
    requires c.pos < |lines| && c.at <= |file| && body <= |lines| && (bare || c.at == 0)
    requires ReadHeader(lines, c.pos) == Header("", bare, body) && PeekSection(lines, body) == section
    requires FindContext(file, OldSide(section.ops), c.at, section.eof) == Ok(Some(hit))
    ensures Turn(lines, file, c) ==
      Ok(Cursor(section.next, hit.at + |OldSide(section.ops)|, c.fuzz + hit.fuzz,
                c.hunks + [Hunk(hit.at, section.ops, hit.level, section.eof)]))
  {
    hide ReadHeader, PeekSection, OldSide, FindContext, LocateDef;
    NoName(file, c.at);
  }

  /** The sections as the parser places them. */
  function TwoHunks(file: seq<string>, first: seq<Op>, second: seq<Op>): seq<Hunk>
    requires file != []
  {
    [Hunk(0, first, Exact, false), Hunk(|file| - 1, second, Exact, true)]
  }

  predicate Scripts(file: seq<string>, first: seq<Op>, second: seq<Op>) {
    && file != [] && OneLineOps(first) && OneLineOps(second)
    && OldSide(first) == file && OldSide(second) == [file[|file| - 1]]
  }

  lemma ScriptsAreNotEmpty(file: seq<string>, first: seq<Op>, second: seq<Op>)
    requires Scripts(file, first, second)
    ensures file != [] && first != [] && second != []
  {
  }

  lemma TwoTurns(lines: seq<string>, file: seq<string>, first: seq<Op>, second: seq<Op>)
    requires Scripts(file, first, second) && lines == UpdatePatch(TwoSections(first, second))
    ensures ParseUpdate(lines, file, Cursor(2, 0, 0, [])) ==
      Ok(Cursor(|lines| - 1, |file|, 0, TwoHunks(file, first, second)))
  {
    hide *;
    ScriptsAreNotEmpty(file, first, second);
    var c0 := Cursor(2, 0, 0, []);
    var c1 := Cursor(2 + |first|, |file|, 0, [Hunk(0, first, Exact, false)]);
    var c2 := Cursor(|lines| - 1, |file|, 0, TwoHunks(file, first, second));
    FirstTurn(lines, file, first, second, c0, c1);
    SecondTurn(lines, file, first, second, c1, c2);
    LastLineEnds(lines, first, second);
    TurnThen(lines, file, c0, c1);
    OneTurn(lines, file, c1, c2);
  }

  lemma FirstTurn(lines: seq<string>, file: seq<string>, first: seq<Op>, second: seq<Op>, c0: Cursor, c1: Cursor)
    requires Scripts(file, first, second) && lines == UpdatePatch(TwoSections(first, second)) && first != []
    requires c0 == Cursor(2, 0, 0, []) && c1 == Cursor(2 + |first|, |file|, 0, [Hunk(0, first, Exact, false)])
    ensures c1.pos < |lines| && !Done(lines, 2, UPDATE_ENDS) && Turn(lines, file, c0) == Ok(c1)
  {
    hide OldSide, PeekSection, ReadHeader, FindContext, Turn;
    var section := TwoSections(first, second);
    assert lines[2..2 + |first|] == section[..|first|];
    assert lines[2 + |first|] == "@@" && HasPrefix("@@", "@@");
    assert "@@" != END_OF_FILE;
    SectionIs(lines, 2, first);
    assert lines[2] == RenderOps(first)[0];
    RenderedOp(first[0]);
    OpensSection(lines, 2, 2, false);
    FindWholeFile(file);
    TurnTakes(lines, file, c0, 2, false, Section(first, 2 + |first|, false), Hit(0, Exact, 0));
    assert [] + [Hunk(0, first, Exact, false)] == [Hunk(0, first, Exact, false)];
  }

  lemma SecondReads(lines: seq<string>, first: seq<Op>, second: seq<Op>)
    requires OneLineOps(second) && lines == UpdatePatch(TwoSections(first, second))
    ensures
      var pos := 2 + |first|;
      && pos < |lines| - 1 && !Done(lines, pos, UPDATE_ENDS) && ReadHeader(lines, pos) == Header("", true, pos + 1)
      && PeekSection(lines, pos + 1) == Section(second, |lines| - 1, true)
  {
    var section := TwoSections(first, second);
    var body := 3 + |first|;
    assert lines[2 + |first|] == "@@";
    assert lines[body..body + |second|] == section[|first| + 1..|first| + 1 + |second|];
    assert lines[body + |second|] == END_OF_FILE && HasPrefix(END_OF_FILE, "***");
    hide PeekSection, ReadHeader, HasAnyPrefix, TwoSections, OneLineOps, RenderOps;
    SectionIs(lines, body, second);
    OpensSection(lines, 2 + |first|, body, true);
  }

  lemma SecondTurn(lines: seq<string>, file: seq<string>, first: seq<Op>, second: seq<Op>, c1: Cursor, c2: Cursor)
    requires Scripts(file, first, second) && lines == UpdatePatch(TwoSections(first, second))
    requires c1 == Cursor(2 + |first|, |file|, 0, [Hunk(0, first, Exact, false)])
    requires c2 == Cursor(|lines| - 1, |file|, 0, TwoHunks(file, first, second))
    ensures c1.pos < c2.pos && !Done(lines, c1.pos, UPDATE_ENDS) && Turn(lines, file, c1) == Ok(c2)
  {
    hide OldSide, PeekSection, ReadHeader, FindContext, Turn, Done, UpdatePatch, TwoSections, OneLineOps;
    SecondReads(lines, first, second);
    LastLineIsFound(file, |file| - 1);
    TurnTakes(lines, file, c1, 3 + |first|, true, Section(second, |lines| - 1, true), Hit(|file| - 1, Exact, 0));
    assert c1.hunks + [Hunk(|file| - 1, second, Exact, true)] == c2.hunks;
  }

  lemma LastLineEnds(lines: seq<string>, first: seq<Op>, second: seq<Op>)
    requires lines == UpdatePatch(TwoSections(first, second))
    ensures Done(lines, |lines| - 1, UPDATE_ENDS)
  {
    assert HasPrefix(END_PATCH, UPDATE_ENDS[0]);
  }

  lemma TurnThen(lines: seq<string>, file: seq<string>, c: Cursor, next: Cursor)
    requires c.pos < next.pos <= |lines| && c.at <= |file| && next.at <= |file|
    requires !Done(lines, c.pos, UPDATE_ENDS) && Turn(lines, file, c) == Ok(next)
    ensures ParseUpdate(lines, file, c) == ParseUpdate(lines, file, next)
  {
    hide Turn, Done;
  }

  lemma SectionOneLine(first: seq<Op>, second: seq<Op>)
    requires OneLineOps(first) && OneLineOps(second) && first != []
    ensures AllOneLine(TwoSections(first, second)) && !HasPrefix(TwoSections(first, second)[0], MOVE_TO)
  {
    forall k | 0 <= k < |first| ensures OneLine(RenderOps(first)[k]) {
      RenderedOp(first[k]);
    }
    forall k | 0 <= k < |second| ensures OneLine(RenderOps(second)[k]) {
      RenderedOp(second[k]);
    }
    assert TwoSections(first, second)[0] == RenderOps(first)[0];
    RenderedOp(first[0]);
  }

  /** The patch with such two sections is accepted without fuzz, the second section
      placed on the last line although the first reaches behind it. */
  lemma TwoSectionsAreAccepted(files: map<string, string>, file: seq<string>, first: seq<Op>, second: seq<Op>)
    requires PATH in files && Split(files[PATH]) == file && Scripts(file, first, second)
    ensures PlanOf(Join(UpdatePatch(TwoSections(first, second))), files) ==
      Ok(Plan(map[PATH := ParsedUpdate(TwoHunks(file, first, second), None)], 0))
  {
    hide *;
    var section := TwoSections(first, second);
    var lines := UpdatePatch(section);
    ScriptsAreNotEmpty(file, first, second);
    ScriptsOneLine(file, first, second);
    SectionOneLine(first, second);
    TwoTurns(lines, file, first, second);
    UpdateAccepted(section, Join(lines), files);
  }

  lemma ScriptsOneLine(file: seq<string>, first: seq<Op>, second: seq<Op>)
    requires Scripts(file, first, second)
    ensures OneLineOps(first) && OneLineOps(second)
  {
  }

  /** What becomes of it: the commit refuses the update exactly when the first
      section edits behind where the second begins to. */
  lemma EofSectionIsRefusedIff(files: map<string, string>, file: seq<string>, first: seq<Op>, second: seq<Op>)
    requires PATH in files && Split(files[PATH]) == file && Scripts(file, first, second)
    ensures
      var plan := PlanOf(Join(UpdatePatch(TwoSections(first, second))), files);
      && plan.Ok? && PATH in plan.value.entries
      && (ChangeOf(PATH, ActionOf(plan.value.entries[PATH]), files).Err? <==>
            HasEdit(first) && HasEdit(second) && EditEnd(first) > |file| - 1 + EditStart(second))
  {
    hide PlanOf, Split, Updated, HunkChunks, Join, UpdatePatch, TwoSections, Scripts, HasEdit, EditStart, EditEnd;
    var text := Join(UpdatePatch(TwoSections(first, second)));
    var hunks := TwoHunks(file, first, second);
    TwoSectionsAreAccepted(files, file, first, second);
    AcceptedUpdateIsFaithful(text, files, PATH, hunks);
    assert EofEditsBehind(hunks) <==> EditsBehind(hunks[0], hunks[1]);
    assert Updated(file, HunkChunks(hunks)).Ok? || Updated(file, HunkChunks(hunks)).Err? by { UpdatedOkOrErr(file, HunkChunks(hunks)); }
  }

  lemma UpdatedOkOrErr(file: seq<string>, chunks: seq<Chunk>)
    ensures Updated(file, chunks).Ok? || Updated(file, chunks).Err?
  {
    hide Splice;
  }

  /** Deleting the only line of a file, and then again at its end: the patch is
      accepted and its commit refused. */
  lemma EofSectionBehindIsRefused(files: map<string, string>, line: string)
    requires PATH in files && files[PATH] == line && OneLine(line)
    ensures
      var plan := PlanOf(Join(UpdatePatch(TwoSections([Del(line)], [Del(line)]))), files);
      plan.Ok? && PATH in plan.value.entries && ChangeOf(PATH, ActionOf(plan.value.entries[PATH]), files).Err?
  {
    SplitLine(line);
    var ops := [Del(line)];
    assert ops[..0] == [] && OldSide(ops) == [line];
    assert EditEnd(ops) == 1 && EditStart(ops) == 0 && HasEdit(ops);
    hide PlanOf, Split, Join, UpdatePatch, TwoSections, EditEnd, EditStart, HasEdit, ChangeOf, OldSide;
    EofSectionIsRefusedIff(files, [line], ops, ops);
  }

  /** Overlapping context alone is no obstacle: a line deleted above the last, and a
      line added behind it at the end of the file. */
  lemma EofContextMayOverlap(files: map<string, string>, a: string, b: string, c: string, d: string)
    requires PATH in files && Split(files[PATH]) == [a, b, c] && OneLine(a) && OneLine(b) && OneLine(c) && OneLine(d)
    ensures
      var plan := PlanOf(Join(UpdatePatch(TwoSections([Keep(a), Del(b), Keep(c)], [Keep(c), Ins(d)]))), files);
      && plan.Ok? && PATH in plan.value.entries && plan.value.entries[PATH].ParsedUpdate?
      && !InOrder(plan.value.entries[PATH].hunks, 3)
      && !ChangeOf(PATH, ActionOf(plan.value.entries[PATH]), files).Err?
  {
    hide *;
    var first, second := [Keep(a), Del(b), Keep(c)], [Keep(c), Ins(d)];
    OverlapScripts(a, b, c, d);
    EofSectionIsRefusedIff(files, [a, b, c], first, second);
    TwoSectionsAreAccepted(files, [a, b, c], first, second);
    OutOfOrder([a, b, c], first, second);
  }

  lemma OutOfOrder(file: seq<string>, first: seq<Op>, second: seq<Op>)
    requires Scripts(file, first, second)
    ensures file != [] && !InOrder(TwoHunks(file, first, second), |file|)
  {
    hide OldSide, OneLineOps;
    var hunks := TwoHunks(file, first, second);
    assert HunkEnd(hunks[0]) > hunks[1].at;
  }

  lemma OverlapScripts(a: string, b: string, c: string, d: string)
    requires OneLine(a) && OneLine(b) && OneLine(c) && OneLine(d)
    ensures
      var first, second := [Keep(a), Del(b), Keep(c)], [Keep(c), Ins(d)];
      Scripts([a, b, c], first, second) && EditEnd(first) == 2 && EditStart(second) == 1
  {
    var first, second := [Keep(a), Del(b), Keep(c)], [Keep(c), Ins(d)];
    hide OneLine;
    assert first[..2] == [Keep(a), Del(b)] && first[..2][..1] == [Keep(a)] && first[..2][..1][..0] == [];
    assert second[..1] == [Keep(c)] && second[..1][..0] == [];
    assert OldSide([Keep(a)]) == [a] && OldSide([Keep(a), Del(b)]) == [a, b] && OldSide(first) == [a, b, c];
    assert OldSide([Keep(c)]) == [c] && OldSide(second) == [c];
    assert EditEnd([Keep(a), Del(b)]) == 2 && EditEnd(first) == 2;
    assert !HasEdit([Keep(c)]) && EditStart(second) == 1;
  }
}
