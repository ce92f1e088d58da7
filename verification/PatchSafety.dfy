/** What an accepted patch guarantees, and exactly when the engine answers at all. */
module PatchSafety {
  import opened Basics
  import opened Text
  import opened PatchModel
  import opened PatchChunks
  import opened PatchSplice

  // ------------------------------------------------------ accepted updates

  /** The sections of an update as the parser places them in a file: every section
      matches where it was found; all but end-of-file sections come after the
      sections before them; without fuzz every match is byte for byte. */
  ghost predicate Placed(file: seq<string>, hunks: seq<Hunk>, fuzz: nat) {
    && (forall k :: 0 <= k < |hunks| ==> MatchesAt(hunks[k].level, file, OldSide(hunks[k].ops), hunks[k].at))
    && (forall j, k :: 0 <= j < k < |hunks| && !hunks[k].eof ==> HunkEnd(hunks[j]) <= hunks[k].at)
    && (forall k :: 0 <= k < |hunks| && fuzz == 0 ==> hunks[k].level == Exact)
  }

  /** All sections so far end at or before the file cursor. */
  ghost predicate Behind(hunks: seq<Hunk>, at: nat) {
    forall k :: 0 <= k < |hunks| ==> HunkEnd(hunks[k]) <= at
  }

  lemma TrimOneLetter(letter: string)
    requires |letter| == 1 && !IsSpace(letter[0])
    ensures TrimRight(letter, IsBlank) == letter && TrimSpace(letter) == letter
    ensures TrimRight(letter + " ", IsBlank) == letter && TrimSpace(letter + " ") == letter
  {
    hide TrimRight;
    TrimRightUnique(letter, letter, IsBlank);
    TrimRightUnique(letter + " ", letter, IsBlank);
    TrimSpaceTight(letter);
    TrimSpaceAbsorbsBlanks(letter + " ");
  }

  /** The two probes report no fuzz for an exact match and 1 for both trimmed ones;
      100 is never reported. */
  lemma FuzzLevels()
    ensures FuzzOf(Exact) == 0 && FuzzOf(RightTrimmed) == 1 && FuzzOf(Trimmed) == 1
  {
    hide TrimRight, TrimSpace;
    TrimOneLetter("a");
    TrimOneLetter("b");
    assert "a" + " " == "a ";
    assert "a"[0] != "b"[0] && |"a  "| == 3;
  }

  /** No fuzz is reported only for an exact match. */
  lemma FuzzOfHit(file: seq<string>, context: seq<string>, start: nat, eof: bool)
    requires start <= |file|
    requires FindContext(file, context, start, eof).Ok? && FindContext(file, context, start, eof).value.Some?
    ensures
      var hit := FindContext(file, context, start, eof).value.value;
      && (hit.fuzz == 0 ==> hit.level == Exact)
      && (eof && hit.at < start ==> hit.at + |context| == |file|)
  {
    hide FirstMatch, FuzzOf;
    FuzzLevels();
  }

  lemma TurnPlaces(lines: seq<string>, file: seq<string>, c: Cursor)
    requires c.pos < |lines| && c.at <= |file| && Turn(lines, file, c).Ok?
    requires Placed(file, c.hunks, c.fuzz) && Behind(c.hunks, c.at)
    ensures
      var r := Turn(lines, file, c).value;
      Placed(file, r.hunks, r.fuzz) && Behind(r.hunks, r.at) && r.fuzz >= c.fuzz
  {
    hide PeekSection, ReadHeader, LocateDef, FindContext, OldSide;
    var h := ReadHeader(lines, c.pos);
    var def := LocateDef(file, h.def, c.at);
    var section := PeekSection(lines, h.body);
    FuzzOfHit(file, OldSide(section.ops), def.at, section.eof);
  }

  lemma {:induction false} UpdatePlaces(lines: seq<string>, file: seq<string>, c: Cursor)
    requires c.pos <= |lines| && c.at <= |file| && ParseUpdate(lines, file, c).Ok?
    requires Placed(file, c.hunks, c.fuzz) && Behind(c.hunks, c.at)
    ensures
      var r := ParseUpdate(lines, file, c).value;
      Placed(file, r.hunks, r.fuzz) && r.fuzz >= c.fuzz
    decreases |lines| - c.pos
  {
    hide Turn, Done, Placed, Behind;
    if !Done(lines, c.pos, UPDATE_ENDS) {
      TurnPlaces(lines, file, c);
      UpdatePlaces(lines, file, Turn(lines, file, c).value);
    }
  }

  /** Sections lie in order exactly when no end-of-file section landed before the
      end of an earlier one. */
  lemma InOrderIff(file: seq<string>, hunks: seq<Hunk>, fuzz: nat)
    requires Placed(file, hunks, fuzz)
    ensures InOrder(hunks, |file|) <==>
      forall j, k :: 0 <= j < k < |hunks| && hunks[k].eof ==> HunkEnd(hunks[j]) <= hunks[k].at
  {
    hide OldSide;
    assert forall k :: 0 <= k < |hunks| ==> HunkEnd(hunks[k]) <= |file|;
  }

  /** A plan whose updates were all placed in the files they name. */
  ghost predicate SoundPlan(plan: map<string, Parsed>, files: map<string, string>, fuzz: nat) {
    forall path :: path in plan ==>
      match plan[path]
      case ParsedUpdate(hunks, _) => path in files && Placed(Split(files[path]), hunks, fuzz)
      case ParsedDelete => path in files
      case ParsedAdd(_) => path !in files
  }

  lemma MoreFuzz(plan: map<string, Parsed>, files: map<string, string>, fuzz: nat, more: nat)
    requires SoundPlan(plan, files, fuzz) && fuzz <= more
    ensures SoundPlan(plan, files, more)
  {
  }

  lemma EntrySound(lines: seq<string>, files: map<string, string>, s: ParseState)
    requires s.index < |lines| && ParseEntry(lines, files, s).Ok? && SoundPlan(s.plan, files, s.fuzz)
    ensures
      var r := ParseEntry(lines, files, s).value;
      SoundPlan(r.plan, files, r.fuzz)
  {
    hide ReadStr, Split, ParseAdd, Placed, ParseUpdate;
    var r := ParseEntry(lines, files, s).value;
    var updated := ReadStr(lines, s.index, UPDATE_FILE);
    if updated.text != "" {
      var file := Split(files[updated.text]);
      var c := Cursor(ReadStr(lines, updated.next, MOVE_TO).next, 0, s.fuzz, []);
      NothingPlaced(file, s.fuzz);
      UpdatePlaces(lines, file, c);
      MoreFuzz(s.plan, files, s.fuzz, r.fuzz);
    }
  }

  lemma NothingPlaced(file: seq<string>, fuzz: nat)
    ensures Placed(file, [], fuzz)
  {
  }

  lemma {:induction false} EntriesSound(lines: seq<string>, files: map<string, string>, s: ParseState)
    requires s.index <= |lines| && ParseEntries(lines, files, s).Ok? && SoundPlan(s.plan, files, s.fuzz)
    ensures
      var r := ParseEntries(lines, files, s).value;
      SoundPlan(r.plan, files, r.fuzz)
    decreases |lines| - s.index
  {
    hide ParseEntry, SoundPlan, Done;
    if !Done(lines, s.index, [END_PATCH]) {
      EntrySound(lines, files, s);
      EntriesSound(lines, files, ParseEntry(lines, files, s).value);
    }
  }

  /** Every accepted patch: its updates are placed in files that exist, its deletes
      name files that exist, its adds name files that do not. */
  lemma AcceptedPatchIsSound(text: string, files: map<string, string>)
    requires PlanOf(text, files).Ok?
    ensures
      var plan := PlanOf(text, files).value;
      SoundPlan(plan.entries, files, plan.fuzz)
  {
    hide ParseEntries;
    EntriesSound(PatchLines(text), files, ParseState(1, 0, map[]));
  }

  /** No end-of-file section edits before the end of an earlier section's edits. */
  predicate EofEditsBehind(hunks: seq<Hunk>) {
    forall j, k :: 0 <= j < k < |hunks| && hunks[k].eof ==> EditsBehind(hunks[j], hunks[k])
  }

  /** Only end-of-file sections can edit out of order. */
  lemma EditsInOrderIff(file: seq<string>, hunks: seq<Hunk>, fuzz: nat)
    requires Placed(file, hunks, fuzz)
    ensures EditsInOrder(hunks) <==> EofEditsBehind(hunks)
  {
    hide OldSide, MatchesAt, HasEdit, EditStart, EditEnd;
    forall j, k | 0 <= j < k < |hunks| && !hunks[k].eof ensures EditsBehind(hunks[j], hunks[k]) {
      EditsInside(hunks[j].ops);
    }
  }

  lemma {:induction false} EditsInside(ops: seq<Op>)
    ensures EditEnd(ops) <= |OldSide(ops)|
  {
    if ops != [] {
      EditsInside(ops[..|ops| - 1]);
    }
  }

  /** The chunk comes from a section and cuts lines of the file that match the
      section's deleted lines at its level; without fuzz, equal ones. */
  ghost predicate CutsMatching(file: seq<string>, hunks: seq<Hunk>, c: Chunk, fuzz: nat) {
    exists k :: 0 <= k < |hunks| && ComesFrom(c, hunks[k]) && CutsAtLevel(file, c, hunks[k].level, fuzz)
  }

  ghost predicate CutsAtLevel(file: seq<string>, c: Chunk, level: Level, fuzz: nat) {
    && ChunkEnd(c) <= |file|
    && forall j :: 0 <= j < |c.delLines| ==>
         Same(level, file[c.origIndex + j], c.delLines[j]) && (fuzz == 0 ==> file[c.origIndex + j] == c.delLines[j])
  }

  lemma SectionCuts(file: seq<string>, h: Hunk, c: Chunk, fuzz: nat)
    requires MatchesAt(h.level, file, OldSide(h.ops), h.at) && (fuzz == 0 ==> h.level == Exact) && ComesFrom(c, h)
    ensures CutsAtLevel(file, c, h.level, fuzz)
  {
    hide OldSide;
    var offset := c.origIndex - h.at;
    forall j | 0 <= j < |c.delLines|
      ensures Same(h.level, file[c.origIndex + j], c.delLines[j])
    {
      assert c.delLines[j] == OldSide(h.ops)[offset + j];
      assert Same(h.level, file[h.at + (offset + j)], OldSide(h.ops)[offset + j]);
    }
  }

  lemma ChunkCutsMatching(file: seq<string>, hunks: seq<Hunk>, fuzz: nat, k: nat)
    requires Placed(file, hunks, fuzz) && k < |HunkChunks(hunks)|
    ensures CutsMatching(file, hunks, HunkChunks(hunks)[k], fuzz)
  {
    hide OldSide, HunkChunks, ComesFrom, MatchesAt, CutsAtLevel;
    ChunkComesFromSection(hunks, k);
    var c := HunkChunks(hunks)[k];
    var j :| 0 <= j < |hunks| && ComesFrom(c, hunks[j]);
    SectionCuts(file, hunks[j], c, fuzz);
  }

  /** The main safety result, for every accepted update. Its sections lie where they
      match. The splice succeeds exactly when no end-of-file section edits before the
      end of an earlier section's edits. It then writes the file with exactly the
      chunks' ranges cut and their lines inserted. Each chunk cuts lines that match
      its section's deleted lines at the level found, byte for byte if the total fuzz
      is 0; and together the chunks are all the sections' deletions and insertions. */
  lemma AcceptedUpdateIsFaithful(text: string, files: map<string, string>, path: string, hunks: seq<Hunk>)
    requires PlanOf(text, files).Ok? && path in PlanOf(text, files).value.entries
    requires PlanOf(text, files).value.entries[path].ParsedUpdate?
    requires hunks == PlanOf(text, files).value.entries[path].hunks
    ensures path in files
    ensures
      var file, chunks, fuzz := Split(files[path]), HunkChunks(hunks), PlanOf(text, files).value.fuzz;
      && Placed(file, hunks, fuzz)
      && (Updated(file, chunks).Ok? <==> EofEditsBehind(hunks))
      && (Updated(file, chunks).Ok? ==>
            Updated(file, chunks).value == CutAndSpliced(file, chunks)
            && |CutAndSpliced(file, chunks)| + Deleted(chunks) == |file| + Inserted(chunks))
      && (forall k :: 0 <= k < |chunks| ==> CutsMatching(file, hunks, chunks[k], fuzz))
      && AllDeleted(chunks) == HunkDeletes(hunks) && AllInserted(chunks) == HunkInserts(hunks)
  {
    hide PlanOf, Split, ChunksFit, Updated, CutsMatching, HunkChunks, EditsInOrder, EofEditsBehind, CutAndSpliced;
    AcceptedPatchIsSound(text, files);
    var plan := PlanOf(text, files).value;
    var file, chunks := Split(files[path]), HunkChunks(hunks);
    assert path in files && Placed(file, hunks, plan.fuzz);
    EndsInside(file, hunks, plan.fuzz);
    hide Placed;
    EditsInOrderIff(file, hunks, plan.fuzz);
    SectionsFitIff(hunks, |file|);
    UpdatedOkIff(file, chunks);
    if Updated(file, chunks).Ok? {
      SpliceIsCutAndSpliced(file, chunks);
    }
    forall k | 0 <= k < |chunks| ensures CutsMatching(file, hunks, chunks[k], plan.fuzz) {
      ChunkCutsMatching(file, hunks, plan.fuzz, k);
    }
    ChunksAreTheEdits(hunks);
  }

  lemma EndsInside(file: seq<string>, hunks: seq<Hunk>, fuzz: nat)
    requires Placed(file, hunks, fuzz)
    ensures forall k :: 0 <= k < |hunks| ==> HunkEnd(hunks[k]) <= |file|
  {
    hide OldSide;
  }

  /** With end-of-file sections, context included, behind the earlier ones, what is
      written is the replay of the sections. */
  lemma InOrderUpdateIsReplay(text: string, files: map<string, string>, path: string, hunks: seq<Hunk>)
    requires PlanOf(text, files).Ok? && path in PlanOf(text, files).value.entries
    requires PlanOf(text, files).value.entries[path].ParsedUpdate?
    requires hunks == PlanOf(text, files).value.entries[path].hunks
    requires forall j, k :: 0 <= j < k < |hunks| && hunks[k].eof ==> HunkEnd(hunks[j]) <= hunks[k].at
    ensures path in files && InOrder(hunks, |Split(files[path])|)
    ensures Updated(Split(files[path]), HunkChunks(hunks)) == Ok(Edited(Split(files[path]), hunks))
  {
    hide PlanOf, Split, Updated, Edited;
    AcceptedPatchIsSound(text, files);
    var plan := PlanOf(text, files).value;
    var file := Split(files[path]);
    assert path in files && Placed(file, hunks, plan.fuzz);
    InOrderIff(file, hunks, plan.fuzz);
    UpdateMeaning(file, hunks);
  }

  // ------------------------------------------------ turns that never advance

  /** A line that ends a section but opens none: neither "@@" nor "@@ ...". */
  predicate Stuck(line: string) {
    EndsSection(line) && !HasPrefix(line, "@@ ") && line != "@@"
  }

  /** A turn leaves the patch cursor where it was exactly when the file cursor is
      at 0 and the line opens no section. It then changes nothing at all, so the
      engine takes the same turn for ever. */
  lemma StuckTurnRepeats(lines: seq<string>, file: seq<string>, c: Cursor)
    requires c.pos < |lines| && c.at <= |file| && !Done(lines, c.pos, UPDATE_ENDS)
    ensures
      var r := Turn(lines, file, c);
      && (r.Ok? && r.value.pos == c.pos <==> c.at == 0 && Stuck(lines[c.pos]))
      && (r.Ok? && r.value.pos == c.pos ==>
            r.value.at == c.at && r.value.fuzz == c.fuzz && HunkChunks(r.value.hunks) == HunkChunks(c.hunks))
  {
    hide HunkChunks, ChunksOf, FindCore, LocateDef;
    var line := lines[c.pos];
    assert line != END_OF_FILE by {
      assert HasPrefix(END_OF_FILE, UPDATE_ENDS[4]);
    }
    var h := ReadHeader(lines, c.pos);
    if h.body == c.pos {
      assert h == Header("", false, c.pos);
      assert !HasPrefix(line, "@@ ") && line != "@@";
      if c.at == 0 && Stuck(line) {
        assert SectionEnd(lines, c.pos) == c.pos;
        assert lines[c.pos..c.pos] == [];
        var section := PeekSection(lines, c.pos);
        assert section == Section([], c.pos, false);
        NoName(file, 0);
        NoContext(file);
        NoChunks(c.hunks, Hunk(0, [], Exact, false));
      } else if c.at == 0 {
        assert SectionEnd(lines, c.pos) > c.pos;
      }
    } else {
      assert HasPrefix(line, "@@ ") || line == "@@";
    }
  }

  lemma NoName(file: seq<string>, at: nat)
    requires at <= |file|
    ensures LocateDef(file, "", at) == Located(at, 0)
  {
  }

  lemma NoContext(file: seq<string>)
    ensures FindContext(file, [], 0, false) == Ok(Some(Hit(0, Exact, 0)))
  {
  }

  lemma NoChunks(hunks: seq<Hunk>, h: Hunk)
    requires h.ops == []
    ensures HunkChunks(hunks + [h]) == HunkChunks(hunks)
  {
    assert (hunks + [h])[..|hunks|] == hunks;
    assert ChunksOf([]) == [];
  }

  // ------------------------------------------------------- the best match

  /** Each comparison level accepts what the level before it accepts. */
  lemma LevelsNest(a: string, b: string)
    ensures Same(Exact, a, b) ==> Same(RightTrimmed, a, b)
    ensures Same(RightTrimmed, a, b) ==> Same(Trimmed, a, b)
  {
    hide TrimRight, TrimSpace;
    TrimSpaceAbsorbsBlanks(a);
    TrimSpaceAbsorbsBlanks(b);
  }

  function Rank(level: Level): nat {
    match level
    case Exact => 0
    case RightTrimmed => 1
    case Trimmed => 2
  }

  /** Whatever matches from `start` on, the search finds a place, and none that
      matches at a stricter level or earlier at the same level. */
  lemma FindCoreIsBest(lines: seq<string>, context: seq<string>, start: nat, level: Level, i: nat)
    requires context != [] && start <= i < |lines| && MatchesAt(level, lines, context, i)
    ensures FindCore(lines, context, start).Some?
    ensures
      var hit := FindCore(lines, context, start).value;
      Rank(hit.level) < Rank(level) || (hit.level == level && hit.at <= i)
  {
    hide FirstMatch, FuzzOf, MatchesAt;
    assert FirstMatch(level, lines, context, start).Some?;
  }

  /** The file has a line that the header names, up to surrounding white space. */
  predicate NamesLine(file: seq<string>, def: string) {
    TrimSpace(def) != "" && exists i :: 0 <= i < |file| && Same(Trimmed, file[i], def)
  }

  /** From `pos` on, sections that find nothing in the file and expect nothing of
      it lead to a line that opens no section. */
  predicate DriftsToStuck(lines: seq<string>, file: seq<string>, pos: nat)
    requires pos <= |lines|
    decreases |lines| - pos
  {
    if Done(lines, pos, UPDATE_ENDS) then false
    else if Stuck(lines[pos]) then true
    else
      var h := ReadHeader(lines, pos);
      var section := PeekSection(lines, h.body);
      && !NamesLine(file, h.def) && OldSide(section.ops) == [] && !section.eof
      && section.next > pos && DriftsToStuck(lines, file, section.next)
  }

  /** A header leaves the cursor at the top exactly when it names no line. */
  lemma LocateAtTop(file: seq<string>, def: string)
    ensures LocateDef(file, def, 0).at == 0 <==> !NamesLine(file, def)
  {
    if TrimSpace(def) != "" {
      forall i | 0 <= i < |file|
        ensures MatchesAt(Trimmed, file, [def], i) <==> Same(Trimmed, file[i], def)
        ensures MatchesAt(Exact, file, [def], i) ==> MatchesAt(Trimmed, file, [def], i)
      {
        assert MatchesAt(Trimmed, file, [def], i) ==> Same(Trimmed, file[i + 0], [def][0]);
        assert MatchesAt(Exact, file, [def], i) ==> Same(Exact, file[i + 0], [def][0]);
      }
      assert file[..0] == [];
    }
  }

  /** Once the file cursor has left the top it stays off it. */
  lemma StaysOffTop(lines: seq<string>, file: seq<string>, c: Cursor)
    requires c.pos < |lines| && c.at <= |file| && file != [] && Turn(lines, file, c).Ok?
    ensures c.at > 0 ==> Turn(lines, file, c).value.at > 0
    ensures
      var h := ReadHeader(lines, c.pos);
      var section := PeekSection(lines, h.body);
      c.at == 0 ==>
        (Turn(lines, file, c).value.at == 0 <==> !NamesLine(file, h.def) && OldSide(section.ops) == [] && !section.eof)
  {
    hide PeekSection, ReadHeader, LocateDef, NamesLine, OldSide, FirstMatch;
    var h := ReadHeader(lines, c.pos);
    LocateAtTop(file, h.def);
  }

  /** Exactly when an update makes the engine loop for ever: something a caller
      can read off the patch and the file. */
  lemma {:induction false} UpdateDivergesIff(lines: seq<string>, file: seq<string>, c: Cursor)
    requires c.pos <= |lines| && c.at <= |file| && file != []
    ensures ParseUpdate(lines, file, c).Diverge? <==> c.at == 0 && DriftsToStuck(lines, file, c.pos)
    decreases |lines| - c.pos
  {
    hide Turn, Stuck, PeekSection, ReadHeader, NamesLine, OldSide, HunkChunks;
    if !Done(lines, c.pos, UPDATE_ENDS) {
      StuckTurnRepeats(lines, file, c);
      var turn := Turn(lines, file, c);
      if c.at == 0 && !Stuck(lines[c.pos]) {
        TurnAtTop(lines, file, c);
      }
      if turn.Ok? && turn.value.pos != c.pos {
        StaysOffTop(lines, file, c);
        UpdateDivergesIff(lines, file, turn.value);
      }
    }
  }

  /** At the top of the file a section that expects nothing of the file always succeeds. */
  lemma TurnAtTop(lines: seq<string>, file: seq<string>, c: Cursor)
    requires c.pos < |lines| && c.at == 0
    ensures
      var section := PeekSection(lines, ReadHeader(lines, c.pos).body);
      && (OldSide(section.ops) == [] ==> Turn(lines, file, c).Ok?)
      && (Turn(lines, file, c).Ok? ==> Turn(lines, file, c).value.pos == section.next)
  {
    hide PeekSection, ReadHeader, LocateDef, OldSide;
  }

  /** Inside an envelope a turn panics exactly when it reaches an end-of-file
      section that names more lines than the file has. */
  lemma TurnPanicsIff(lines: seq<string>, file: seq<string>, c: Cursor)
    requires HasEnvelope(lines) && c.pos < |lines| && c.at <= |file| && !Done(lines, c.pos, UPDATE_ENDS)
    ensures
      var h := ReadHeader(lines, c.pos);
      var section := PeekSection(lines, h.body);
      Turn(lines, file, c).Panic? <==>
        (h.def != "" || h.bare || c.at == 0) && section.eof && |OldSide(section.ops)| > |file|
  {
    hide PeekSection, LocateDef, OldSide;
    BodyInside(lines, c.pos);
  }

  /** From `pos` on, with the file cursor at `at`, sections that are found lead to an
      end-of-file section that names more lines than the file has. */
  predicate MeetsLongSection(lines: seq<string>, file: seq<string>, pos: nat, at: nat)
    requires pos <= |lines| && at <= |file|
    decreases |lines| - pos
  {
    if Done(lines, pos, UPDATE_ENDS) then false
    else
      var h := ReadHeader(lines, pos);
      var section := PeekSection(lines, h.body);
      && (h.def != "" || h.bare || at == 0)
      && if section.eof && |OldSide(section.ops)| > |file| then true
         else
           var found := FindContext(file, OldSide(section.ops), LocateDef(file, h.def, at).at, section.eof);
           && found.Ok? && found.value.Some? && section.next > pos
           && MeetsLongSection(lines, file, section.next, found.value.value.at + |OldSide(section.ops)|)
  }

  /** Exactly when an update panics: the sections before an end-of-file section that
      is longer than the file are all found. The condition searches the file as the
      parser does; PatchAnswers.WellMarkedPatchAnswers gives one to be read off the text. */
  lemma {:induction false} UpdatePanicsIff(lines: seq<string>, file: seq<string>, c: Cursor)
    requires HasEnvelope(lines) && c.pos <= |lines| && c.at <= |file|
    ensures ParseUpdate(lines, file, c).Panic? <==> MeetsLongSection(lines, file, c.pos, c.at)
    decreases |lines| - c.pos
  {
    hide PeekSection, LocateDef, OldSide, FindContext, ReadHeader, HasEnvelope;
    if !Done(lines, c.pos, UPDATE_ENDS) {
      TurnPanicsIff(lines, file, c);
      var turn := Turn(lines, file, c);
      if turn.Ok? && turn.value.pos != c.pos {
        UpdatePanicsIff(lines, file, turn.value);
      }
    }
  }

  lemma BodyInside(lines: seq<string>, pos: nat)
    requires HasEnvelope(lines) && pos < |lines| && !Done(lines, pos, UPDATE_ENDS)
    ensures ReadHeader(lines, pos).body < |lines|
  {
    assert pos == |lines| - 1 ==> HasPrefix(lines[pos], UPDATE_ENDS[0]);
    assert END_PATCH[0] == '*' && "@@"[0] == '@';
    assert lines[|lines| - 1] != "@@";
  }
}
