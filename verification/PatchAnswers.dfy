/** When parsing a patch is sure to answer, with a plan or with an error. */
module PatchAnswers {
  import opened Text
  import opened PatchModel
  import opened PatchSafety

  /** The line opens a section, ends one as a marker the engine knows, or is a
      move line directly under an update line. */
  predicate Recognised(lines: seq<string>, k: nat)
    requires 0 < k < |lines|
  {
    Stuck(lines[k]) && !HasAnyPrefix(lines[k], UPDATE_ENDS) ==>
      HasPrefix(lines[k], MOVE_TO) && HasPrefix(lines[k - 1], UPDATE_FILE)
  }

  ghost predicate WellMarked(lines: seq<string>) {
    forall k :: 0 < k < |lines| ==> Recognised(lines, k)
  }

  /** No file marker stands on a line from `from` up to `to`. */
  ghost predicate SameEntry(lines: seq<string>, from: nat, to: nat) {
    forall k :: from <= k < to && k < |lines| ==> !HasAnyPrefix(lines[k], FILE_ENDS)
  }

  /** Below line `from`, up to the next file marker, no run of section lines before an
      end-of-file marker is longer than the file. */
  ghost predicate SectionsFit(lines: seq<string>, file: seq<string>, from: nat) {
    forall k: nat :: from <= k <= |lines| && SameEntry(lines, from, k) && PeekSection(lines, k).eof ==>
      |OldSide(PeekSection(lines, k).ops)| <= |file|
  }

  /** Every update's end-of-file sections fit the file it updates. */
  ghost predicate EofFits(lines: seq<string>, files: map<string, string>) {
    forall k: nat, path :: k < |lines| && path in files && lines[k] == UPDATE_FILE + path ==>
      SectionsFit(lines, Split(files[path]), k + 1)
  }

  predicate Answers<T>(r: Outcome<T>) {
    r.Ok? || r.Err?
  }

  /** The markers differ from one another; each ends a section. */
  lemma Markers(line: string)
    ensures HasPrefix(line, UPDATE_FILE) ==> EndsSection(line) && HasAnyPrefix(line, UPDATE_ENDS)
    ensures HasPrefix(line, UPDATE_FILE) ==> !HasPrefix(line, MOVE_TO) && line != END_OF_FILE && !HasPrefix(line, "@@")
    ensures line == END_OF_FILE ==> HasAnyPrefix(line, UPDATE_ENDS) && !HasPrefix(line, MOVE_TO)
    ensures line == END_PATCH ==> EndsSection(line) && HasAnyPrefix(line, UPDATE_ENDS) && HasAnyPrefix(line, FILE_ENDS)
    ensures line == END_PATCH ==> line != END_OF_FILE && !HasPrefix(line, "@@") && HasPrefix(line, END_PATCH)
    ensures line == END_PATCH ==> !HasPrefix(line, UPDATE_FILE) && !HasPrefix(line, DELETE_FILE)
    ensures line == END_PATCH ==> !HasPrefix(line, ADD_FILE) && !HasPrefix(line, MOVE_TO)
    ensures HasPrefix(line, "@@ ") ==> HasPrefix(line, "@@")
  {
    assert UPDATE_FILE[4] == 'U' && MOVE_TO[4] == 'M' && END_OF_FILE[4] == 'E' && DELETE_FILE[4] == 'D' && ADD_FILE[4] == 'A';
    assert END_OF_FILE[8] == 'o' && END_PATCH[8] == 'P' && END_PATCH[4] == 'E';
    assert HasPrefix(UPDATE_FILE, "*** Update File:") && HasPrefix(UPDATE_FILE, "***");
    if HasPrefix(line, UPDATE_FILE) {
      assert HasPrefix(line, UPDATE_ENDS[1]);
      assert line[4] == 'U' && line[0] == '*';
    }
    if line == END_OF_FILE {
      assert HasPrefix(line, UPDATE_ENDS[4]);
    }
    if line == END_PATCH {
      assert HasPrefix(line, UPDATE_ENDS[0]) && HasPrefix(line, FILE_ENDS[0]);
      assert HasPrefix(line, "***") && line[0] == '*';
    }
  }

  /** A section ends before the patch's last line, and behind no update line. */
  lemma SectionStops(lines: seq<string>, body: nat)
    requires HasEnvelope(lines) && body < |lines|
    ensures
      var next := PeekSection(lines, body).next;
      && next < |lines|
      && (next > body ==> !HasPrefix(lines[next - 1], UPDATE_FILE))
  {
    hide OpsOf, HasPrefix, HasAnyPrefix;
    Markers(lines[|lines| - 1]);
    var next := PeekSection(lines, body).next;
    if next > body {
      Markers(lines[next - 1]);
    }
  }

  lemma TurnEnds(lines: seq<string>, file: seq<string>, c: Cursor)
    requires c.pos < |lines| && c.at <= |file| && Turn(lines, file, c).Ok?
    ensures Turn(lines, file, c).value.pos == PeekSection(lines, ReadHeader(lines, c.pos).body).next
  {
    hide LocateDef, FindContext, OldSide, PeekSection, ReadHeader;
  }

  /** Where a turn stops: before the last line, and not just under an update line. */
  lemma TurnStops(lines: seq<string>, file: seq<string>, c: Cursor)
    requires HasEnvelope(lines) && c.pos < |lines| && c.at <= |file| && !Done(lines, c.pos, UPDATE_ENDS)
    requires Turn(lines, file, c).Ok? && Turn(lines, file, c).value.pos > c.pos
    ensures Turn(lines, file, c).value.pos < |lines|
    ensures !HasPrefix(lines[Turn(lines, file, c).value.pos - 1], UPDATE_FILE)
  {
    hide *;
    BodyInside(lines, c.pos);
    TurnEnds(lines, file, c);
    var body := ReadHeader(lines, c.pos).body;
    SectionStops(lines, body);
    if PeekSection(lines, body).next == body {
      HeaderLine(lines, c.pos);
      Markers(lines[body - 1]);
    }
  }

  lemma HeaderLine(lines: seq<string>, pos: nat)
    requires pos < |lines| && ReadHeader(lines, pos).body > pos
    ensures HasPrefix(lines[ReadHeader(lines, pos).body - 1], "@@")
  {
    var h := ReadHeader(lines, pos);
    var r := ReadStr(lines, pos, "@@ ");
    if h.bare {
      assert lines[h.body - 1] == "@@";
    } else {
      Markers(lines[pos]);
    }
  }

  /** A line that is no file marker and ends no update is none the update passes. */
  lemma NotFileEnd(line: string)
    ensures !EndsSection(line) || HasPrefix(line, "@@") || line == END_OF_FILE ==> !HasAnyPrefix(line, FILE_ENDS)
    ensures !HasAnyPrefix(line, UPDATE_ENDS) || HasPrefix(line, MOVE_TO) ==> !HasAnyPrefix(line, FILE_ENDS)
  {
    forall k | 0 <= k < |FILE_ENDS| && HasPrefix(line, FILE_ENDS[k])
      ensures EndsSection(line) && !HasPrefix(line, "@@") && line != END_OF_FILE
      ensures HasAnyPrefix(line, UPDATE_ENDS) && !HasPrefix(line, MOVE_TO)
    {
      MarkedLine(line, k);
    }
  }

  lemma MarkedLine(line: string, k: nat)
    requires k < |FILE_ENDS| && HasPrefix(line, FILE_ENDS[k])
    ensures EndsSection(line) && !HasPrefix(line, "@@") && line != END_OF_FILE
    ensures HasAnyPrefix(line, UPDATE_ENDS) && !HasPrefix(line, MOVE_TO)
  {
    assert FILE_ENDS[k] == UPDATE_ENDS[k] && HasPrefix(line, UPDATE_ENDS[k]);
    assert HasPrefix(FILE_ENDS[k], "***") && FILE_ENDS[k][8] != 'o' && FILE_ENDS[k][4] != 'M';
    assert line[0] == '*' && line[8] == FILE_ENDS[k][8] && line[4] == FILE_ENDS[k][4];
    assert END_OF_FILE[8] == 'o' && MOVE_TO[4] == 'M' && "@@"[0] == '@';
    assert HasPrefix(line, "***");
  }

  /** A turn's lines hold no file marker. */
  lemma TurnSameEntry(lines: seq<string>, file: seq<string>, c: Cursor)
    requires HasEnvelope(lines) && c.pos < |lines| && c.at <= |file| && !Done(lines, c.pos, UPDATE_ENDS)
    ensures SameEntry(lines, c.pos, ReadHeader(lines, c.pos).body)
    ensures Turn(lines, file, c).Ok? ==> SameEntry(lines, c.pos, Turn(lines, file, c).value.pos)
  {
    assert HasPrefix("@@", "@@");
    hide OldSide, LocateDef, FindContext, HasAnyPrefix, EndsSection, HasPrefix;
    var body := ReadHeader(lines, c.pos).body;
    var next := PeekSection(lines, body).next;
    forall k | c.pos <= k < next && k < |lines| ensures !HasAnyPrefix(lines[k], FILE_ENDS) {
      NotFileEnd(lines[k]);
      if k < body {
        assert k == c.pos || lines[k] == "@@";
      }
    }
  }

  lemma SameEntryJoins(lines: seq<string>, from: nat, mid: nat, to: nat)
    requires SameEntry(lines, from, mid) && SameEntry(lines, mid, to)
    ensures SameEntry(lines, from, to)
  {
  }

  lemma {:induction false} UpdateAnswers(lines: seq<string>, file: seq<string>, c: Cursor, from: nat)
    requires HasEnvelope(lines) && WellMarked(lines)
    requires 0 < c.pos < |lines| && c.at <= |file|
    requires from <= c.pos && SectionsFit(lines, file, from) && SameEntry(lines, from, c.pos)
    requires HasPrefix(lines[c.pos], MOVE_TO) ==> !HasPrefix(lines[c.pos - 1], UPDATE_FILE)
    ensures Answers(ParseUpdate(lines, file, c))
    ensures ParseUpdate(lines, file, c).Ok? ==> ParseUpdate(lines, file, c).value.pos < |lines|
    decreases |lines| - c.pos
  {
    hide Turn, PeekSection, OldSide, Stuck, ReadHeader, SameEntry, HasEnvelope;
    if !Done(lines, c.pos, UPDATE_ENDS) {
      assert Recognised(lines, c.pos);
      StuckTurnRepeats(lines, file, c);
      TurnPanicsIff(lines, file, c);
      TurnSameEntry(lines, file, c);
      SameEntryJoins(lines, from, c.pos, ReadHeader(lines, c.pos).body);
      var turn := Turn(lines, file, c);
      if turn.Ok? {
        TurnStops(lines, file, c);
        SameEntryJoins(lines, from, c.pos, turn.value.pos);
        UpdateAnswers(lines, file, turn.value, from);
      }
    }
  }

  lemma {:induction false} AddAnswers(lines: seq<string>, index: nat, sofar: seq<string>)
    requires HasEnvelope(lines) && index < |lines|
    ensures Answers(ParseAdd(lines, index, sofar))
    ensures ParseAdd(lines, index, sofar).Ok? ==> ParseAdd(lines, index, sofar).value.next < |lines|
    decreases |lines| - index
  {
    if !Done(lines, index, FILE_ENDS) && HasPrefix(lines[index], "+") {
      Markers(lines[|lines| - 1]);
      AddAnswers(lines, index + 1, sofar + [lines[index][1..]]);
    }
  }

  /** Reading one of the entry prefixes never moves past the last line. */
  lemma ReadInside(lines: seq<string>, index: nat, prefix: string)
    requires HasEnvelope(lines) && index < |lines| && prefix in [UPDATE_FILE, DELETE_FILE, ADD_FILE, MOVE_TO]
    ensures ReadStr(lines, index, prefix).next < |lines|
  {
    Markers(lines[|lines| - 1]);
  }

  lemma EofFitsAt(lines: seq<string>, files: map<string, string>, k: nat, path: string)
    requires EofFits(lines, files) && k < |lines| && path in files && lines[k] == UPDATE_FILE + path
    ensures SectionsFit(lines, Split(files[path]), k + 1)
  {
    hide SectionsFit, Split;
  }

  /** Below an update line and its move line, if any. */
  lemma BelowMove(lines: seq<string>, k: nat, path: string)
    requires k + 1 < |lines| && lines[k] == UPDATE_FILE + path
    ensures
      var next := ReadStr(lines, k + 1, MOVE_TO).next;
      && k + 1 <= next && SameEntry(lines, k + 1, next)
      && (next < |lines| && HasPrefix(lines[next], MOVE_TO) ==> !HasPrefix(lines[next - 1], UPDATE_FILE))
  {
    hide HasAnyPrefix;
    NotFileEnd(lines[k + 1]);
    Markers(lines[k + 1]);
  }

  /** An update entry, from the line below its marker. */
  lemma UpdateEntryAnswers(lines: seq<string>, files: map<string, string>, k: nat, path: string, fuzz: nat)
    requires HasEnvelope(lines) && WellMarked(lines) && EofFits(lines, files)
    requires k + 1 < |lines| && lines[k] == UPDATE_FILE + path && path in files
    ensures
      var r := ParseUpdate(lines, Split(files[path]), Cursor(ReadStr(lines, k + 1, MOVE_TO).next, 0, fuzz, []));
      Answers(r) && (r.Ok? ==> r.value.pos < |lines|)
  {
    hide *;
    ReadInside(lines, k + 1, MOVE_TO);
    BelowMove(lines, k, path);
    var next := ReadStr(lines, k + 1, MOVE_TO).next;
    assert SectionsFit(lines, Split(files[path]), k + 1) by { EofFitsAt(lines, files, k, path); }
    UpdateAnswers(lines, Split(files[path]), Cursor(next, 0, fuzz, []), k + 1);
  }

  lemma EntryAnswers(lines: seq<string>, files: map<string, string>, s: ParseState)
    requires HasEnvelope(lines) && WellMarked(lines) && EofFits(lines, files)
    requires 0 < s.index < |lines|
    ensures Answers(ParseEntry(lines, files, s))
    ensures ParseEntry(lines, files, s).Ok? ==> ParseEntry(lines, files, s).value.index < |lines|
  {
    hide ParseUpdate, ParseAdd, Split, HasEnvelope, WellMarked, EofFits, HasPrefix;
    ReadInside(lines, s.index, UPDATE_FILE);
    var updated := ReadStr(lines, s.index, UPDATE_FILE);
    if updated.text != "" {
      if updated.text in files {
        UpdateEntryAnswers(lines, files, s.index, updated.text, s.fuzz);
      }
    } else {
      ReadInside(lines, updated.next, DELETE_FILE);
      var deleted := ReadStr(lines, updated.next, DELETE_FILE);
      ReadInside(lines, deleted.next, ADD_FILE);
      AddAnswers(lines, ReadStr(lines, deleted.next, ADD_FILE).next, []);
    }
  }

  lemma {:induction false} EntriesAnswer(lines: seq<string>, files: map<string, string>, s: ParseState)
    requires HasEnvelope(lines) && WellMarked(lines) && EofFits(lines, files)
    requires 0 < s.index < |lines|
    ensures Answers(ParseEntries(lines, files, s))
    decreases |lines| - s.index
  {
    hide ParseEntry, WellMarked, EofFits, HasEnvelope;
    if !Done(lines, s.index, [END_PATCH]) {
      EntryAnswers(lines, files, s);
      if ParseEntry(lines, files, s).Ok? {
        EntriesAnswer(lines, files, ParseEntry(lines, files, s).value);
      }
    }
  }

  /** Parsing answers every text whose section and file markers are recognised and
      whose end-of-file sections fit the file they update: it neither loops nor reads
      outside the patch or a file. */
  lemma WellMarkedPatchAnswers(text: string, files: map<string, string>)
    requires HasEnvelope(PatchLines(text)) ==> WellMarked(PatchLines(text)) && EofFits(PatchLines(text), files)
    ensures Answers(PlanOf(text, files))
  {
    hide ParseEntries, WellMarked, EofFits;
    if HasEnvelope(PatchLines(text)) {
      EntriesAnswer(PatchLines(text), files, ParseState(1, 0, map[]));
    }
  }

  // ------------------------------------------------------------------ keys

  /** Every file of a plan is named by a line of the patch, under the right marker. */
  ghost predicate Listed(lines: seq<string>, plan: map<string, Parsed>) {
    forall path :: path in plan ==>
      match plan[path]
      case ParsedUpdate(_, _) => UPDATE_FILE + path in lines
      case ParsedDelete => DELETE_FILE + path in lines
      case ParsedAdd(_) => ADD_FILE + path in lines
  }

  lemma EntryListed(lines: seq<string>, files: map<string, string>, s: ParseState)
    requires s.index < |lines| && ParseEntry(lines, files, s).Ok? && Listed(lines, s.plan)
    ensures Listed(lines, ParseEntry(lines, files, s).value.plan)
  {
    hide ParseUpdate, ParseAdd, Split;
    var updated := ReadStr(lines, s.index, UPDATE_FILE);
    if updated.text != "" {
      assert lines[s.index] in lines;
    } else {
      var deleted := ReadStr(lines, updated.next, DELETE_FILE);
      var added := ReadStr(lines, deleted.next, ADD_FILE);
      assert deleted.text != "" ==> lines[updated.next] in lines;
      assert added.text != "" ==> lines[deleted.next] in lines;
    }
  }

  lemma {:induction false} EntriesListed(lines: seq<string>, files: map<string, string>, s: ParseState)
    requires s.index <= |lines| && ParseEntries(lines, files, s).Ok? && Listed(lines, s.plan)
    ensures Listed(lines, ParseEntries(lines, files, s).value.plan)
    decreases |lines| - s.index
  {
    hide ParseEntry, Listed, Done;
    if !Done(lines, s.index, [END_PATCH]) {
      EntryListed(lines, files, s);
      EntriesListed(lines, files, ParseEntry(lines, files, s).value);
    }
  }

  /** Updated and deleted files of an accepted patch are among the files needed,
      added files among the files added (the contracts of IdentifyFilesNeeded and
      IdentifyFilesAdded say which files those are). */
  lemma PlanFilesAreIdentified(text: string, files: map<string, string>)
    requires PlanOf(text, files).Ok?
    ensures Listed(PatchLines(text), PlanOf(text, files).value.entries)
  {
    hide ParseEntries;
    EntriesListed(PatchLines(text), files, ParseState(1, 0, map[]));
  }
}
