/** What the lines of a patch text say, read off the raw lines by their first
    character: which lines a section expects, which it deletes and which it inserts,
    and that an accepted patch plans exactly that. */
module PatchReading {
  import opened Basics
  import opened Text
  import opened PatchModel
  import opened PatchChunks
  import opened PatchSplice
  import opened PatchSafety
  import opened PatchAnswers

  /** A line that can stand in no section. */
  predicate IsMarker(s: string) {
    HasPrefix(s, "@@") || HasPrefix(s, "***")
  }

  function Minus(s: string): seq<string> {
    if HasPrefix(s, "-") then [s[1..]] else []
  }

  /** The rests of the lines that start with '-'. */
  function Minuses(raw: seq<string>): seq<string> {
    if raw == [] then [] else Minuses(raw[..|raw| - 1]) + Minus(raw[|raw| - 1])
  }

  function Plus(s: string): seq<string> {
    if HasPrefix(s, "+") then [s[1..]] else []
  }

  /** The rests of the lines that start with '+'. */
  function Pluses(raw: seq<string>): seq<string> {
    if raw == [] then [] else Pluses(raw[..|raw| - 1]) + Plus(raw[|raw| - 1])
  }

  function Expects(s: string): seq<string> {
    if HasPrefix(s, "+") || IsMarker(s) then []
    else if HasPrefix(s, "-") || HasPrefix(s, " ") then [s[1..]]
    else [s]
  }

  /** The lines that do not start with '+', a leading '-' or ' ' dropped; blank and
      unmarked lines are taken whole, markers are passed over. */
  function Expected(raw: seq<string>): seq<string> {
    if raw == [] then [] else Expected(raw[..|raw| - 1]) + Expects(raw[|raw| - 1])
  }

  // ---------------------------------------------------------------- sections

  predicate NoMarkers(raw: seq<string>) {
    forall k :: 0 <= k < |raw| ==> !IsMarker(raw[k])
  }

  /** Reading lines as operations loses and invents nothing. */
  lemma {:induction false} OpsRead(raw: seq<string>)
    requires NoMarkers(raw)
    ensures OldSide(OpsOf(raw)) == Expected(raw)
    ensures DelLines(OpsOf(raw)) == Minuses(raw) && InsLines(OpsOf(raw)) == Pluses(raw)
  {
    if raw != [] {
      var init, s := raw[..|raw| - 1], raw[|raw| - 1];
      OpsRead(init);
      assert OpsOf(raw)[..|init|] == OpsOf(init) && OpsOf(raw)[|init|] == OpOf(s);
      OpReads(s);
      hide OpOf, Expects, Minus, Plus;
    }
  }

  lemma OpReads(s: string)
    requires !IsMarker(s)
    ensures
      var op := OpOf(s);
      && Expects(s) == (if op.Ins? then [] else [op.line])
      && Minus(s) == (if op.Del? then [op.line] else []) && Plus(s) == (if op.Ins? then [op.line] else [])
  {
    if s != "" {
      FirstIs(s, '+', "+");
      FirstIs(s, '-', "-");
      FirstIs(s, ' ', " ");
    }
  }

  lemma FirstIs(s: string, c: char, prefix: string)
    requires s != "" && prefix == [c]
    ensures HasPrefix(s, prefix) <==> s[0] == c
  {
    if s[0] == c {
      assert s[..1] == prefix;
    }
  }

  /** Where a section ends, by its markers. */
  predicate EndsAt(lines: seq<string>, from: nat, end: nat, next: nat, eof: bool) {
    && from <= end <= |lines| && NoMarkers(lines[from..end])
    && (end < |lines| ==> IsMarker(lines[end]))
    && (eof <==> end < |lines| && lines[end] == "*** End of File")
    && next == if eof then end + 1 else end
  }

  /** What reading a section gives: the lines it expects, the chunks of its marked
      lines, and where it ends. */
  ghost predicate SectionSays(
    lines: seq<string>, from: nat, context: seq<string>, chunks: seq<Chunk>, next: nat, eof: bool)
  {
    var end := if eof && next > 0 then next - 1 else next;
    && EndsAt(lines, from, end, next, eof)
    && context == Expected(lines[from..end])
    && AllDeleted(chunks) == Minuses(lines[from..end])
    && AllInserted(chunks) == Pluses(lines[from..end])
  }

  lemma SectionEnds(lines: seq<string>, from: nat)
    requires from <= |lines|
    ensures
      var section, end := PeekSection(lines, from), SectionEnd(lines, from);
      EndsAt(lines, from, end, section.next, section.eof) && section.ops == OpsOf(lines[from..end])
  {
    hide OpsOf;
    var end := SectionEnd(lines, from);
    forall k | 0 <= k < end - from ensures !IsMarker(lines[from..end][k]) {
      assert !EndsSection(lines[from + k]);
    }
  }

  /** A section is the lines up to the next marker, with the chunks of its marked lines. */
  lemma SectionReads(lines: seq<string>, from: nat)
    requires from <= |lines|
    ensures
      var section := PeekSection(lines, from);
      SectionSays(lines, from, OldSide(section.ops), ChunksOf(section.ops), section.next, section.eof)
  {
    var section, end := PeekSection(lines, from), SectionEnd(lines, from);
    SectionEnds(lines, from);
    assert NoMarkers(lines[from..end]);
    hide *;
    OpsRead(lines[from..end]);
    ChunkTotals(section.ops);
    SaysSection(lines, from, end, OldSide(section.ops), ChunksOf(section.ops), section.next, section.eof);
  }

  lemma SaysSection(
    lines: seq<string>, from: nat, end: nat, context: seq<string>, chunks: seq<Chunk>, next: nat, eof: bool)
    requires EndsAt(lines, from, end, next, eof) && context == Expected(lines[from..end])
    requires AllDeleted(chunks) == Minuses(lines[from..end]) && AllInserted(chunks) == Pluses(lines[from..end])
    ensures SectionSays(lines, from, context, chunks, next, eof)
  {
    hide Expected, Minuses, Pluses, AllDeleted, AllInserted, IsMarker, NoMarkers;
  }

  lemma ChunkTotals(ops: seq<Op>)
    ensures AllDeleted(ChunksOf(ops)) == DelLines(ops) && AllInserted(ChunksOf(ops)) == InsLines(ops)
  {
    SectionSpans(ops);
    hide Reach, Inside, ChunksOf, AllDeleted, AllInserted, DelLines, InsLines;
  }

  // ----------------------------------------------------------------- updates

  lemma LastLine(a: seq<string>, b: seq<string>)
    requires b != []
    ensures b == b[..|b| - 1] + [b[|b| - 1]] && a + b == a + b[..|b| - 1] + [b[|b| - 1]]
  {
  }

  lemma ExpectedStep(init: seq<string>, s: string)
    ensures Expected(init + [s]) == Expected(init) + Expects(s)
  {
    hide Expects;
    assert (init + [s])[..|init|] == init;
  }

  lemma {:induction false} ExpectedJoins(a: seq<string>, b: seq<string>)
    ensures Expected(a + b) == Expected(a) + Expected(b)
    decreases |b|
  {
    if b == [] {
      assert a + b == a;
    } else {
      hide *;
      LastLine(a, b);
      ExpectedJoins(a, b[..|b| - 1]);
      ExpectedStep(a + b[..|b| - 1], b[|b| - 1]);
      ExpectedStep(b[..|b| - 1], b[|b| - 1]);
      Regroup(Expected(a), Expected(b[..|b| - 1]), Expects(b[|b| - 1]));
    }
  }

  lemma MinusesStep(init: seq<string>, s: string)
    ensures Minuses(init + [s]) == Minuses(init) + Minus(s)
  {
    hide Minus;
    assert (init + [s])[..|init|] == init;
  }

  lemma {:induction false} MinusesJoin(a: seq<string>, b: seq<string>)
    ensures Minuses(a + b) == Minuses(a) + Minuses(b)
    decreases |b|
  {
    if b == [] {
      assert a + b == a;
    } else {
      hide *;
      LastLine(a, b);
      MinusesJoin(a, b[..|b| - 1]);
      MinusesStep(a + b[..|b| - 1], b[|b| - 1]);
      MinusesStep(b[..|b| - 1], b[|b| - 1]);
      Regroup(Minuses(a), Minuses(b[..|b| - 1]), Minus(b[|b| - 1]));
    }
  }

  lemma PlusesStep(init: seq<string>, s: string)
    ensures Pluses(init + [s]) == Pluses(init) + Plus(s)
  {
    hide Plus;
    assert (init + [s])[..|init|] == init;
  }

  lemma {:induction false} PlusesJoin(a: seq<string>, b: seq<string>)
    ensures Pluses(a + b) == Pluses(a) + Pluses(b)
    decreases |b|
  {
    if b == [] {
      assert a + b == a;
    } else {
      hide *;
      LastLine(a, b);
      PlusesJoin(a, b[..|b| - 1]);
      PlusesStep(a + b[..|b| - 1], b[|b| - 1]);
      PlusesStep(b[..|b| - 1], b[|b| - 1]);
      Regroup(Pluses(a), Pluses(b[..|b| - 1]), Plus(b[|b| - 1]));
    }
  }

  lemma ReadingsJoin(lines: seq<string>, from: nat, mid: nat, to: nat)
    requires from <= mid <= to <= |lines|
    ensures Expected(lines[from..to]) == Expected(lines[from..mid]) + Expected(lines[mid..to])
    ensures Minuses(lines[from..to]) == Minuses(lines[from..mid]) + Minuses(lines[mid..to])
    ensures Pluses(lines[from..to]) == Pluses(lines[from..mid]) + Pluses(lines[mid..to])
  {
    hide *;
    assert lines[from..to] == lines[from..mid] + lines[mid..to];
    ExpectedJoins(lines[from..mid], lines[mid..to]);
    MinusesJoin(lines[from..mid], lines[mid..to]);
    PlusesJoin(lines[from..mid], lines[mid..to]);
  }

  /** Markers say nothing about the file. */
  lemma {:induction false} MarkersSayNothing(raw: seq<string>)
    requires forall k :: 0 <= k < |raw| ==> IsMarker(raw[k])
    ensures Expected(raw) == [] && Minuses(raw) == [] && Pluses(raw) == []
  {
    if raw != [] {
      MarkersSayNothing(raw[..|raw| - 1]);
      MarkerSaysNothing(raw[|raw| - 1]);
      hide Expects, Minus, Plus, IsMarker;
    }
  }

  lemma MarkerSaysNothing(s: string)
    requires IsMarker(s)
    ensures Expects(s) == [] && Minus(s) == [] && Plus(s) == []
  {
    FirstIs(s, '-', "-");
    FirstIs(s, '+', "+");
    assert s[0] == '@' || s[0] == '*';
  }

  lemma HeaderIsMarkers(lines: seq<string>, pos: nat)
    requires pos <= |lines|
    ensures forall k :: pos <= k < ReadHeader(lines, pos).body ==> IsMarker(lines[k])
  {
    forall s: string | HasPrefix(s, "@@ ") ensures HasPrefix(s, "@@") {
      assert s[..2] == s[..3][..2] == "@@";
    }
    assert HasPrefix("@@", "@@");
  }

  function HunkExpects(hunks: seq<Hunk>): seq<string> {
    if hunks == [] then [] else HunkExpects(hunks[..|hunks| - 1]) + OldSide(hunks[|hunks| - 1].ops)
  }

  /** The lines from..to of a patch are what the sections say beyond those before. */
  ghost predicate Adds(lines: seq<string>, from: nat, to: nat, before: seq<Hunk>, after: seq<Hunk>)
    requires from <= to <= |lines|
  {
    && HunkExpects(after) == HunkExpects(before) + Expected(lines[from..to])
    && HunkDeletes(after) == HunkDeletes(before) + Minuses(lines[from..to])
    && HunkInserts(after) == HunkInserts(before) + Pluses(lines[from..to])
  }

  lemma MarkedLines(lines: seq<string>, from: nat, to: nat)
    requires from <= to <= |lines| && forall k :: from <= k < to ==> IsMarker(lines[k])
    ensures Expected(lines[from..to]) == [] && Minuses(lines[from..to]) == [] && Pluses(lines[from..to]) == []
  {
    hide *;
    MarkersSayNothing(lines[from..to]);
  }

  /** Header, section and end-of-file marker. */
  lemma SectionParts(lines: seq<string>, pos: nat) returns (body: nat, end: nat)
    requires pos <= |lines|
    ensures body == ReadHeader(lines, pos).body
    ensures
      var section := PeekSection(lines, body);
      && pos <= body <= end <= section.next <= |lines|
      && section.ops == OpsOf(lines[body..end]) && NoMarkers(lines[body..end])
      && (forall k :: pos <= k < body ==> IsMarker(lines[k]))
      && (forall k :: end <= k < section.next ==> IsMarker(lines[k]))
  {
    body := ReadHeader(lines, pos).body;
    HeaderIsMarkers(lines, pos);
    hide ReadHeader, IsMarker, OpsOf, PeekSection, SectionEnd;
    SectionEnds(lines, body);
    end := SectionEnd(lines, body);
  }

  /** The section read at `pos`, with its header and its end-of-file marker. */
  lemma SectionLines(lines: seq<string>, pos: nat)
    requires pos <= |lines|
    ensures
      var section := PeekSection(lines, ReadHeader(lines, pos).body);
      && pos <= section.next <= |lines|
      && OldSide(section.ops) == Expected(lines[pos..section.next])
      && DelLines(section.ops) == Minuses(lines[pos..section.next])
      && InsLines(section.ops) == Pluses(lines[pos..section.next])
  {
    hide *;
    var body, end := SectionParts(lines, pos);
    var next := PeekSection(lines, body).next;
    MarkedLines(lines, pos, body);
    MarkedLines(lines, end, next);
    OpsRead(lines[body..end]);
    ReadingsJoin(lines, body, end, next);
    ReadingsJoin(lines, pos, body, next);
  }

  lemma HunksStep(hunks: seq<Hunk>, h: Hunk)
    ensures HunkExpects(hunks + [h]) == HunkExpects(hunks) + OldSide(h.ops)
    ensures HunkDeletes(hunks + [h]) == HunkDeletes(hunks) + DelLines(h.ops)
    ensures HunkInserts(hunks + [h]) == HunkInserts(hunks) + InsLines(h.ops)
  {
    hide OldSide, DelLines, InsLines;
    assert (hunks + [h])[..|hunks|] == hunks;
  }

  lemma TurnAppends(lines: seq<string>, file: seq<string>, c: Cursor) returns (h: Hunk)
    requires c.pos < |lines| && c.at <= |file| && Turn(lines, file, c).Ok?
    ensures
      var section := PeekSection(lines, ReadHeader(lines, c.pos).body);
      && Turn(lines, file, c).value.hunks == c.hunks + [h] && h.ops == section.ops
      && Turn(lines, file, c).value.pos == section.next
  {
    hide PeekSection, OldSide, ReadHeader, FindContext, LocateDef;
    h := Turn(lines, file, c).value.hunks[|c.hunks|];
  }

  lemma TurnReads(lines: seq<string>, file: seq<string>, c: Cursor)
    requires c.pos < |lines| && c.at <= |file| && Turn(lines, file, c).Ok?
    ensures Adds(lines, c.pos, Turn(lines, file, c).value.pos, c.hunks, Turn(lines, file, c).value.hunks)
  {
    SectionLines(lines, c.pos);
    var h := TurnAppends(lines, file, c);
    HunksStep(c.hunks, h);
    hide PeekSection, OldSide, DelLines, InsLines, ReadHeader, Turn;
    hide Expected, Minuses, Pluses, HunkExpects, HunkDeletes, HunkInserts;
  }

  lemma AddsJoin(lines: seq<string>, from: nat, mid: nat, to: nat, a: seq<Hunk>, b: seq<Hunk>, c: seq<Hunk>)
    requires from <= mid <= to <= |lines| && Adds(lines, from, mid, a, b) && Adds(lines, mid, to, b, c)
    ensures Adds(lines, from, to, a, c)
  {
    hide Expected, Minuses, Pluses, HunkExpects, HunkDeletes, HunkInserts;
    ReadingsJoin(lines, from, mid, to);
  }

  lemma AddsNothing(lines: seq<string>, pos: nat, hunks: seq<Hunk>)
    requires pos <= |lines|
    ensures Adds(lines, pos, pos, hunks, hunks)
  {
    assert lines[pos..pos] == [];
  }

  /** All sections of an update, read off the lines it takes. */
  lemma {:induction false} UpdateReads(lines: seq<string>, file: seq<string>, c: Cursor)
    requires HasEnvelope(lines) && c.pos <= |lines| && c.at <= |file| && ParseUpdate(lines, file, c).Ok?
    ensures
      var r := ParseUpdate(lines, file, c).value;
      Adds(lines, c.pos, r.pos, c.hunks, r.hunks) && SameEntry(lines, c.pos, r.pos)
    decreases |lines| - c.pos
  {
    hide Turn, Adds, SameEntry, Done, HasEnvelope;
    if Done(lines, c.pos, UPDATE_ENDS) {
      AddsNothing(lines, c.pos, c.hunks);
      SameEntryNone(lines, c.pos);
    } else {
      DoneInside(lines, c.pos, UPDATE_ENDS);
      var next := Turn(lines, file, c).value;
      TurnReads(lines, file, c);
      TurnSameEntry(lines, file, c);
      UpdateReads(lines, file, next);
      var r := ParseUpdate(lines, file, c).value;
      AddsJoin(lines, c.pos, next.pos, r.pos, c.hunks, next.hunks, r.hunks);
      SameEntryJoins(lines, c.pos, next.pos, r.pos);
    }
  }

  lemma DoneInside(lines: seq<string>, index: nat, prefixes: seq<string>)
    requires !Done(lines, index, prefixes)
    ensures index < |lines|
  {
  }

  lemma SameEntryNone(lines: seq<string>, pos: nat)
    ensures SameEntry(lines, pos, pos)
  {
  }

  // ------------------------------------------------------------ whole patches

  /** The name under "*** Move to: " on the line below an update line, if there is one. */
  function MoveName(lines: seq<string>, k: nat): Option<string> {
    if k < |lines| && HasPrefix(lines[k], "*** Move to: ") && |lines[k]| > 13 then Some(lines[k][13..]) else None
  }

  /** The entry on line k, up to line `stop`, is what the plan holds for its path. */
  ghost predicate Says(lines: seq<string>, path: string, parsed: Parsed, k: nat, stop: nat) {
    && k < stop <= |lines| && SameEntry(lines, k + 1, stop)
    && match parsed
       case ParsedUpdate(hunks, moveTo) =>
         && lines[k] == "*** Update File: " + path && moveTo == MoveName(lines, k + 1)
         && HunkExpects(hunks) == Expected(lines[k + 1..stop])
         && AllDeleted(HunkChunks(hunks)) == Minuses(lines[k + 1..stop])
         && AllInserted(HunkChunks(hunks)) == Pluses(lines[k + 1..stop])
       case ParsedDelete => lines[k] == "*** Delete File: " + path && stop == k + 1
       case ParsedAdd(content) =>
         && lines[k] == "*** Add File: " + path && content == Pluses(lines[k + 1..stop])
         && forall i :: k < i < stop ==> HasPrefix(lines[i], "+")
  }

  /** Every planned entry is what the patch says between its line and the next file
      marker. */
  ghost predicate AllSay(lines: seq<string>, plan: map<string, Parsed>) {
    forall path :: path in plan ==> exists k: nat, stop: nat ::
      Says(lines, path, plan[path], k, stop) && stop < |lines| && HasAnyPrefix(lines[stop], FILE_ENDS)
  }

  /** Lines marked '+' and their rests. */
  ghost predicate AddedLines(lines: seq<string>, from: nat, to: nat, content: seq<string>) {
    && from <= to <= |lines| && content == Pluses(lines[from..to]) && SameEntry(lines, from, to)
    && forall i :: from <= i < to ==> HasPrefix(lines[i], "+")
  }

  lemma PlusesNext(lines: seq<string>, from: nat, index: nat)
    requires from <= index < |lines|
    ensures Pluses(lines[from..index + 1]) == Pluses(lines[from..index]) + Plus(lines[index])
  {
    hide *;
    PlusesStep(lines[from..index], lines[index]);
    assert lines[from..index + 1] == lines[from..index] + [lines[index]];
  }

  lemma OneMoreAdded(lines: seq<string>, from: nat, index: nat, sofar: seq<string>)
    requires AddedLines(lines, from, index, sofar) && index < |lines|
    requires HasPrefix(lines[index], "+") && !HasAnyPrefix(lines[index], FILE_ENDS)
    ensures AddedLines(lines, from, index + 1, sofar + [lines[index][1..]])
  {
    PlusesNext(lines, from, index);
    assert Plus(lines[index]) == [lines[index][1..]];
    hide HasAnyPrefix, Pluses, HasPrefix, Plus;
  }

  lemma {:induction false} AddReads(lines: seq<string>, from: nat, index: nat, sofar: seq<string>)
    requires AddedLines(lines, from, index, sofar) && ParseAdd(lines, index, sofar).Ok?
    ensures AddedLines(lines, from, ParseAdd(lines, index, sofar).value.next, ParseAdd(lines, index, sofar).value.lines)
    decreases |lines| - index
  {
    hide AddedLines, HasAnyPrefix;
    if !Done(lines, index, FILE_ENDS) {
      OneMoreAdded(lines, from, index, sofar);
      AddReads(lines, from, index + 1, sofar + [lines[index][1..]]);
    }
  }

  lemma MoveLine(lines: seq<string>, k: nat)
    requires k < |lines|
    ensures
      var r := ReadStr(lines, k, MOVE_TO);
      && k <= r.next <= |lines| && (r.text != "" <==> MoveName(lines, k).Some?)
      && (r.text != "" ==> MoveName(lines, k) == Some(r.text))
      && (forall i :: k <= i < r.next ==> IsMarker(lines[i]))
  {
    assert |MOVE_TO| == 13;
    if HasPrefix(lines[k], MOVE_TO) {
      assert lines[k][..3] == lines[k][..13][..3] == "***";
    }
  }

  lemma NothingRead()
    ensures HunkExpects([]) == [] && HunkDeletes([]) == [] && HunkInserts([]) == []
  {
  }

  /** Sections read off the lines below some markers. */
  lemma BelowMarkers(lines: seq<string>, from: nat, mid: nat, to: nat, hunks: seq<Hunk>)
    requires from <= mid <= to <= |lines| && Adds(lines, mid, to, [], hunks)
    requires forall k :: from <= k < mid ==> IsMarker(lines[k])
    ensures HunkExpects(hunks) == Expected(lines[from..to])
    ensures AllDeleted(HunkChunks(hunks)) == Minuses(lines[from..to])
    ensures AllInserted(HunkChunks(hunks)) == Pluses(lines[from..to])
  {
    NothingRead();
    MarkedLines(lines, from, mid);
    hide Expected, Minuses, Pluses, HunkChunks, IsMarker, AllDeleted, AllInserted, HunkExpects, HunkDeletes, HunkInserts;
    ReadingsJoin(lines, from, mid, to);
    ChunksAreTheEdits(hunks);
  }

  lemma SaysUpdate(lines: seq<string>, path: string, k: nat, stop: nat, hunks: seq<Hunk>, moveTo: Option<string>)
    requires k < stop <= |lines| && SameEntry(lines, k + 1, stop)
    requires lines[k] == UPDATE_FILE + path && moveTo == MoveName(lines, k + 1)
    requires HunkExpects(hunks) == Expected(lines[k + 1..stop])
    requires AllDeleted(HunkChunks(hunks)) == Minuses(lines[k + 1..stop])
    requires AllInserted(HunkChunks(hunks)) == Pluses(lines[k + 1..stop])
    ensures Says(lines, path, ParsedUpdate(hunks, moveTo), k, stop)
  {
    hide SameEntry, Expected, Minuses, Pluses, HunkChunks, AllDeleted, AllInserted, MoveName;
  }

  /** An update entry. */
  lemma UpdateEntryReads(lines: seq<string>, files: map<string, string>, fuzz: nat, k: nat, path: string)
    requires HasEnvelope(lines) && k + 1 < |lines| && lines[k] == UPDATE_FILE + path && path in files
    requires ParseUpdate(lines, Split(files[path]), Cursor(ReadStr(lines, k + 1, MOVE_TO).next, 0, fuzz, [])).Ok?
    ensures
      var move := ReadStr(lines, k + 1, MOVE_TO);
      var c := ParseUpdate(lines, Split(files[path]), Cursor(move.next, 0, fuzz, [])).value;
      Says(lines, path, ParsedUpdate(c.hunks, if move.text != "" then Some(move.text) else None), k, c.pos)
  {
    hide *;
    var move := ReadStr(lines, k + 1, MOVE_TO);
    MoveLine(lines, k + 1);
    BelowMove(lines, k, path);
    var c0 := Cursor(move.next, 0, fuzz, []);
    UpdateReads(lines, Split(files[path]), c0);
    var c := ParseUpdate(lines, Split(files[path]), c0).value;
    BelowMarkers(lines, k + 1, move.next, c.pos, c.hunks);
    SameEntryJoins(lines, k + 1, move.next, c.pos);
    SaysUpdate(lines, path, k, c.pos, c.hunks, if move.text != "" then Some(move.text) else None);
  }

  /** One entry: the path it adds to the plan, and the line it is on. */
  lemma EntryReads(lines: seq<string>, files: map<string, string>, s: ParseState) returns (path: string, k: nat)
    requires HasEnvelope(lines) && s.index < |lines| && ParseEntry(lines, files, s).Ok?
    ensures
      var r := ParseEntry(lines, files, s).value;
      && path in r.plan && r.plan == s.plan[path := r.plan[path]]
      && Says(lines, path, r.plan[path], k, r.index)
  {
    var updated := ReadStr(lines, s.index, UPDATE_FILE);
    if updated.text != "" {
      path, k := updated.text, s.index;
      UpdateRoom(lines, k, path);
      hide Says, ParseUpdate, Split, HasEnvelope;
      UpdateEntryReads(lines, files, s.fuzz, k, path);
    } else {
      path, k := OtherEntryReads(lines, files, s.(index := updated.next), s.index);
    }
  }

  lemma UpdateRoom(lines: seq<string>, k: nat, path: string)
    requires HasEnvelope(lines) && k < |lines| && lines[k] == UPDATE_FILE + path
    ensures k + 1 < |lines|
  {
    assert lines[k][4] == 'U' && END_PATCH[4] == 'E';
  }

  lemma OtherEntryReads(lines: seq<string>, files: map<string, string>, s: ParseState, at: nat) returns (path: string, k: nat)
    requires at <= s.index <= |lines| && ParseNoUpdate(lines, files, s, at).Ok?
    ensures
      var r := ParseNoUpdate(lines, files, s, at).value;
      && path in r.plan && r.plan == s.plan[path := r.plan[path]]
      && Says(lines, path, r.plan[path], k, r.index)
  {
    var deleted := ReadStr(lines, s.index, DELETE_FILE);
    var added := ReadStr(lines, deleted.next, ADD_FILE);
    if deleted.text != "" {
      path, k := deleted.text, s.index;
      SameEntryNone(lines, k + 1);
    } else {
      path, k := added.text, deleted.next;
      hide HasPrefix, Says, ParseAdd;
      AddEntryReads(lines, path, k);
    }
  }

  lemma AddEntryReads(lines: seq<string>, path: string, k: nat)
    requires k < |lines| && lines[k] == ADD_FILE + path && ParseAdd(lines, k + 1, []).Ok?
    ensures
      var r := ParseAdd(lines, k + 1, []).value;
      Says(lines, path, ParsedAdd(r.lines), k, r.next)
  {
    assert lines[k + 1..k + 1] == [];
    SameEntryNone(lines, k + 1);
    AddReads(lines, k + 1, k + 1, []);
    hide ParseAdd, Pluses, SameEntry, HasPrefix;
  }

  /** Where an entry or the end of the patch is read, a file marker stands. */
  lemma MarkerIsNext(lines: seq<string>, files: map<string, string>, s: ParseState)
    requires s.index <= |lines| && ParseEntries(lines, files, s).Ok?
    ensures s.index < |lines| && HasAnyPrefix(lines[s.index], FILE_ENDS)
  {
    if Done(lines, s.index, [END_PATCH]) {
      assert HasPrefix(lines[s.index], [END_PATCH][0]) && FILE_ENDS[0] == END_PATCH;
    } else {
      DoneInside(lines, s.index, [END_PATCH]);
      hide ParseEntries;
      EntryStarts(lines, files, s);
    }
  }

  lemma EntryStarts(lines: seq<string>, files: map<string, string>, s: ParseState)
    requires s.index < |lines| && ParseEntry(lines, files, s).Ok?
    ensures HasAnyPrefix(lines[s.index], FILE_ENDS)
  {
    hide ParseUpdate, ParseAdd, Split, HasAnyPrefix;
    var line := lines[s.index];
    assert HasPrefix(line, UPDATE_FILE) || HasPrefix(line, DELETE_FILE) || HasPrefix(line, ADD_FILE);
    FileMarker(line);
  }

  lemma FileMarker(line: string)
    requires HasPrefix(line, UPDATE_FILE) || HasPrefix(line, DELETE_FILE) || HasPrefix(line, ADD_FILE)
    ensures HasAnyPrefix(line, FILE_ENDS)
  {
    if HasPrefix(line, UPDATE_FILE) {
      assert HasPrefix(line, FILE_ENDS[1]);
    } else if HasPrefix(line, DELETE_FILE) {
      assert HasPrefix(line, FILE_ENDS[2]);
    } else {
      assert HasPrefix(line, FILE_ENDS[3]);
    }
  }

  lemma OneMoreSays(lines: seq<string>, before: map<string, Parsed>, after: map<string, Parsed>, path: string, k: nat, stop: nat)
    requires AllSay(lines, before) && path in after && after == before[path := after[path]]
    requires Says(lines, path, after[path], k, stop) && stop < |lines| && HasAnyPrefix(lines[stop], FILE_ENDS)
    ensures AllSay(lines, after)
  {
    hide Says;
  }

  lemma {:induction false} EntriesRead(lines: seq<string>, files: map<string, string>, s: ParseState)
    requires HasEnvelope(lines) && s.index <= |lines| && AllSay(lines, s.plan) && ParseEntries(lines, files, s).Ok?
    ensures AllSay(lines, ParseEntries(lines, files, s).value.plan)
    decreases |lines| - s.index
  {
    hide ParseEntry, AllSay, Done, HasEnvelope, Says;
    if !Done(lines, s.index, [END_PATCH]) {
      DoneInside(lines, s.index, [END_PATCH]);
      var next := ParseEntry(lines, files, s).value;
      var path, k := EntryReads(lines, files, s);
      MarkerIsNext(lines, files, next);
      OneMoreSays(lines, s.plan, next.plan, path, k, next.index);
      EntriesRead(lines, files, next);
    }
  }

  /** Every entry of an accepted patch is what its lines say, whatever the files hold:
      an update expects the lines not marked '+', deletes those marked '-' and inserts
      those marked '+', in order; an addition holds the lines marked '+'. */
  lemma AcceptedPatchSaysItsLines(text: string, files: map<string, string>)
    requires PlanOf(text, files).Ok?
    ensures AllSay(PatchLines(text), PlanOf(text, files).value.entries)
  {
    hide ParseEntries, AllSay;
    NothingSaid(PatchLines(text));
    EntriesRead(PatchLines(text), files, ParseState(1, 0, map[]));
  }

  lemma NothingSaid(lines: seq<string>)
    ensures AllSay(lines, map[])
  {
  }

  /** The line belongs to the update entry of the path. */
  ghost predicate InEntry(lines: seq<string>, path: string, n: nat) {
    n < |lines| && exists k: nat :: k < n && OpensUpdate(lines[k], path) && SameEntry(lines, k + 1, n + 1)
  }

  predicate OpensUpdate(line: string, path: string) {
    line == "*** Update File: " + path
  }

  /** A line of the patch marked '-' that matches the line of the file. */
  ghost predicate Crosses(lines: seq<string>, path: string, n: nat, line: string, level: Level, fuzz: nat) {
    && InEntry(lines, path, n) && HasPrefix(lines[n], "-")
    && Same(level, line, lines[n][1..]) && (fuzz == 0 ==> line == lines[n][1..])
  }

  lemma {:induction false} MinusIsALine(raw: seq<string>, x: string) returns (i: nat)
    requires x in Minuses(raw)
    ensures i < |raw| && HasPrefix(raw[i], "-") && raw[i][1..] == x
  {
    if x in Minuses(raw[..|raw| - 1]) {
      i := MinusIsALine(raw[..|raw| - 1], x);
    } else {
      i := |raw| - 1;
    }
  }

  lemma {:induction false} DeletedIsListed(chunks: seq<Chunk>, k: nat, j: nat)
    requires k < |chunks| && j < |chunks[k].delLines|
    ensures chunks[k].delLines[j] in AllDeleted(chunks)
  {
    if k < |chunks| - 1 {
      DeletedIsListed(chunks[..|chunks| - 1], k, j);
    }
  }

  /** What the theorem about accepted updates says of the chunks. */
  lemma UpdateCuts(text: string, files: map<string, string>, path: string, hunks: seq<Hunk>)
    requires PlanOf(text, files).Ok? && path in PlanOf(text, files).value.entries
    requires PlanOf(text, files).value.entries[path].ParsedUpdate?
    requires hunks == PlanOf(text, files).value.entries[path].hunks
    ensures path in files && AllCutMatching(Split(files[path]), hunks, PlanOf(text, files).value.fuzz)
  {
    hide PlanOf, Split, HunkChunks, CutAndSpliced, Updated, Placed, EofEditsBehind, CutsMatching, AllDeleted, AllInserted;
    AcceptedUpdateIsFaithful(text, files, path, hunks);
  }

  ghost predicate AllCutMatching(file: seq<string>, hunks: seq<Hunk>, fuzz: nat) {
    forall k :: 0 <= k < |HunkChunks(hunks)| ==> CutsMatching(file, hunks, HunkChunks(hunks)[k], fuzz)
  }

  lemma CutByChunk(chunks: seq<Chunk>, i: nat) returns (k: nat, j: nat)
    requires Cut(chunks, i)
    ensures k < |chunks| && j < |chunks[k].delLines| && i == chunks[k].origIndex + j
  {
    var x :| 0 <= x < |chunks| && chunks[x].origIndex <= i < ChunkEnd(chunks[x]);
    k, j := x, i - chunks[x].origIndex;
  }

  /** The deleted line that cuts a line of the file. */
  lemma CutLine(file: seq<string>, hunks: seq<Hunk>, fuzz: nat, i: nat) returns (x: string, level: Level)
    requires AllCutMatching(file, hunks, fuzz) && i < |file| && Cut(HunkChunks(hunks), i)
    ensures x in AllDeleted(HunkChunks(hunks)) && Same(level, file[i], x) && (fuzz == 0 ==> file[i] == x)
  {
    var chunks := HunkChunks(hunks);
    var k, j := CutByChunk(chunks, i);
    assert CutsMatching(file, hunks, chunks[k], fuzz);
    hide *;
    var h := CutBy(file, hunks, chunks[k], fuzz, j);
    DeletedIsListed(chunks, k, j);
    x, level := chunks[k].delLines[j], hunks[h].level;
  }

  lemma MinusLine(lines: seq<string>, from: nat, to: nat, x: string) returns (n: nat)
    requires from <= to <= |lines| && x in Minuses(lines[from..to])
    ensures from <= n < to && HasPrefix(lines[n], "-") && lines[n][1..] == x
  {
    hide *;
    var m := MinusIsALine(lines[from..to], x);
    n := from + m;
  }

  lemma CutInEntry(
    lines: seq<string>, path: string, start: nat, stop: nat, file: seq<string>, hunks: seq<Hunk>, fuzz: nat, i: nat)
    returns (n: nat, level: Level)
    requires start < stop <= |lines| && SameEntry(lines, start + 1, stop) && OpensUpdate(lines[start], path)
    requires AllDeleted(HunkChunks(hunks)) == Minuses(lines[start + 1..stop])
    requires AllCutMatching(file, hunks, fuzz) && i < |file| && Cut(HunkChunks(hunks), i)
    ensures Crosses(lines, path, n, file[i], level, fuzz)
  {
    hide *;
    var x;
    x, level := CutLine(file, hunks, fuzz, i);
    n := MinusLine(lines, start + 1, stop, x);
    CrossesAt(lines, path, start, stop, n, file[i], level, fuzz);
  }

  lemma UpdateIsSaid(lines: seq<string>, plan: map<string, Parsed>, path: string) returns (start: nat, stop: nat)
    requires AllSay(lines, plan) && path in plan && plan[path].ParsedUpdate?
    ensures start < stop <= |lines| && SameEntry(lines, start + 1, stop) && OpensUpdate(lines[start], path)
    ensures AllDeleted(HunkChunks(plan[path].hunks)) == Minuses(lines[start + 1..stop])
    ensures AllInserted(HunkChunks(plan[path].hunks)) == Pluses(lines[start + 1..stop])
  {
    hide HunkChunks, Minuses, Pluses, Expected, SameEntry, AllDeleted, AllInserted, HasAnyPrefix;
    var k: nat, s: nat :| Says(lines, path, plan[path], k, s);
    start, stop := k, s;
  }

  /** A line of a file is cut only if the patch has, in the file's entry, a line marked
      '-' that matches it; without fuzz, one that is equal to it. */
  lemma CutLineIsMarked(text: string, files: map<string, string>, path: string, hunks: seq<Hunk>, i: nat)
    requires PlanOf(text, files).Ok? && path in PlanOf(text, files).value.entries
    requires PlanOf(text, files).value.entries[path].ParsedUpdate?
    requires hunks == PlanOf(text, files).value.entries[path].hunks
    requires path in files && i < |Split(files[path])| && Cut(HunkChunks(hunks), i)
    ensures exists n, level :: Crosses(PatchLines(text), path, n, Split(files[path])[i], level, PlanOf(text, files).value.fuzz)
  {
    hide *;
    UpdateCuts(text, files, path, hunks);
    AcceptedPatchSaysItsLines(text, files);
    var start, stop := UpdateIsSaid(PatchLines(text), PlanOf(text, files).value.entries, path);
    var n, level := CutInEntry(
      PatchLines(text), path, start, stop, Split(files[path]), hunks, PlanOf(text, files).value.fuzz, i);
  }

  lemma CutBy(file: seq<string>, hunks: seq<Hunk>, c: Chunk, fuzz: nat, j: nat) returns (h: nat)
    requires CutsMatching(file, hunks, c, fuzz) && j < |c.delLines|
    ensures h < |hunks| && c.origIndex + j < |file| && Same(hunks[h].level, file[c.origIndex + j], c.delLines[j])
    ensures fuzz == 0 ==> file[c.origIndex + j] == c.delLines[j]
  {
    hide ComesFrom, Same;
    var x :| 0 <= x < |hunks| && ComesFrom(c, hunks[x]) && CutsAtLevel(file, c, hunks[x].level, fuzz);
    h := x;
  }

  lemma CrossesAt(lines: seq<string>, path: string, k: nat, stop: nat, n: nat, line: string, level: Level, fuzz: nat)
    requires k < n < stop <= |lines| && SameEntry(lines, k + 1, stop) && OpensUpdate(lines[k], path)
    requires HasPrefix(lines[n], "-") && Same(level, line, lines[n][1..]) && (fuzz == 0 ==> line == lines[n][1..])
    ensures Crosses(lines, path, n, line, level, fuzz)
  {
    hide Same, HasAnyPrefix, OpensUpdate, HasPrefix;
    assert SameEntry(lines, k + 1, n + 1);
  }
}
