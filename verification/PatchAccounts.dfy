/** The account of a patch: where its headers lead, what its fuzz adds up to, which
    files it names, and what a refused part is refused for. */
module PatchAccounts {
  import opened Basics
  import opened Text
  import opened PatchModel
  import opened PatchChunks
  import opened PatchSafety
  import opened PatchAnswers
  import opened PatchReading

  // ------------------------------------------------------------------ headers

  /** A line reads like the text but for white space around it. */
  predicate ReadsLike(line: string, text: string) {
    TrimSpace(line) == TrimSpace(text)
  }

  predicate SomeReadsLike(lines: seq<string>, text: string) {
    exists k :: 0 <= k < |lines| && ReadsLike(lines[k], text)
  }

  lemma OneMatch(level: Level, lines: seq<string>, def: string, i: nat)
    requires i < |lines|
    ensures MatchesAt(level, lines, [def], i) <==> Same(level, lines[i], def)
  {
    assert MatchesAt(level, lines, [def], i) ==> Same(level, lines[i + 0], [def][0]);
  }

  lemma SearchMeans(level: Level, lines: seq<string>, def: string, start: nat)
    ensures
      match FirstMatch(level, lines, [def], start)
      case None => forall i :: start <= i < |lines| ==> !Same(level, lines[i], def)
      case Some(k) =>
        && start <= k < |lines| && Same(level, lines[k], def)
        && forall i :: start <= i < k ==> !Same(level, lines[i], def)
  {
    hide Same;
    forall i: nat | i < |lines| ensures MatchesAt(level, lines, [def], i) <==> Same(level, lines[i], def) {
      OneMatch(level, lines, def, i);
    }
    hide MatchesAt;
  }

  /** Where a header leads, and its fuzz. A name that stands earlier in the file, or
      nowhere, leads nowhere; otherwise the header leads behind the next line that is
      the name, or, if no line is, behind the next that reads like it unless an earlier
      one does. Only the last costs fuzz. */
  ghost predicate Leads(file: seq<string>, def: string, at: nat, r: Located)
    requires at <= |file|
  {
    if TrimSpace(def) == "" || def in file[..at] then r == Located(at, 0)
    else if def in file[at..] then
      at < r.at <= |file| && file[r.at - 1] == def && def !in file[at..r.at - 1] && r.fuzz == 0
    else if SomeReadsLike(file[..at], def) || !SomeReadsLike(file[at..], def) then r == Located(at, 0)
    else at < r.at <= |file| && ReadsLike(file[r.at - 1], def) && !SomeReadsLike(file[at..r.at - 1], def) && r.fuzz == 1
  }

  lemma HeaderLeads(file: seq<string>, def: string, at: nat)
    requires at <= |file|
    ensures Leads(file, def, at, LocateDef(file, def, at))
  {
    hide FirstMatch, TrimSpace;
    SearchMeans(Exact, file[..at], def, 0);
    SearchMeans(Exact, file, def, at);
    SearchMeans(Trimmed, file[..at], def, 0);
    SearchMeans(Trimmed, file, def, at);
    if !SomeReadsLike(file[at..], def) {
      forall i | at <= i < |file| ensures !ReadsLike(file[i], def) {
        assert !ReadsLike(file[at..][i - at], def);
      }
    }
  }

  // --------------------------------------------------------------------- fuzz

  /** The header is found only by its trimmed text. */
  predicate LedLoosely(file: seq<string>, def: string, at: nat)
    requires at <= |file|
  {
    TrimSpace(def) != "" && def !in file && !SomeReadsLike(file[..at], def) && SomeReadsLike(file[at..], def)
  }

  /** What a placed section costs: 1 if it does not match byte for byte, and 10000 if it
      is an end-of-file section that lies elsewhere. */
  function SectionFuzz(file: seq<string>, h: Hunk): nat {
    (if h.level == Exact then 0 else 1) + if h.eof && HunkEnd(h) != |file| then 10000 else 0
  }

  lemma CoreFuzz(file: seq<string>, context: seq<string>, start: nat)
    requires start <= |file| && FindCore(file, context, start).Some?
    ensures
      var hit := FindCore(file, context, start).value;
      start <= hit.at && hit.at + |context| <= |file| && hit.fuzz == if hit.level == Exact then 0 else 1
  {
    FuzzLevels();
    hide FirstMatch, FuzzOf;
  }

  /** What the search passes over does not match, at any level. */
  lemma CoreMisses(file: seq<string>, context: seq<string>, start: nat, level: Level, i: nat)
    requires start <= i && start <= |file| && FindCore(file, context, start).None?
    ensures !MatchesAt(level, file, context, i)
  {
    assert context != [];
    assert FirstMatch(level, file, context, start).None?;
    hide FirstMatch;
  }

  lemma ContextFuzz(file: seq<string>, context: seq<string>, start: nat, eof: bool)
    requires start <= |file|
    requires FindContext(file, context, start, eof).Ok? && FindContext(file, context, start, eof).value.Some?
    ensures
      var hit := FindContext(file, context, start, eof).value.value;
      hit.fuzz == (if hit.level == Exact then 0 else 1) + if eof && hit.at + |context| != |file| then 10000 else 0
  {
    hide FindCore, MatchesAt;
    var hit := FindContext(file, context, start, eof).value.value;
    if eof && FindCore(file, context, |file| - |context|).None? {
      CoreFuzz(file, context, start);
      CoreMisses(file, context, |file| - |context|, hit.level, |file| - |context|);
    } else {
      CoreFuzz(file, context, if eof then |file| - |context| else start);
    }
  }

  lemma HeaderFuzz(file: seq<string>, def: string, at: nat)
    requires at <= |file|
    ensures LocateDef(file, def, at).fuzz == if LedLoosely(file, def, at) then 1 else 0
  {
    HeaderLeads(file, def, at);
    assert file == file[..at] + file[at..];
    hide LocateDef, TrimSpace, SomeReadsLike;
  }

  /** The fuzz of a turn: what its section costs, and 1 for a header found loosely. */
  lemma TurnFuzz(lines: seq<string>, file: seq<string>, c: Cursor)
    requires c.pos < |lines| && c.at <= |file| && Turn(lines, file, c).Ok?
    ensures
      var r := Turn(lines, file, c).value;
      && |r.hunks| == |c.hunks| + 1 && r.hunks[..|c.hunks|] == c.hunks
      && r.fuzz == c.fuzz + SectionFuzz(file, r.hunks[|c.hunks|])
                   + if LedLoosely(file, ReadHeader(lines, c.pos).def, c.at) then 1 else 0
  {
    hide PeekSection, ReadHeader, FindContext, OldSide, LocateDef, LedLoosely;
    var h := ReadHeader(lines, c.pos);
    HeaderFuzz(file, h.def, c.at);
    var def := LocateDef(file, h.def, c.at);
    var section := PeekSection(lines, h.body);
    ContextFuzz(file, OldSide(section.ops), def.at, section.eof);
  }

  function SumFuzz(file: seq<string>, hunks: seq<Hunk>): nat {
    if hunks == [] then 0 else SumFuzz(file, hunks[..|hunks| - 1]) + SectionFuzz(file, hunks[|hunks| - 1])
  }

  /** How many of an update's headers are found loosely. */
  function LooseHeaders(lines: seq<string>, file: seq<string>, c: Cursor): nat
    requires c.pos <= |lines| && c.at <= |file|
    decreases |lines| - c.pos
  {
    if Done(lines, c.pos, UPDATE_ENDS) then 0
    else
      (if LedLoosely(file, ReadHeader(lines, c.pos).def, c.at) then 1 else 0) +
      match Turn(lines, file, c)
      case Ok(next) => if next.pos == c.pos then 0 else LooseHeaders(lines, file, next)
      case _ => 0
  }

  /** The fuzz of an update adds up: its sections, and its loosely found headers. */
  lemma {:induction false} FuzzAddsUp(lines: seq<string>, file: seq<string>, c: Cursor)
    requires c.pos <= |lines| && c.at <= |file| && ParseUpdate(lines, file, c).Ok?
    ensures
      var r := ParseUpdate(lines, file, c).value;
      r.fuzz + SumFuzz(file, c.hunks) == c.fuzz + SumFuzz(file, r.hunks) + LooseHeaders(lines, file, c)
    decreases |lines| - c.pos
  {
    hide Turn, Done, SectionFuzz, LedLoosely, ReadHeader;
    if !Done(lines, c.pos, UPDATE_ENDS) {
      DoneInside(lines, c.pos, UPDATE_ENDS);
      TurnFuzz(lines, file, c);
      FuzzAddsUp(lines, file, Turn(lines, file, c).value);
    }
  }

  // ----------------------------------------------------------------- refusals

  /** Why a turn is refused: below the top of the file a line opens no section, and it
      is named; or a section's expected lines stand nowhere from its header on, white
      space apart, and they are reported with the line the search started from. */
  lemma TurnRefusals(lines: seq<string>, file: seq<string>, c: Cursor)
    requires c.pos < |lines| && c.at <= |file| && Turn(lines, file, c).Err?
    ensures
      var h := ReadHeader(lines, c.pos);
      var section := PeekSection(lines, h.body);
      match Turn(lines, file, c).error
      case InvalidLine(line) => c.at != 0 && h.def == "" && !h.bare && h.body < |lines| && line == lines[h.body]
      case ContextError(at, context, eof) =>
        && Leads(file, h.def, c.at, LocateDef(file, h.def, c.at)) && at == LocateDef(file, h.def, c.at).at
        && context == OldSide(section.ops) && eof == section.eof
        && Nowhere(file, context, at, eof)
      case _ => false
  {
    var h := ReadHeader(lines, c.pos);
    HeaderLeads(file, h.def, c.at);
    hide PeekSection, ReadHeader, OldSide, LocateDef, Leads, Nowhere, FindContext;
    var at := LocateDef(file, h.def, c.at).at;
    var section := PeekSection(lines, h.body);
    var context := OldSide(section.ops);
    if FindContext(file, context, at, section.eof) == Ok(None) {
      NowhereFound(file, context, at, section.eof);
    }
  }

  lemma NowhereFound(file: seq<string>, context: seq<string>, start: nat, eof: bool)
    requires start <= |file| && FindContext(file, context, start, eof) == Ok(None)
    ensures Nowhere(file, context, start, eof)
  {
    hide FindCore, MatchesAt;
    forall i: nat | start <= i ensures !MatchesAt(Trimmed, file, context, i) {
      CoreMisses(file, context, start, Trimmed, i);
    }
    if eof {
      CoreMisses(file, context, |file| - |context|, Trimmed, |file| - |context|);
    }
  }

  /** The lines match nowhere from the start on, nor at the end if they belong there,
      white space apart. */
  ghost predicate Nowhere(file: seq<string>, context: seq<string>, start: nat, eof: bool) {
    && (forall i: nat :: start <= i ==> !MatchesAt(Trimmed, file, context, i))
    && (eof ==> |context| <= |file| && !MatchesAt(Trimmed, file, context, |file| - |context|))
  }

  /** The line opens the entry of a file. */
  predicate NamesFile(line: string, path: string) {
    path != "" &&
    (line == "*** Update File: " + path || line == "*** Delete File: " + path || line == "*** Add File: " + path)
  }

  /** An entry whose file is already named, missing, or in the way is refused for that,
      in this order; and so is a line that opens no entry. */
  lemma EntryRefusals(lines: seq<string>, files: map<string, string>, s: ParseState, path: string)
    requires s.index < |lines|
    ensures
      var line, r := lines[s.index], ParseEntry(lines, files, s);
      && (path != "" && line == "*** Update File: " + path && path in s.plan ==>
            r == Err(FileError(ActionUpdate, DuplicatePath, path)))
      && (path != "" && line == "*** Update File: " + path && path !in s.plan && path !in files ==>
            r == Err(FileError(ActionUpdate, MissingFile, path)))
      && (path != "" && line == "*** Delete File: " + path && path in s.plan ==>
            r == Err(FileError(ActionDelete, DuplicatePath, path)))
      && (path != "" && line == "*** Delete File: " + path && path !in s.plan && path !in files ==>
            r == Err(FileError(ActionDelete, MissingFile, path)))
      && (path != "" && line == "*** Add File: " + path && path in s.plan ==>
            r == Err(FileError(ActionAdd, DuplicatePath, path)))
      && (path != "" && line == "*** Add File: " + path && path !in s.plan && path in files ==>
            r == Err(FileError(ActionAdd, FileExists, path)))
      && (!("*** Update File: " <= line) && !("*** Delete File: " <= line) && !("*** Add File: " <= line) ==>
            r == Err(UnknownLine(line)))
  {
    hide ParseUpdate, ParseAdd, Split;
    var line := lines[s.index];
    assert UPDATE_FILE[4] == 'U' && DELETE_FILE[4] == 'D' && ADD_FILE[4] == 'A';
    if line == "*** Update File: " + path {
      assert line[|UPDATE_FILE|..] == path;
    } else if line == "*** Delete File: " + path {
      assert line[|DELETE_FILE|..] == path && line[4] == 'D';
    } else if line == "*** Add File: " + path {
      assert line[|ADD_FILE|..] == path && line[4] == 'A';
    }
  }

  /** An accepted text has the envelope; a text without it is refused as such. */
  lemma EnvelopeIsNeeded(text: string, files: map<string, string>)
    ensures
      var lines := PatchLines(text);
      var enclosed := |lines| >= 2 && "*** Begin Patch" <= lines[0] && lines[|lines| - 1] == "*** End Patch";
      (PlanOf(text, files).Ok? ==> enclosed) && (!enclosed ==> PlanOf(text, files) == Err(InvalidPatchText))
  {
    hide ParseEntries;
  }

  // ------------------------------------------------------------- named files

  lemma NamesOne(line: string, p: string, q: string)
    requires NamesFile(line, p) && NamesFile(line, q)
    ensures p == q
  {
    assert "*** Update File: "[4] == 'U' && "*** Delete File: "[4] == 'D' && "*** Add File: "[4] == 'A';
    if line[4] == 'A' {
      assert line[14..] == p && line[14..] == q;
    } else {
      assert line[17..] == p && line[17..] == q;
    }
  }

  /** Lines from..to name the files that the plan gains, each on one line. */
  ghost predicate Registers(lines: seq<string>, from: nat, to: nat, before: map<string, Parsed>, after: map<string, Parsed>) {
    && from <= to <= |lines|
    && (forall path :: path in after <==> path in before || exists k :: from <= k < to && NamesFile(lines[k], path))
    && (forall k, path :: from <= k < to && NamesFile(lines[k], path) ==> path !in before)
    && (forall j, k, path ::
          from <= j < to && from <= k < to && NamesFile(lines[j], path) && NamesFile(lines[k], path) ==> j == k)
    && (forall k :: from <= k < to ==> !HasPrefix(lines[k], END_PATCH))
  }

  lemma RegistersJoin(
    lines: seq<string>, from: nat, mid: nat, to: nat, a: map<string, Parsed>, b: map<string, Parsed>, c: map<string, Parsed>)
    requires Registers(lines, from, mid, a, b) && Registers(lines, mid, to, b, c)
    ensures Registers(lines, from, to, a, c)
  {
    hide NamesFile, HasPrefix;
    forall k, path | from <= k < mid && NamesFile(lines[k], path) ensures path in b && path in c {
    }
    forall k, path | mid <= k < to && NamesFile(lines[k], path) ensures path in c && path !in a {
    }
    forall path | path in c && path !in a ensures exists k :: from <= k < to && NamesFile(lines[k], path) {
      assert path in b || exists k :: mid <= k < to && NamesFile(lines[k], path);
      if path in b {
        var k :| from <= k < mid && NamesFile(lines[k], path);
      } else {
        var k :| mid <= k < to && NamesFile(lines[k], path);
      }
    }
    forall j, k, path | from <= j < mid && mid <= k < to && NamesFile(lines[j], path) ensures !NamesFile(lines[k], path) {
      assert path in b;
      if NamesFile(lines[k], path) {
        assert false;
      }
    }
  }

  lemma RegistersNothing(lines: seq<string>, at: nat, plan: map<string, Parsed>)
    requires at <= |lines|
    ensures Registers(lines, at, at, plan, plan)
  {
  }

  /** A line that names a file or ends the patch has a file marker. */
  lemma MarkedAsFile(line: string, path: string)
    ensures NamesFile(line, path) || HasPrefix(line, END_PATCH) ==> HasAnyPrefix(line, FILE_ENDS)
  {
    if HasPrefix(line, END_PATCH) {
      assert HasPrefix(line, FILE_ENDS[0]);
    } else if NamesFile(line, path) {
      assert HasPrefix(line, UPDATE_FILE) || HasPrefix(line, DELETE_FILE) || HasPrefix(line, ADD_FILE);
      FileMarker(line);
    }
  }

  /** A marker line does not end the patch, and names a file unless nothing follows it. */
  lemma MarkerNames(line: string, prefix: string, path: string)
    requires prefix in [UPDATE_FILE, DELETE_FILE, ADD_FILE] && HasPrefix(line, prefix)
    ensures !HasPrefix(line, END_PATCH) && (NamesFile(line, path) <==> path != "" && line == prefix + path)
  {
    assert UPDATE_FILE[4] == 'U' && DELETE_FILE[4] == 'D' && ADD_FILE[4] == 'A' && END_PATCH[4] == 'E';
    assert line[4] == prefix[4];
  }

  /** The lines of an entry that names its file on line k. */
  lemma EntryRegisters(
    lines: seq<string>, from: nat, k: nat, to: nat, prefix: string, path: string, before: map<string, Parsed>, parsed: Parsed)
    requires from <= k < to <= |lines| && SameEntry(lines, k + 1, to) && path != "" && path !in before
    requires prefix in [UPDATE_FILE, DELETE_FILE, ADD_FILE] && lines[k] == prefix + path
    requires forall i :: from <= i < k ==> lines[i] in [UPDATE_FILE, DELETE_FILE, ADD_FILE]
    ensures Registers(lines, from, to, before, before[path := parsed])
  {
    hide NamesFile, HasPrefix, HasAnyPrefix;
    forall i, p | from <= i < to
      ensures !HasPrefix(lines[i], END_PATCH) && (NamesFile(lines[i], p) <==> i == k && p == path)
    {
      if i == k {
        MarkerLineNames(lines[i], prefix, path, p);
      } else if i < k {
        BareMarker(lines[i], p);
      } else {
        MarkedAsFile(lines[i], p);
      }
    }
    forall i | from <= i < to ensures !HasPrefix(lines[i], END_PATCH) {
      assert NamesFile(lines[i], path) || !NamesFile(lines[i], path);
    }
    assert NamesFile(lines[k], path);
  }

  lemma MarkerLineNames(line: string, prefix: string, path: string, p: string)
    requires prefix in [UPDATE_FILE, DELETE_FILE, ADD_FILE] && line == prefix + path && path != ""
    ensures !HasPrefix(line, END_PATCH) && (NamesFile(line, p) <==> p == path)
  {
    assert line[..|prefix|] == prefix && line[|prefix|..] == path;
    assert HasPrefix(line, prefix);
    MarkerNames(line, prefix, p);
  }

  lemma BareMarker(line: string, p: string)
    requires line in [UPDATE_FILE, DELETE_FILE, ADD_FILE]
    ensures !HasPrefix(line, END_PATCH) && !NamesFile(line, p)
  {
    MarkerNames(line, line, p);
  }

  lemma BareRead(lines: seq<string>, index: nat, prefix: string)
    requires ReadStr(lines, index, prefix).text == "" && ReadStr(lines, index, prefix).next == index + 1
    ensures index < |lines| && lines[index] == prefix
  {
    assert lines[index] == prefix + lines[index][|prefix|..];
  }

  /** One accepted entry names one file, which was not named before. */
  lemma EntryNames(lines: seq<string>, files: map<string, string>, s: ParseState)
    requires HasEnvelope(lines) && s.index < |lines| && ParseEntry(lines, files, s).Ok?
    ensures Registers(lines, s.index, ParseEntry(lines, files, s).value.index, s.plan, ParseEntry(lines, files, s).value.plan)
  {
    var r := ParseEntry(lines, files, s).value;
    var updated := ReadStr(lines, s.index, UPDATE_FILE);
    if updated.text != "" {
      UpdateRoom(lines, s.index, updated.text);
      hide ParseUpdate, Split, Registers, HasEnvelope;
      UpdateEntryReads(lines, files, s.fuzz, s.index, updated.text);
      SaysSameEntry(lines, updated.text, r.plan[updated.text], s.index, r.index);
      EntryRegisters(lines, s.index, s.index, r.index, UPDATE_FILE, updated.text, s.plan, r.plan[updated.text]);
    } else {
      hide Registers, ParseUpdate, Split, HasEnvelope;
      OtherEntryNames(lines, files, s, updated.next);
    }
  }

  lemma SaysSameEntry(lines: seq<string>, path: string, parsed: Parsed, k: nat, stop: nat)
    requires Says(lines, path, parsed, k, stop)
    ensures k < stop <= |lines| && SameEntry(lines, k + 1, stop)
  {
    hide SameEntry;
  }

  lemma OtherEntryNames(lines: seq<string>, files: map<string, string>, s: ParseState, next: nat)
    requires s.index < |lines| && ReadStr(lines, s.index, UPDATE_FILE) == Read("", next)
    requires ParseNoUpdate(lines, files, s.(index := next), s.index).Ok?
    ensures
      var r := ParseNoUpdate(lines, files, s.(index := next), s.index).value;
      Registers(lines, s.index, r.index, s.plan, r.plan)
  {
    hide HasPrefix, Registers, ParseAdd, Says;
    var r := ParseNoUpdate(lines, files, s.(index := next), s.index).value;
    var deleted := ReadStr(lines, next, DELETE_FILE);
    if next == s.index + 1 {
      BareRead(lines, s.index, UPDATE_FILE);
    }
    if deleted.text != "" {
      SameEntryNone(lines, next + 1);
      EntryRegisters(lines, s.index, next, r.index, DELETE_FILE, deleted.text, s.plan, ParsedDelete);
    } else {
      var added := ReadStr(lines, deleted.next, ADD_FILE);
      if deleted.next == next + 1 {
        BareRead(lines, next, DELETE_FILE);
      }
      AddEntryReads(lines, added.text, deleted.next);
      SaysSameEntry(lines, added.text, r.plan[added.text], deleted.next, r.index);
      EntryRegisters(lines, s.index, deleted.next, r.index, ADD_FILE, added.text, s.plan, r.plan[added.text]);
    }
  }

  lemma {:induction false} EntriesName(lines: seq<string>, files: map<string, string>, s: ParseState) returns (end: nat)
    requires HasEnvelope(lines) && s.index <= |lines| && ParseEntries(lines, files, s).Ok?
    ensures end < |lines| && HasPrefix(lines[end], END_PATCH)
    ensures Registers(lines, s.index, end, s.plan, ParseEntries(lines, files, s).value.plan)
    decreases |lines| - s.index
  {
    hide ParseEntry, Registers, HasPrefix, HasEnvelope;
    if Done(lines, s.index, [END_PATCH]) {
      end := s.index;
      assert HasPrefix(lines[end], [END_PATCH][0]);
      RegistersNothing(lines, end, s.plan);
    } else {
      DoneInside(lines, s.index, [END_PATCH]);
      var next := ParseEntry(lines, files, s).value;
      EntryNames(lines, files, s);
      end := EntriesName(lines, files, next);
      RegistersJoin(lines, s.index, next.index, end, s.plan, next.plan, ParseEntries(lines, files, s).value.plan);
    }
  }

  /** An accepted patch names each file once: up to the first line that ends it, the
      plan holds exactly the files that entry lines name, and no two lines name one. */
  lemma AcceptedPatchNamesOnce(text: string, files: map<string, string>) returns (end: nat)
    requires PlanOf(text, files).Ok?
    ensures
      var lines, plan := PatchLines(text), PlanOf(text, files).value.entries;
      && 0 < end < |lines| && "*** End Patch" <= lines[end]
      && (forall k :: 0 < k < end ==> !("*** End Patch" <= lines[k]))
      && (forall path :: path in plan <==> exists k :: 0 < k < end && NamesFile(lines[k], path))
      && (forall j, k, path :: 0 < j < end && 0 < k < end && NamesFile(lines[j], path) && NamesFile(lines[k], path) ==> j == k)
  {
    hide ParseEntries, NamesFile;
    end := EntriesName(PatchLines(text), files, ParseState(1, 0, map[]));
  }
}
