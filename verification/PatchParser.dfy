/** The engine itself: the cursor parser and the context search, loop by loop,
    proved against the reading of a patch in PatchModel. */
module PatchParser {
  import opened Basics
  import opened Text
  import opened PatchModel
  import opened PatchChunks
  import opened PatchSplice
  import opened PatchReading

  /** The action the parser stores for a file. */
  function ActionOf(p: Parsed): PatchAction {
    match p
    case ParsedUpdate(hunks, moveTo) => PatchAction(ActionUpdate, None, HunkChunks(hunks), moveTo)
    case ParsedDelete => PatchAction(ActionDelete, None, [], None)
    case ParsedAdd(lines) => PatchAction(ActionAdd, Some(Join(lines)), [], None)
  }

  // ---------------------------------------------------------- context search

  /** Whether the context matches line by line at line i. */
  method Compare(lines: seq<string>, context: seq<string>, i: nat, level: Level) returns (matches: bool)
    requires i + |context| <= |lines|
    ensures matches == MatchesAt(level, lines, context, i)
  {
    hide Same;
    var j := 0;
    while j < |context|
      invariant 0 <= j <= |context|
      invariant forall k :: 0 <= k < j ==> Same(level, lines[i + k], context[k])
    {
      if !Same(level, lines[i + j], context[j]) {
        return false;
      }
      j := j + 1;
    }
    matches := true;
  }

  lemma PastEnd(level: Level, lines: seq<string>, context: seq<string>, i: nat)
    requires i + |context| > |lines|
    ensures !MatchesAt(level, lines, context, i)
  {
  }

  /** The first place from `start` on where the context matches. A negative start
      reads a line before the file at once. */
  method TryFindMatch(lines: seq<string>, context: seq<string>, start: int, level: Level)
    returns (r: Outcome<Option<Hit>>)
    requires context != []
    ensures start < 0 && start + |context| <= |lines| ==> r == Panic
    ensures start >= 0 ==>
      r == Ok(match FirstMatch(level, lines, context, start)
              case None => None
              case Some(i) => Some(Hit(i, level, FuzzOf(level))))
  {
    hide MatchesAt, Same;
    var i := start;
    while i < |lines|
      invariant start <= i
      invariant start < 0 && start + |context| <= |lines| ==> i == start
      invariant start >= 0 ==> FirstMatch(level, lines, context, start) == FirstMatch(level, lines, context, i)
    {
      if i + |context| <= |lines| {
        if i < 0 {
          return Panic;
        }
        var matches := Compare(lines, context, i, level);
        if matches {
          var fuzz := 0;
          if Same(level, "a ", "a") && !Same(level, "a", "b") {
            fuzz := 1;
          } else if Same(level, "a  ", "a") {
            fuzz := 100;
          }
          return Ok(Some(Hit(i, level, fuzz)));
        }
      } else if i >= 0 {
        PastEnd(level, lines, context, i);
      }
      i := i + 1;
    }
    r := Ok(None);
  }

  /** The three comparison levels in turn. */
  method FindContextCore(lines: seq<string>, context: seq<string>, start: int)
    returns (r: Outcome<Option<Hit>>)
    requires start <= |lines|
    requires start < 0 ==> start == |lines| - |context|
    ensures start < 0 ==> r == Panic
    ensures start >= 0 ==> r == Ok(FindCore(lines, context, start))
  {
    hide FirstMatch;
    if |context| == 0 {
      return Ok(Some(Hit(start, Exact, 0)));
    }
    r := TryFindMatch(lines, context, start, Exact);
    if r.Panic? || (r.Ok? && r.value.Some?) {
      return;
    }
    r := TryFindMatch(lines, context, start, RightTrimmed);
    if r.Panic? || (r.Ok? && r.value.Some?) {
      return;
    }
    r := TryFindMatch(lines, context, start, Trimmed);
  }

  method FindContextFrom(lines: seq<string>, context: seq<string>, start: nat, eof: bool)
    returns (r: Outcome<Option<Hit>>)
    requires lines != [] && start <= |lines|
    ensures r == FindContext(lines, context, start, eof)
  {
    hide FindCore;
    if eof {
      r := FindContextCore(lines, context, |lines| - |context|);
      if r.Panic? || (r.Ok? && r.value.Some?) {
        return;
      }
      r := FindContextCore(lines, context, start);
      if r.Ok? && r.value.Some? {
        var hit := r.value.value;
        r := Ok(Some(hit.(fuzz := hit.fuzz + 10000)));
      }
      return;
    }
    r := FindContextCore(lines, context, start);
  }

  // ------------------------------------------------------------ one section

  function MarkedOp(mode: Mode, line: string): Op {
    match mode
    case KeepMode => Keep(line)
    case AddMode => Ins(line)
    case DeleteMode => Del(line)
  }

  /** The mark of a section line and the text after it. */
  method ReadMark(s: string) returns (mode: Mode, line: string)
    ensures MarkedOp(mode, line) == OpOf(s)
  {
    line := s;
    if |line| > 0 {
      if line[0] == '+' {
        mode := AddMode;
      } else if line[0] == '-' {
        mode := DeleteMode;
      } else if line[0] == ' ' {
        mode := KeepMode;
      } else {
        mode := KeepMode;
        line := " " + line;
      }
    } else {
      mode := KeepMode;
      line := " ";
    }
    line := line[1..];
  }

  method CloseChunk(context: seq<string>, del: seq<string>, ins: seq<string>, chunks: seq<Chunk>)
    returns (r: seq<Chunk>)
    requires |del| <= |context|
    ensures forall mode :: r == Flushed(Build(mode, context, del, ins, chunks))
  {
    r := chunks;
    if |ins| > 0 || |del| > 0 {
      r := r + [Chunk(|context| - |del|, del, ins)];
    }
  }

  method EndSectionConditions(s: string) returns (ends: bool)
    ensures ends == EndsSection(s)
  {
    assert HasPrefix("*** End Patch", "***") && HasPrefix("*** Update File:", "***")
      && HasPrefix("*** Delete File:", "***") && HasPrefix("*** Add File:", "***") && HasPrefix("*** End of File", "***");
    ends := HasPrefix(s, "@@")
      || HasPrefix(s, "*** End Patch")
      || HasPrefix(s, "*** Update File:")
      || HasPrefix(s, "*** Delete File:")
      || HasPrefix(s, "*** Add File:")
      || HasPrefix(s, "*** End of File")
      || s == "***"
      || HasPrefix(s, "***");
  }

  lemma NoOps()
    ensures BuildOf([]) == Build(KeepMode, [], [], [], [])
  {
  }

  lemma FeedNext(ops: seq<Op>, op: Op)
    ensures BuildOf(ops + [op]) == Feed(BuildOf(ops), op)
  {
    assert (ops + [op])[..|ops|] == ops;
  }

  method PeekNextSection(lines: seq<string>, initialIndex: nat)
    returns (context: seq<string>, chunks: seq<Chunk>, index: nat, eof: bool)
    requires initialIndex <= |lines|
    ensures
      var section := PeekSection(lines, initialIndex);
      context == OldSide(section.ops) && chunks == ChunksOf(section.ops) && index == section.next && eof == section.eof
    ensures SectionSays(lines, initialIndex, context, chunks, index, eof)
  {
    hide BuildOf, SectionEnd, OpOf, EndsSection, OldSide, SectionSays, AllDeleted, AllInserted;
    index := initialIndex;
    context, chunks := [], [];
    var del: seq<string>, ins: seq<string> := [], [];
    var mode := KeepMode;
    ghost var ops: seq<Op> := [];
    NoOps();
    while index < |lines|
      invariant initialIndex <= index <= |lines|
      invariant ops == OpsOf(lines[initialIndex..index])
      invariant Build(mode, context, del, ins, chunks) == BuildOf(ops)
      invariant forall k :: initialIndex <= k < index ==> !EndsSection(lines[k])
    {
      var s := lines[index];
      var ends := EndSectionConditions(s);
      if ends {
        break;
      }
      index := index + 1;
      ghost var op := OpOf(s);
      FeedNext(ops, op);
      ops := ops + [op];
      assert lines[initialIndex..index] == lines[initialIndex..index - 1] + [s];

      var lastMode := mode;
      var line;
      mode, line := ReadMark(s);
      if mode == KeepMode && lastMode != mode {
        chunks := CloseChunk(context, del, ins, chunks);
        del, ins := [], [];
      }
      match mode
      case DeleteMode => del, context := del + [line], context + [line];
      case AddMode => ins := ins + [line];
      case KeepMode => context := context + [line];
    }
    assert index == SectionEnd(lines, initialIndex);
    chunks := CloseChunk(context, del, ins, chunks);
    eof := false;
    if index < |lines| && lines[index] == END_OF_FILE {
      index, eof := index + 1, true;
    }
    SectionReads(lines, initialIndex);
  }

  /** The line a section header names, among lines from..to. */
  lemma MatchesOne(level: Level, lines: seq<string>, def: string, i: nat)
    requires i < |lines|
    ensures MatchesAt(level, lines, [def], i) <==> Same(level, lines[i], def)
  {
    assert MatchesAt(level, lines, [def], i) ==> Same(level, lines[i + 0], [def][0]);
  }

  method ScanFor(lines: seq<string>, def: string, level: Level, from: nat, to: nat) returns (found: Option<nat>)
    requires from <= to <= |lines|
    ensures found == FirstMatch(level, lines[..to], [def], from)
  {
    hide MatchesAt, Same;
    var i := from;
    while i < to
      invariant from <= i <= to
      invariant FirstMatch(level, lines[..to], [def], from) == FirstMatch(level, lines[..to], [def], i)
    {
      MatchesOne(level, lines[..to], def, i);
      if Same(level, lines[i], def) {
        return Some(i);
      }
      i := i + 1;
    }
    found := None;
  }

  method FindDefinition(fileLines: seq<string>, def: string, at: nat) returns (next: nat, fuzz: nat)
    requires at <= |fileLines|
    ensures Located(next, fuzz) == LocateDef(fileLines, def, at)
  {
    next, fuzz := at, 0;
    if TrimSpace(def) != "" {
      assert fileLines[..|fileLines|] == fileLines;
      var earlier := ScanFor(fileLines, def, Exact, 0, at);
      var found := earlier.Some?;
      if !found {
        var later := ScanFor(fileLines, def, Exact, at, |fileLines|);
        if later.Some? {
          next, found := later.value + 1, true;
        }
      }
      if !found {
        earlier := ScanFor(fileLines, def, Trimmed, 0, at);
        found := earlier.Some?;
      }
      if !found {
        var later := ScanFor(fileLines, def, Trimmed, at, |fileLines|);
        if later.Some? {
          next, fuzz := later.value + 1, 1;
        }
      }
    }
  }

  /** The section's chunks, moved to where the section was found. */
  method ShiftChunks(chunks: seq<Chunk>, offset: nat) returns (shifted: seq<Chunk>)
    ensures shifted == Shift(chunks, offset)
  {
    shifted := [];
    var k := 0;
    while k < |chunks|
      invariant 0 <= k <= |chunks|
      invariant shifted == Shift(chunks, offset)[..k]
    {
      var ch := chunks[k];
      shifted := shifted + [ch.(origIndex := ch.origIndex + offset)];
      k := k + 1;
    }
  }

  lemma NoHunkChunks()
    ensures HunkChunks([]) == []
  {
  }

  lemma HunkChunksNext(hunks: seq<Hunk>, h: Hunk)
    ensures HunkChunks(hunks + [h]) == HunkChunks(hunks) + Shift(ChunksOf(h.ops), h.at)
  {
    assert (hunks + [h])[..|hunks|] == hunks;
  }

  // ---------------------------------------------------------------- parser

  lemma AddStep(lines: seq<string>, index: nat, content: seq<string>)
    requires index < |lines| && !Done(lines, index, FILE_ENDS)
    ensures ParseAdd(lines, index, content) ==
      if HasPrefix(lines[index], "+") then ParseAdd(lines, index + 1, content + [lines[index][1..]])
      else Err(InvalidAddLine(lines[index]))
    ensures ReadStr(lines, index, "").next == index + 1
  {
    hide Done;
  }

  lemma AddEnds(lines: seq<string>, index: nat, content: seq<string>)
    requires index <= |lines| && Done(lines, index, FILE_ENDS)
    ensures ParseAdd(lines, index, content) == Ok(Content(content, index))
  {
    hide Done;
  }

  class Parser {
    const currentFiles: map<string, string>
    const lines: seq<string>
    var index: nat
    var actions: map<string, PatchAction>
    var fuzz: nat
    /** What the stored actions were read from. */
    ghost var plan: map<string, Parsed>

    ghost predicate Valid()
      reads this
    {
      && index <= |lines|
      && actions.Keys == plan.Keys
      && forall path :: path in plan ==> actions[path] == ActionOf(plan[path])
    }

    constructor (currentFiles: map<string, string>, lines: seq<string>)
      ensures Valid() && this.currentFiles == currentFiles && this.lines == lines
      ensures index == 0 && fuzz == 0 && plan == map[]
    {
      this.currentFiles, this.lines := currentFiles, lines;
      index, fuzz, actions, plan := 0, 0, map[], map[];
    }

    method IsDone(prefixes: seq<string>) returns (done: bool)
      ensures done == Done(lines, index, prefixes)
      ensures !done ==> index < |lines|
    {
      if index >= |lines| {
        return true;
      }
      var k := 0;
      while k < |prefixes|
        invariant 0 <= k <= |prefixes|
        invariant forall j :: 0 <= j < k ==> !HasPrefix(lines[index], prefixes[j])
      {
        if HasPrefix(lines[index], prefixes[k]) {
          return true;
        }
        k := k + 1;
      }
      done := false;
    }

    method ReadString(prefix: string, returnEverything: bool) returns (text: string)
      modifies this`index
      ensures index == ReadStr(lines, old(index), prefix).next
      ensures !returnEverything ==> text == ReadStr(lines, old(index), prefix).text
      ensures returnEverything ==> text == if index > old(index) then lines[old(index)] else ""
    {
      if index >= |lines| {
        return "";
      }
      if HasPrefix(lines[index], prefix) {
        text := if returnEverything then lines[index] else lines[index][|prefix|..];
        index := index + 1;
        return;
      }
      text := "";
    }

    /** One turn of the section loop: the new file cursor and the section's
        chunks, placed in the file. */
    method TakeTurn(fileLines: seq<string>, at: nat, ghost hunks: seq<Hunk>)
      returns (r: Outcome<(nat, seq<Chunk>)>)
      requires index < |lines| && at <= |fileLines| && fileLines != []
      modifies this`index, this`fuzz
      ensures
        var spec := Turn(lines, fileLines, Cursor(old(index), at, old(fuzz), hunks));
        if !spec.Ok? then r == spec.PropagateFailure()
        else
          var c := spec.value;
          r.Ok? && index == c.pos && fuzz == c.fuzz && r.value.0 == c.at && HunkChunks(hunks) + r.value.1 == HunkChunks(c.hunks)
    {
      hide HunkChunks, PeekSection, FindContext, LocateDef, ChunksOf, OldSide, SectionSays;
      ghost var header := ReadHeader(lines, index);
      var def := ReadString("@@ ", false);
      var bare := false;
      if def == "" && index < |lines| && lines[index] == "@@" {
        bare := true;
        index := index + 1;
      }
      assert header == Header(def, bare, index);
      if def == "" && !bare && at != 0 {
        if index >= |lines| {
          return Panic;
        }
        return Err(InvalidLine(lines[index]));
      }
      var start, defFuzz := FindDefinition(fileLines, def, at);
      fuzz := fuzz + defFuzz;

      var context, sectionChunks, next, eof := PeekNextSection(lines, index);
      var found := FindContextFrom(fileLines, context, start, eof);
      if found.Panic? {
        return Panic;
      }
      if found.value.None? {
        return Err(ContextError(start, context, eof));
      }
      var hit := found.value.value;
      fuzz := fuzz + hit.fuzz;
      var chunks := ShiftChunks(sectionChunks, hit.at);
      HunkChunksNext(hunks, Hunk(hit.at, PeekSection(lines, index).ops, hit.level, eof));
      index := next;
      r := Ok((hit.at + |context|, chunks));
    }

    /** All sections of one update. */
    method ParseUpdateFile(text: string) returns (r: Outcome<PatchAction>)
      requires Valid()
      modifies this`index, this`fuzz
      ensures
        var spec := ParseUpdate(lines, Split(text), Cursor(old(index), 0, old(fuzz), []));
        if !spec.Ok? then r == spec.PropagateFailure()
        else var c := spec.value; r == Ok(ActionOf(ParsedUpdate(c.hunks, None))) && index == c.pos && fuzz == c.fuzz
      ensures r.Ok? ==> Valid()
    {
      hide Turn, HunkChunks, Done;
      var fileLines := Split(text);
      var at: nat := 0;
      var chunks: seq<Chunk> := [];
      ghost var c := Cursor(index, 0, fuzz, []);
      ghost var c0 := c;
      NoHunkChunks();
      var done := IsDone(UPDATE_ENDS);
      while !done
        invariant c == Cursor(index, at, fuzz, c.hunks) && index <= |lines| && at <= |fileLines|
        invariant chunks == HunkChunks(c.hunks)
        invariant done == Done(lines, index, UPDATE_ENDS) && (!done ==> index < |lines|)
        invariant ParseUpdate(lines, fileLines, c) == ParseUpdate(lines, fileLines, c0)
        decreases |lines| - index
      {
        ghost var spec := Turn(lines, fileLines, c);
        var turnStart := index;
        var turn := TakeTurn(fileLines, at, c.hunks);
        if !turn.Ok? {
          return turn.PropagateFailure();
        }
        if index == turnStart {
          return Diverge; // the source takes this same turn for ever
        }
        at := turn.value.0;
        chunks := chunks + turn.value.1;
        c := spec.value;
        done := IsDone(UPDATE_ENDS);
      }
      r := Ok(PatchAction(ActionUpdate, None, chunks, None));
    }

    method ParseAddFile() returns (r: Outcome<PatchAction>)
      requires Valid()
      modifies this`index
      ensures
        var spec := ParseAdd(lines, old(index), []);
        if !spec.Ok? then r == spec.PropagateFailure()
        else var content := spec.value; r == Ok(ActionOf(ParsedAdd(content.lines))) && index == content.next
      ensures r.Ok? ==> Valid()
    {
      hide Done, ParseAdd;
      var content: seq<string> := [];
      var done := IsDone(FILE_ENDS);
      while !done
        invariant index <= |lines|
        invariant done == Done(lines, index, FILE_ENDS) && (!done ==> index < |lines|)
        invariant ParseAdd(lines, index, content) == ParseAdd(lines, old(index), [])
        decreases |lines| - index
      {
        AddStep(lines, index, content);
        var s := ReadString("", true);
        if !HasPrefix(s, "+") {
          return Err(InvalidAddLine(s));
        }
        content := content + [s[1..]];
        done := IsDone(FILE_ENDS);
      }
      AddEnds(lines, index, content);
      r := Ok(PatchAction(ActionAdd, Some(Join(content)), [], None));
    }

    ghost function State(): ParseState
      reads this
    {
      ParseState(index, fuzz, plan)
    }

    /** The whole patch body. On success the stored actions are those of the plan. */
    method Parse() returns (r: Outcome<()>)
      requires Valid()
      modifies this
      ensures
        var spec := ParseEntries(lines, currentFiles, old(State()));
        if !spec.Ok? then r == spec.PropagateFailure()
        else r == Ok(()) && State() == spec.value && Valid()
    {
      hide ParseEntry, Done;
      ghost var s0 := State();
      var done := IsDone([END_PATCH]);
      while !done
        invariant Valid()
        invariant done == Done(lines, index, [END_PATCH]) && (!done ==> index < |lines|)
        invariant ParseEntries(lines, currentFiles, State()) == ParseEntries(lines, currentFiles, s0)
        decreases |lines| - index
      {
        var entry := ParseOne();
        if !entry.Ok? {
          return entry.PropagateFailure();
        }
        done := IsDone([END_PATCH]);
      }
      if index >= |lines| {
        return Panic;
      }
      index := index + 1;
      r := Ok(());
    }

    /** One turn of the entry loop. */
    method ParseOne() returns (r: Outcome<()>)
      requires Valid() && index < |lines|
      modifies this
      ensures
        var spec := ParseEntry(lines, currentFiles, old(State()));
        if !spec.Ok? then r == spec.PropagateFailure()
        else r == Ok(()) && State() == spec.value && Valid()
    {
      hide ReadStr, ParseUpdate, ParseAdd, Split, HunkChunks;
      var path := ReadString(UPDATE_FILE, false);
      if path != "" {
        if path in actions {
          return Err(FileError(ActionUpdate, DuplicatePath, path));
        }
        var moveTo := ReadString(MOVE_TO, false);
        if path !in currentFiles {
          return Err(FileError(ActionUpdate, MissingFile, path));
        }
        ghost var c := ParseUpdate(lines, Split(currentFiles[path]), Cursor(index, 0, fuzz, []));
        var action :- ParseUpdateFile(currentFiles[path]);
        if moveTo != "" {
          action := action.(movePath := Some(moveTo));
        }
        Store(path, action, ParsedUpdate(c.value.hunks, action.movePath));
        return Ok(());
      }
      path := ReadString(DELETE_FILE, false);
      if path != "" {
        if path in actions {
          return Err(FileError(ActionDelete, DuplicatePath, path));
        }
        if path !in currentFiles {
          return Err(FileError(ActionDelete, MissingFile, path));
        }
        Store(path, PatchAction(ActionDelete, None, [], None), ParsedDelete);
        return Ok(());
      }
      path := ReadString(ADD_FILE, false);
      if path != "" {
        if path in actions {
          return Err(FileError(ActionAdd, DuplicatePath, path));
        }
        if path in currentFiles {
          return Err(FileError(ActionAdd, FileExists, path));
        }
        ghost var content := ParseAdd(lines, index, []);
        var action :- ParseAddFile();
        Store(path, action, ParsedAdd(content.value.lines));
        return Ok(());
      }
      if index >= |lines| {
        return Panic;
      }
      r := Err(UnknownLine(lines[index]));
    }

    method Store(path: string, action: PatchAction, ghost parsed: Parsed)
      requires Valid() && action == ActionOf(parsed)
      modifies this`actions, this`plan
      ensures Valid() && plan == old(plan)[path := parsed]
    {
      actions := actions[path := action];
      plan := plan[path := parsed];
    }
  }

  datatype Patch = Patch(actions: map<string, PatchAction>, fuzz: nat)

  function PatchOf(plan: Plan): Patch {
    Patch(map path | path in plan.entries :: ActionOf(plan.entries[path]), plan.fuzz)
  }

  lemma ActionsOfPlan(actions: map<string, PatchAction>, plan: Plan)
    requires actions.Keys == plan.entries.Keys
    requires forall path :: path in plan.entries ==> actions[path] == ActionOf(plan.entries[path])
    ensures PatchOf(plan) == Patch(actions, plan.fuzz)
  {
  }

  method TextToPatch(text: string, orig: map<string, string>) returns (r: Outcome<Patch>)
    ensures
      var plan := PlanOf(text, orig);
      r == if plan.Ok? then Ok(PatchOf(plan.value)) else plan.PropagateFailure()
  {
    hide ParseEntries, Split, TrimSpace, ActionOf, PatchOf;
    var lines := Split(TrimSpace(text));
    if |lines| < 2 || !HasPrefix(lines[0], BEGIN_PATCH) || lines[|lines| - 1] != END_PATCH {
      return Err(InvalidPatchText);
    }
    var parser := new Parser(orig, lines);
    parser.index := 1;
    ghost var s0 := parser.State();
    var parsed := parser.Parse();
    ghost var spec := ParseEntries(lines, orig, s0);
    assert s0 == ParseState(1, 0, map[]);
    if !parsed.Ok? {
      return parsed.PropagateFailure();
    }
    ActionsOfPlan(parser.actions, Plan(spec.value.plan, spec.value.fuzz));
    r := Ok(Patch(parser.actions, parser.fuzz));
  }

  // ------------------------------------------------------- files of a patch

  /** What follows the prefix in the lines that start with it. */
  function Named(lines: seq<string>, prefix: string): set<string> {
    if lines == [] then {}
    else
      var line := lines[|lines| - 1];
      Named(lines[..|lines| - 1], prefix) + if HasPrefix(line, prefix) then {line[|prefix|..]} else {}
  }

  lemma {:induction false} NamedIff(lines: seq<string>, prefix: string, path: string)
    ensures path in Named(lines, prefix) <==> prefix + path in lines
  {
    if lines != [] {
      var init, line := lines[..|lines| - 1], lines[|lines| - 1];
      NamedIff(init, prefix, path);
      assert lines == init + [line];
      assert HasPrefix(line, prefix) ==> line == prefix + line[|prefix|..];
      assert line == prefix + path ==> HasPrefix(line, prefix) && line[|prefix|..] == path;
    }
  }

  function Elements(files: seq<string>): set<string> {
    set path | path in files
  }

  method CollectNames(lines: seq<string>, prefixes: seq<string>) returns (files: seq<string>)
    requires |prefixes| == 2
    ensures Distinct(files) && Elements(files) == Named(lines, prefixes[0]) + Named(lines, prefixes[1])
  {
    files := [];
    var k := 0;
    while k < |lines|
      invariant 0 <= k <= |lines|
      invariant Distinct(files)
      invariant Elements(files) == Named(lines[..k], prefixes[0]) + Named(lines[..k], prefixes[1])
    {
      var line := lines[k];
      assert lines[..k + 1][..k] == lines[..k];
      if HasPrefix(line, prefixes[0]) {
        files := AddName(files, line[|prefixes[0]|..]);
      }
      if HasPrefix(line, prefixes[1]) {
        files := AddName(files, line[|prefixes[1]|..]);
      }
      k := k + 1;
    }
    assert lines[..k] == lines;
  }

  method AddName(files: seq<string>, path: string) returns (r: seq<string>)
    requires Distinct(files)
    ensures Distinct(r) && Elements(r) == Elements(files) + {path}
  {
    r := if path in files then files else files + [path];
  }

  predicate Updates(lines: seq<string>, path: string) {
    UPDATE_FILE + path in lines
  }

  predicate Deletes(lines: seq<string>, path: string) {
    DELETE_FILE + path in lines
  }

  predicate Adds(lines: seq<string>, path: string) {
    ADD_FILE + path in lines
  }

  /** The files a patch updates or deletes, each once. */
  method IdentifyFilesNeeded(text: string) returns (files: seq<string>)
    ensures Distinct(files)
    ensures forall path :: path in files <==> Updates(PatchLines(text), path) || Deletes(PatchLines(text), path)
  {
    hide Named, Split, TrimSpace;
    var lines := Split(TrimSpace(text));
    files := CollectNames(lines, [UPDATE_FILE, DELETE_FILE]);
    forall path
      ensures path in files <==> Updates(lines, path) || Deletes(lines, path)
    {
      NamedIff(lines, UPDATE_FILE, path);
      NamedIff(lines, DELETE_FILE, path);
      assert path in files <==> path in Elements(files);
    }
  }

  /** The files a patch adds, each once. */
  method IdentifyFilesAdded(text: string) returns (files: seq<string>)
    ensures Distinct(files)
    ensures forall path :: path in files <==> Adds(PatchLines(text), path)
  {
    hide Named, Split, TrimSpace;
    var lines := Split(TrimSpace(text));
    files := CollectNames(lines, [ADD_FILE, ADD_FILE]);
    forall path
      ensures path in files <==> Adds(lines, path)
    {
      NamedIff(lines, ADD_FILE, path);
      assert path in files <==> path in Elements(files);
    }
  }
}
