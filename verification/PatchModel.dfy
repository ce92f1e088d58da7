/** What a patch says, independently of how the parser walks over it.

    An update section is read as a list of operations on lines (keep, delete,
    insert) and the place in the file where the section was found. The parser's
    chunks are derived from that in PatchChunks; their effect on a file is stated
    against the operations. */
module PatchModel {
  import opened Basics
  import opened Text

  const END_PATCH := "*** End Patch"
  const BEGIN_PATCH := "*** Begin Patch"
  const UPDATE_FILE := "*** Update File: "
  const DELETE_FILE := "*** Delete File: "
  const ADD_FILE := "*** Add File: "
  const MOVE_TO := "*** Move to: "
  const END_OF_FILE := "*** End of File"
  const FILE_ENDS: seq<string> := [END_PATCH, "*** Update File:", "*** Delete File:", "*** Add File:"]
  const UPDATE_ENDS: seq<string> := FILE_ENDS + [END_OF_FILE]

  datatype ActionType = ActionAdd | ActionDelete | ActionUpdate

  datatype Reason = DuplicatePath | MissingFile | FileExists

  /** The errors the engine reports, by what their messages carry. */
  datatype DiffError =
    | FileError(action: ActionType, reason: Reason, path: string)
    | ContextError(index: nat, context: seq<string>, isEof: bool)
    | InvalidLine(line: string)
    | UnknownLine(line: string)
    | InvalidAddLine(line: string)
    | InvalidPatchText
    | NotAnUpdate
    | ChunkPastEnd(start: nat, lineCount: nat)
    | ChunkBackwards(cursor: nat, start: nat)
    | DeletesPastEnd(excess: nat, lineCount: nat)

  /** A Go call returns a value, returns an error, panics, or never returns. */
  datatype Outcome<+T> = Ok(value: T) | Err(error: DiffError) | Panic | Diverge {
    predicate IsFailure() {
      !Ok?
    }
    function PropagateFailure<U>(): (r: Outcome<U>)
      requires !Ok?
      ensures !r.Ok?
    {
      match this
      case Err(e) => Err(e)
      case Panic => Panic
      case Diverge => Diverge
    }
    function Extract(): T
      requires Ok?
    {
      value
    }
  }

  datatype Chunk = Chunk(origIndex: nat, delLines: seq<string>, insLines: seq<string>)

  datatype PatchAction = PatchAction(
    kind: ActionType, newFile: Option<string>, chunks: seq<Chunk>, movePath: Option<string>)

  // ---------------------------------------------------------------- sections

  datatype Op = Keep(line: string) | Del(line: string) | Ins(line: string)

  /** How a line of a section reads. A line without a marker is a kept line. */
  function OpOf(s: string): Op {
    if s == "" then Keep("")
    else if s[0] == '+' then Ins(s[1..])
    else if s[0] == '-' then Del(s[1..])
    else if s[0] == ' ' then Keep(s[1..])
    else Keep(s)
  }

  function OpsOf(lines: seq<string>): (ops: seq<Op>)
    ensures |ops| == |lines|
    ensures forall k :: 0 <= k < |lines| ==> ops[k] == OpOf(lines[k])
  {
    seq(|lines|, k requires 0 <= k < |lines| => OpOf(lines[k]))
  }

  /** The lines a section expects to find in the file. */
  function OldSide(ops: seq<Op>): seq<string> {
    if ops == [] then []
    else
      var before, op := OldSide(ops[..|ops| - 1]), ops[|ops| - 1];
      if op.Ins? then before else before + [op.line]
  }

  /** The lines a section leaves behind when every line it names is there. */
  function NewSide(ops: seq<Op>): seq<string> {
    if ops == [] then []
    else
      var before, op := NewSide(ops[..|ops| - 1]), ops[|ops| - 1];
      if op.Del? then before else before + [op.line]
  }

  predicate EndsSection(s: string) {
    HasPrefix(s, "@@") || HasPrefix(s, "***")
  }

  /** The first line from `from` on that ends a section, or the end of the patch. */
  function SectionEnd(lines: seq<string>, from: nat): (end: nat)
    requires from <= |lines|
    ensures from <= end <= |lines|
    ensures forall k :: from <= k < end ==> !EndsSection(lines[k])
    ensures end < |lines| ==> EndsSection(lines[end])
    decreases |lines| - from
  {
    if from == |lines| || EndsSection(lines[from]) then from else SectionEnd(lines, from + 1)
  }

  datatype Section = Section(ops: seq<Op>, next: nat, eof: bool)

  function PeekSection(lines: seq<string>, from: nat): (s: Section)
    requires from <= |lines|
    ensures from <= s.next <= |lines|
    ensures s.eof ==> s.next > from
  {
    var end := SectionEnd(lines, from);
    var eof := end < |lines| && lines[end] == END_OF_FILE;
    Section(OpsOf(lines[from..end]), if eof then end + 1 else end, eof)
  }

  // ---------------------------------------------------------- context search

  datatype Level = Exact | RightTrimmed | Trimmed

  predicate Same(level: Level, a: string, b: string) {
    match level
    case Exact => a == b
    case RightTrimmed => TrimRight(a, IsBlank) == TrimRight(b, IsBlank)
    case Trimmed => TrimSpace(a) == TrimSpace(b)
  }

  predicate MatchesAt(level: Level, lines: seq<string>, context: seq<string>, i: nat) {
    && i + |context| <= |lines|
    && forall j :: 0 <= j < |context| ==> Same(level, lines[i + j], context[j])
  }

  function FirstMatch(level: Level, lines: seq<string>, context: seq<string>, start: nat): (found: Option<nat>)
    ensures found.Some? ==> start <= found.value < |lines| && MatchesAt(level, lines, context, found.value)
    ensures forall i :: start <= i < (if found.Some? then found.value else |lines|) ==> !MatchesAt(level, lines, context, i)
    decreases |lines| - start
  {
    if start >= |lines| then None
    else if MatchesAt(level, lines, context, start) then Some(start)
    else FirstMatch(level, lines, context, start + 1)
  }

  datatype Hit = Hit(at: nat, level: Level, fuzz: nat)

  /** The fuzz a comparison level reports, by the engine's own two probes. */
  function FuzzOf(level: Level): nat {
    if Same(level, "a ", "a") && !Same(level, "a", "b") then 1
    else if Same(level, "a  ", "a") then 100
    else 0
  }

  function FindCore(lines: seq<string>, context: seq<string>, start: nat): (found: Option<Hit>)
    requires start <= |lines|
    ensures found.Some? ==> start <= found.value.at && MatchesAt(found.value.level, lines, context, found.value.at)
  {
    if context == [] then Some(Hit(start, Exact, 0))
    else if FirstMatch(Exact, lines, context, start).Some? then
      Some(Hit(FirstMatch(Exact, lines, context, start).value, Exact, FuzzOf(Exact)))
    else if FirstMatch(RightTrimmed, lines, context, start).Some? then
      Some(Hit(FirstMatch(RightTrimmed, lines, context, start).value, RightTrimmed, FuzzOf(RightTrimmed)))
    else if FirstMatch(Trimmed, lines, context, start).Some? then
      Some(Hit(FirstMatch(Trimmed, lines, context, start).value, Trimmed, FuzzOf(Trimmed)))
    else None
  }

  /** Where a section's context lies. An end-of-file section is looked for at the
      very end first; more context lines than the file has make that start
      negative, and reading a line there panics. */
  function FindContext(lines: seq<string>, context: seq<string>, start: nat, eof: bool): (found: Outcome<Option<Hit>>)
    requires start <= |lines|
    ensures found.Ok? || found.Panic?
    ensures found.Panic? <==> eof && |context| > |lines|
    ensures found.Ok? && found.value.Some? ==>
      MatchesAt(found.value.value.level, lines, context, found.value.value.at)
    ensures found.Ok? && found.value.Some? && !eof ==> start <= found.value.value.at
  {
    if !eof then Ok(FindCore(lines, context, start))
    else if |context| > |lines| then Panic
    else
      var atEnd := FindCore(lines, context, |lines| - |context|);
      if atEnd.Some? then Ok(atEnd)
      else
        match FindCore(lines, context, start)
        case None => Ok(None)
        case Some(hit) => Ok(Some(hit.(fuzz := hit.fuzz + 10000)))
  }

  // ------------------------------------------------------- update actions

  /** One section as found in the file: it starts at line `at`. */
  datatype Hunk = Hunk(at: nat, ops: seq<Op>, level: Level, eof: bool)

  datatype Cursor = Cursor(pos: nat, at: nat, fuzz: nat, hunks: seq<Hunk>)

  datatype Located = Located(at: nat, fuzz: nat)

  /** Moving the file cursor past the line a section header names, and its fuzz. */
  function LocateDef(file: seq<string>, def: string, at: nat): (r: Located)
    requires at <= |file|
    ensures at <= r.at <= |file|
  {
    if TrimSpace(def) == "" || FirstMatch(Exact, file[..at], [def], 0).Some? then Located(at, 0)
    else if FirstMatch(Exact, file, [def], at).Some? then Located(FirstMatch(Exact, file, [def], at).value + 1, 0)
    else if FirstMatch(Trimmed, file[..at], [def], 0).Some? then Located(at, 0)
    else if FirstMatch(Trimmed, file, [def], at).Some? then Located(FirstMatch(Trimmed, file, [def], at).value + 1, 1)
    else Located(at, 0)
  }

  /** What reading a prefixed line gives, and the cursor after it. */
  datatype Read = Read(text: string, next: nat)

  function ReadStr(lines: seq<string>, index: nat, prefix: string): (r: Read)
    ensures r.next == index || r.next == index + 1
    ensures index <= |lines| ==> r.next <= |lines|
    ensures r.text != "" ==> index < |lines| && r.next == index + 1 && lines[index] == prefix + r.text
  {
    if index < |lines| && HasPrefix(lines[index], prefix) then Read(lines[index][|prefix|..], index + 1)
    else Read("", index)
  }

  predicate Done(lines: seq<string>, index: nat, prefixes: seq<string>) {
    index >= |lines| || HasAnyPrefix(lines[index], prefixes)
  }

  /** The header of a section: its name, whether it is a bare "@@", and where the body starts. */
  datatype Header = Header(def: string, bare: bool, body: nat)

  function ReadHeader(lines: seq<string>, pos: nat): (h: Header)
    requires pos <= |lines|
    ensures pos <= h.body <= |lines|
  {
    var r := ReadStr(lines, pos, "@@ ");
    var bare := r.text == "" && r.next < |lines| && lines[r.next] == "@@";
    Header(r.text, bare, if bare then r.next + 1 else r.next)
  }

  /** Finding a section whose body starts at `body` in the file, from line `at` on. */
  function Place(lines: seq<string>, file: seq<string>, c: Cursor, body: nat, at: nat, fuzz: nat): (r: Outcome<Cursor>)
    requires body <= |lines| && at <= |file|
    ensures !r.Diverge?
    ensures r.Ok? ==> body <= r.value.pos <= |lines| && r.value.at <= |file|
  {
    var section := PeekSection(lines, body);
    var context := OldSide(section.ops);
    match FindContext(file, context, at, section.eof)
    case Panic => Panic
    case Ok(None) => Err(ContextError(at, context, section.eof))
    case Ok(Some(hit)) =>
      Ok(Cursor(section.next, hit.at + |context|, c.fuzz + fuzz + hit.fuzz,
                c.hunks + [Hunk(hit.at, section.ops, hit.level, section.eof)]))
  }

  /** One turn of the section loop. */
  function Turn(lines: seq<string>, file: seq<string>, c: Cursor): (r: Outcome<Cursor>)
    requires c.pos < |lines| && c.at <= |file|
    ensures !r.Diverge?
    ensures r.Ok? ==> c.pos <= r.value.pos <= |lines| && r.value.at <= |file|
  {
    var h := ReadHeader(lines, c.pos);
    if h.def == "" && !h.bare && c.at != 0 then
      if h.body < |lines| then Err(InvalidLine(lines[h.body])) else Panic
    else
      var def := LocateDef(file, h.def, c.at);
      Place(lines, file, c, h.body, def.at, def.fuzz)
  }

  /** All sections of one update. A turn that leaves the cursor where it was is
      repeated for ever (see StuckTurnRepeats). */
  function ParseUpdate(lines: seq<string>, file: seq<string>, c: Cursor): (r: Outcome<Cursor>)
    requires c.pos <= |lines| && c.at <= |file|
    ensures r.Ok? ==> c.pos <= r.value.pos <= |lines|
    decreases |lines| - c.pos
  {
    if Done(lines, c.pos, UPDATE_ENDS) then Ok(c)
    else
      var next :- Turn(lines, file, c);
      if next.pos == c.pos then Diverge else ParseUpdate(lines, file, next)
  }

  // ------------------------------------------------------- whole patches

  datatype Parsed =
    | ParsedUpdate(hunks: seq<Hunk>, moveTo: Option<string>)
    | ParsedDelete
    | ParsedAdd(lines: seq<string>)

  datatype ParseState = ParseState(index: nat, fuzz: nat, plan: map<string, Parsed>)

  datatype Content = Content(lines: seq<string>, next: nat)

  function ParseAdd(lines: seq<string>, index: nat, sofar: seq<string>): (r: Outcome<Content>)
    requires index <= |lines|
    ensures r.Ok? ==> index <= r.value.next <= |lines|
    decreases |lines| - index
  {
    if Done(lines, index, FILE_ENDS) then Ok(Content(sofar, index))
    else if HasPrefix(lines[index], "+") then ParseAdd(lines, index + 1, sofar + [lines[index][1..]])
    else Err(InvalidAddLine(lines[index]))
  }

  /** One file entry of a patch. */
  function ParseEntry(lines: seq<string>, files: map<string, string>, s: ParseState): (r: Outcome<ParseState>)
    requires s.index < |lines|
    ensures r.Ok? ==> s.index < r.value.index <= |lines|
  {
    var updated := ReadStr(lines, s.index, UPDATE_FILE);
    if updated.text != "" then
      var path := updated.text;
      if path in s.plan then Err(FileError(ActionUpdate, DuplicatePath, path))
      else if path !in files then Err(FileError(ActionUpdate, MissingFile, path))
      else
        var target := ReadStr(lines, updated.next, MOVE_TO);
        var c :- ParseUpdate(lines, Split(files[path]), Cursor(target.next, 0, s.fuzz, []));
        var moveTo := if target.text != "" then Some(target.text) else None;
        Ok(ParseState(c.pos, c.fuzz, s.plan[path := ParsedUpdate(c.hunks, moveTo)]))
    else ParseNoUpdate(lines, files, s.(index := updated.next), s.index)
  }

  /** An entry that is not an update; `at` is where it began. */
  function ParseNoUpdate(lines: seq<string>, files: map<string, string>, s: ParseState, at: nat): (r: Outcome<ParseState>)
    requires at <= s.index <= |lines|
    ensures r.Ok? ==> at < r.value.index <= |lines|
  {
    var deleted := ReadStr(lines, s.index, DELETE_FILE);
    var added := ReadStr(lines, deleted.next, ADD_FILE);
    if deleted.text != "" then
      var path := deleted.text;
      if path in s.plan then Err(FileError(ActionDelete, DuplicatePath, path))
      else if path !in files then Err(FileError(ActionDelete, MissingFile, path))
      else Ok(ParseState(deleted.next, s.fuzz, s.plan[path := ParsedDelete]))
    else if added.text != "" then
      var path := added.text;
      if path in s.plan then Err(FileError(ActionAdd, DuplicatePath, path))
      else if path in files then Err(FileError(ActionAdd, FileExists, path))
      else
        var content :- ParseAdd(lines, added.next, []);
        Ok(ParseState(content.next, s.fuzz, s.plan[path := ParsedAdd(content.lines)]))
    else if added.next < |lines| then Err(UnknownLine(lines[added.next]))
    else Panic
  }

  function ParseEntries(lines: seq<string>, files: map<string, string>, s: ParseState): (r: Outcome<ParseState>)
    requires s.index <= |lines|
    decreases |lines| - s.index
  {
    if Done(lines, s.index, [END_PATCH]) then
      if s.index >= |lines| then Panic
      else Ok(s.(index := s.index + 1))
    else
      var next :- ParseEntry(lines, files, s);
      ParseEntries(lines, files, next)
  }

  datatype Plan = Plan(entries: map<string, Parsed>, fuzz: nat)

  function PatchLines(text: string): seq<string> {
    Split(TrimSpace(text))
  }

  predicate HasEnvelope(lines: seq<string>) {
    |lines| >= 2 && HasPrefix(lines[0], BEGIN_PATCH) && lines[|lines| - 1] == END_PATCH
  }

  function PlanOf(text: string, files: map<string, string>): Outcome<Plan> {
    var lines := PatchLines(text);
    if !HasEnvelope(lines) then Err(InvalidPatchText)
    else
      var s :- ParseEntries(lines, files, ParseState(1, 0, map[]));
      Ok(Plan(s.plan, s.fuzz))
  }
}
