/** Any set of file edits, written out as a patch, is read back as those edits. */
module PatchRoundTrip {
  import opened Basics
  import opened Text
  import opened PatchModel
  import opened PatchChunks
  import opened PatchSafety

  /** Rewriting a file by a script over all its lines, removing it, or creating it. */
  datatype Edit =
    | Rewrite(path: string, moveTo: Option<string>, bare: bool, script: seq<Op>)
    | Remove(path: string)
    | Create(path: string, content: string)

  function RenderOp(op: Op): string {
    match op
    case Keep(line) => " " + line
    case Del(line) => "-" + line
    case Ins(line) => "+" + line
  }

  function RenderOps(script: seq<Op>): (lines: seq<string>)
    ensures |lines| == |script|
    ensures forall k :: 0 <= k < |script| ==> lines[k] == RenderOp(script[k])
  {
    seq(|script|, k requires 0 <= k < |script| => RenderOp(script[k]))
  }

  function Prefixed(mark: string, lines: seq<string>): (r: seq<string>)
    ensures |r| == |lines|
    ensures forall k :: 0 <= k < |lines| ==> r[k] == mark + lines[k]
  {
    seq(|lines|, k requires 0 <= k < |lines| => mark + lines[k])
  }

  function MoveLine(moveTo: Option<string>): seq<string> {
    if moveTo.Some? then [MOVE_TO + moveTo.value] else []
  }

  /** What follows the line naming the file. */
  function Body(e: Edit): seq<string> {
    match e
    case Rewrite(_, moveTo, bare, script) => MoveLine(moveTo) + (if bare then ["@@"] else []) + RenderOps(script)
    case Remove(_) => []
    case Create(_, content) => Prefixed("+", Split(content))
  }

  function Marker(e: Edit): string {
    match e
    case Rewrite(_, _, _, _) => UPDATE_FILE
    case Remove(_) => DELETE_FILE
    case Create(_, _) => ADD_FILE
  }

  function RenderEdits(edits: seq<Edit>): seq<string> {
    if edits == [] then [END_PATCH]
    else [Marker(edits[0]) + edits[0].path] + Body(edits[0]) + RenderEdits(edits[1..])
  }

  function RenderPatch(edits: seq<Edit>): string {
    Join([BEGIN_PATCH] + RenderEdits(edits))
  }

  predicate OneLineOps(script: seq<Op>) {
    forall k :: 0 <= k < |script| ==> OneLine(script[k].line)
  }

  /** An edit that fits the files: the script runs over all lines of its file. */
  predicate Fits(e: Edit, files: map<string, string>) {
    && e.path != "" && OneLine(e.path)
    && match e
       case Rewrite(path, moveTo, _, script) =>
         && path in files && OldSide(script) == Split(files[path]) && OneLineOps(script)
         && (moveTo.Some? ==> moveTo.value != "" && OneLine(moveTo.value))
       case Remove(path) => path in files
       case Create(path, _) => path !in files
  }

  predicate AllFit(edits: seq<Edit>, files: map<string, string>) {
    && (forall k :: 0 <= k < |edits| ==> Fits(edits[k], files))
    && (forall j, k :: 0 <= j < k < |edits| ==> edits[j].path != edits[k].path)
  }

  function ParsedEdit(e: Edit): Parsed {
    match e
    case Rewrite(_, moveTo, _, script) => ParsedUpdate([Hunk(0, script, Exact, false)], moveTo)
    case Remove(_) => ParsedDelete
    case Create(_, content) => ParsedAdd(Split(content))
  }

  /** The plan the edits stand for. */
  function PlanEdits(edits: seq<Edit>, sofar: map<string, Parsed>): map<string, Parsed> {
    if edits == [] then sofar
    else PlanEdits(edits[1..], sofar[edits[0].path := ParsedEdit(edits[0])])
  }

  // ------------------------------------------------------------- the lines

  lemma RenderedOp(op: Op)
    requires OneLine(op.line)
    ensures OpOf(RenderOp(op)) == op && !EndsSection(RenderOp(op)) && OneLine(RenderOp(op))
    ensures !HasAnyPrefix(RenderOp(op), UPDATE_ENDS) && !HasPrefix(RenderOp(op), "@@ ") && RenderOp(op) != "@@"
    ensures !HasPrefix(RenderOp(op), MOVE_TO)
  {
    var s := RenderOp(op);
    assert s[1..] == op.line;
    assert s[0] != '@' && s[0] != '*';
    NotStarred(s);
  }

  /** A line that does not start with a star is no marker. */
  lemma NotStarred(s: string)
    requires s == "" || s[0] != '*'
    ensures !HasAnyPrefix(s, UPDATE_ENDS) && !HasAnyPrefix(s, FILE_ENDS) && !HasPrefix(s, MOVE_TO)
  {
    assert MOVE_TO[0] == '*';
    forall k | 0 <= k < |UPDATE_ENDS|
      ensures !HasPrefix(s, UPDATE_ENDS[k])
    {
      assert UPDATE_ENDS[k][0] == '*';
    }
    forall k | 0 <= k < |FILE_ENDS|
      ensures !HasPrefix(s, FILE_ENDS[k])
    {
      assert FILE_ENDS[k] == UPDATE_ENDS[k];
    }
  }

  /** The line after an edit's body closes it, whatever the edit was. */
  predicate Closes(line: string) {
    EndsSection(line) && line != END_OF_FILE && HasAnyPrefix(line, UPDATE_ENDS) && HasAnyPrefix(line, FILE_ENDS)
    && !HasPrefix(line, MOVE_TO)
  }

  lemma ClosedBy(line: string, k: nat)
    requires k < 4 && HasPrefix(line, FILE_ENDS[k])
    ensures Closes(line)
  {
    assert FILE_ENDS[k] == UPDATE_ENDS[k];
    assert FILE_ENDS[k][0] == '*' && FILE_ENDS[k][1] == '*' && FILE_ENDS[k][2] == '*';
    assert HasPrefix(line, "***");
    assert MOVE_TO[4] == 'M' && FILE_ENDS[k][4] != 'M';
    assert line[4] == FILE_ENDS[k][4];
    assert END_OF_FILE[4] == 'E' && END_OF_FILE[8] == 'o' && END_PATCH[8] == 'P';
    if k == 0 {
      assert line[8] == 'P';
    }
  }

  lemma MarkerLine(e: Edit)
    requires e.path != "" && OneLine(e.path)
    ensures
      var line := Marker(e) + e.path;
      && Closes(line) && OneLine(line)
      && !HasPrefix(line, END_PATCH)
      && (HasPrefix(line, UPDATE_FILE) <==> e.Rewrite?)
      && (HasPrefix(line, DELETE_FILE) <==> e.Remove?)
      && (HasPrefix(line, ADD_FILE) <==> e.Create?)
      && line[|Marker(e)|..] == e.path
  {
    var line := Marker(e) + e.path;
    assert END_PATCH[4] == 'E' && UPDATE_FILE[4] == 'U' && DELETE_FILE[4] == 'D' && ADD_FILE[4] == 'A';
    assert line[4] == Marker(e)[4];
    assert Closes(line) by {
      var k := if e.Rewrite? then 1 else if e.Remove? then 2 else 3;
      assert HasPrefix(Marker(e), FILE_ENDS[k]);
      assert HasPrefix(line, FILE_ENDS[k]);
      ClosedBy(line, k);
    }
    hide Closes;
  }

  lemma FirstCloses(edits: seq<Edit>, files: map<string, string>)
    requires AllFit(edits, files)
    ensures RenderEdits(edits) != [] && Closes(RenderEdits(edits)[0])
  {
    if edits == [] {
      ClosedBy(END_PATCH, 0);
    } else {
      MarkerLine(edits[0]);
    }
  }

  // ------------------------------------------------------------- reading back

  lemma SectionEndIs(lines: seq<string>, from: nat, end: nat)
    requires from <= end < |lines| && EndsSection(lines[end])
    requires forall k :: from <= k < end ==> !EndsSection(lines[k])
    ensures SectionEnd(lines, from) == end
  {
  }

  lemma ReadSection(lines: seq<string>, body: nat, script: seq<Op>)
    requires OneLineOps(script) && body + |script| < |lines| && Closes(lines[body + |script|])
    requires lines[body..body + |script|] == RenderOps(script)
    ensures PeekSection(lines, body) == Section(script, body + |script|, false)
  {
    var end := body + |script|;
    forall k | 0 <= k < |script|
      ensures OpOf(lines[body + k]) == script[k] && !EndsSection(lines[body + k])
    {
      assert lines[body + k] == lines[body..end][k];
      RenderedOp(script[k]);
    }
    forall k | body <= k < end
      ensures !EndsSection(lines[k])
    {
      assert !EndsSection(lines[body + (k - body)]);
    }
    SectionEndIs(lines, body, end);
    assert OpsOf(lines[body..end]) == script;
  }

  /** The whole file is found at its start, exactly. */
  lemma FindWholeFile(file: seq<string>)
    requires file != []
    ensures FindContext(file, file, 0, false) == Ok(Some(Hit(0, Exact, 0)))
  {
    FuzzLevels();
    assert MatchesAt(Exact, file, file, 0);
    assert FirstMatch(Exact, file, file, 0) == Some(0);
  }

  lemma OpensSection(lines: seq<string>, pos: nat, body: nat, bare: bool)
    requires body < |lines| && body == if bare then pos + 1 else pos
    requires bare ==> lines[pos] == "@@"
    requires !bare ==>
      !HasAnyPrefix(lines[pos], UPDATE_ENDS) && !HasPrefix(lines[pos], "@@ ") && lines[pos] != "@@"
    ensures !Done(lines, pos, UPDATE_ENDS) && ReadHeader(lines, pos) == Header("", bare, body)
  {
    hide HasAnyPrefix;
    NotStarred("@@");
  }

  /** A section whose context is the whole file is placed at its start. */
  lemma TakesWholeFile(
    lines: seq<string>, file: seq<string>, c: Cursor, body: nat, script: seq<Op>, end: nat, next: Cursor)
    requires file != [] && c.at == 0 && c.pos < |lines| && body <= |lines|
    requires ReadHeader(lines, c.pos).def == "" && ReadHeader(lines, c.pos).body == body
    requires PeekSection(lines, body) == Section(script, end, false) && OldSide(script) == file
    requires next.pos == end && next.at == |file| && next.fuzz == c.fuzz
    requires c.hunks == [] && next.hunks == [Hunk(0, script, Exact, false)]
    ensures Turn(lines, file, c) == Ok(next)
  {
    hide ReadHeader, PeekSection, OldSide, FindContext, LocateDef;
    assert c.hunks + next.hunks == next.hunks;
    FindWholeFile(file);
    NoName(file, 0);
  }

  lemma ReadUpdate(
    lines: seq<string>, file: seq<string>, pos: nat, body: nat, fuzz: nat, bare: bool, script: seq<Op>, next: Cursor)
    requires OneLineOps(script) && OldSide(script) == file && file != []
    requires body == if bare then pos + 1 else pos
    requires bare ==> pos < |lines| && lines[pos] == "@@"
    requires body + |script| < |lines| && Closes(lines[body + |script|])
    requires lines[body..body + |script|] == RenderOps(script)
    requires next == Cursor(body + |script|, |file|, fuzz, [Hunk(0, script, Exact, false)])
    ensures ParseUpdate(lines, file, Cursor(pos, 0, fuzz, [])) == Ok(next)
  {
    hide ParseUpdate;
    FirstLineOpens(lines, pos, body, bare, script);
    ReadUpdateFrom(lines, file, Cursor(pos, 0, fuzz, []), body, script, next);
  }

  lemma FirstLineOpens(lines: seq<string>, pos: nat, body: nat, bare: bool, script: seq<Op>)
    requires OneLineOps(script) && script != [] && body == if bare then pos + 1 else pos
    requires bare ==> pos < |lines| && lines[pos] == "@@"
    requires body + |script| < |lines| && lines[body..body + |script|] == RenderOps(script)
    ensures !Done(lines, pos, UPDATE_ENDS) && ReadHeader(lines, pos) == Header("", bare, body)
  {
    hide RenderOp, EndsSection, HasAnyPrefix, ReadHeader, Done;
    assert lines[body] == lines[body..body + |script|][0];
    RenderedOp(script[0]);
    OpensSection(lines, pos, body, bare);
  }

  lemma ReadUpdateFrom(lines: seq<string>, file: seq<string>, c: Cursor, body: nat, script: seq<Op>, next: Cursor)
    requires OneLineOps(script) && OldSide(script) == file && file != []
    requires c.at == 0 && c.hunks == [] && c.pos <= body && body + |script| < |lines|
    requires !Done(lines, c.pos, UPDATE_ENDS)
    requires ReadHeader(lines, c.pos).def == "" && ReadHeader(lines, c.pos).body == body
    requires Closes(lines[body + |script|]) && lines[body..body + |script|] == RenderOps(script)
    requires next.pos == body + |script| && next.at == |file| && next.fuzz == c.fuzz
    requires next.hunks == [Hunk(0, script, Exact, false)]
    ensures ParseUpdate(lines, file, c) == Ok(next)
  {
    hide *;
    var end := body + |script|;
    assert script != [] by {
      NoOldSide();
    }
    CloserDone(lines, end);
    ReadSection(lines, body, script);
    TakesWholeFile(lines, file, c, body, script, end, next);
    OneTurn(lines, file, c, next);
  }

  lemma CloserDone(lines: seq<string>, end: nat)
    requires end < |lines| && Closes(lines[end])
    ensures Done(lines, end, UPDATE_ENDS) && HasAnyPrefix(lines[end], FILE_ENDS)
  {
  }

  lemma NoOldSide()
    ensures OldSide([]) == []
  {
  }

  lemma OneTurn(lines: seq<string>, file: seq<string>, c: Cursor, next: Cursor)
    requires c.pos < next.pos <= |lines| && c.at <= |file| && next.at <= |file|
    requires !Done(lines, c.pos, UPDATE_ENDS) && Done(lines, next.pos, UPDATE_ENDS)
    requires Turn(lines, file, c) == Ok(next)
    ensures ParseUpdate(lines, file, c) == Ok(next)
  {
    hide Turn, Done;
  }

  lemma {:induction false} ReadAdd(lines: seq<string>, index: nat, sofar: seq<string>, rest: seq<string>)
    requires index + |rest| < |lines| && lines[index..index + |rest|] == Prefixed("+", rest)
    requires HasAnyPrefix(lines[index + |rest|], FILE_ENDS)
    ensures ParseAdd(lines, index, sofar) == Ok(Content(sofar + rest, index + |rest|))
    decreases |rest|
  {
    if rest == [] {
      assert sofar + rest == sofar;
    } else {
      var line := lines[index];
      assert line == lines[index..index + |rest|][0] == "+" + rest[0];
      NotStarred(line);
      assert line[1..] == rest[0];
      assert lines[index + 1..index + 1 + |rest[1..]|] == lines[index..index + |rest|][1..];
      assert lines[index + 1..index + 1 + |rest[1..]|] == Prefixed("+", rest[1..]);
      ReadAdd(lines, index + 1, sofar + [rest[0]], rest[1..]);
      assert sofar + [rest[0]] + rest[1..] == sofar + rest;
    }
  }

  // ----------------------------------------------------------- whole entries

  /** The entry of an edit stands at `index`. */
  predicate StandsAt(lines: seq<string>, index: nat, e: Edit) {
    var end := index + 1 + |Body(e)|;
    && end < |lines| && Closes(lines[end])
    && lines[index] == Marker(e) + e.path
    && lines[index + 1..end] == Body(e)
  }

  lemma ReadRemove(lines: seq<string>, files: map<string, string>, s: ParseState, e: Edit)
    requires e.Remove? && Fits(e, files) && e.path !in s.plan && StandsAt(lines, s.index, e)
    ensures ParseEntry(lines, files, s) == Ok(ParseState(s.index + 1, s.fuzz, s.plan[e.path := ParsedDelete]))
  {
    hide Closes;
    MarkerLine(e);
    assert ReadStr(lines, s.index, UPDATE_FILE) == Read("", s.index);
    assert ReadStr(lines, s.index, DELETE_FILE) == Read(e.path, s.index + 1);
  }

  lemma ReadCreate(lines: seq<string>, files: map<string, string>, s: ParseState, e: Edit)
    requires e.Create? && Fits(e, files) && e.path !in s.plan && StandsAt(lines, s.index, e)
    ensures ParseEntry(lines, files, s)
      == Ok(ParseState(s.index + 1 + |Body(e)|, s.fuzz, s.plan[e.path := ParsedAdd(Split(e.content))]))
  {
    hide ParseAdd, Split, Prefixed, Closes, HasAnyPrefix;
    MarkerLine(e);
    assert ReadStr(lines, s.index, UPDATE_FILE) == Read("", s.index);
    assert ReadStr(lines, s.index, DELETE_FILE) == Read("", s.index);
    assert ReadStr(lines, s.index, ADD_FILE) == Read(e.path, s.index + 1);
    var content := Split(e.content);
    CloserDone(lines, s.index + 1 + |content|);
    ReadAdd(lines, s.index + 1, [], content);
    assert [] + content == content;
  }

  /** The optional move line is read exactly when it is there. */
  lemma ReadMove(lines: seq<string>, index: nat, moveTo: Option<string>)
    requires index + |MoveLine(moveTo)| < |lines|
    requires lines[index..index + |MoveLine(moveTo)|] == MoveLine(moveTo)
    requires moveTo.Some? ==> moveTo.value != ""
    requires moveTo.None? ==> !HasPrefix(lines[index], MOVE_TO)
    ensures
      var r := ReadStr(lines, index, MOVE_TO);
      r.next == index + |MoveLine(moveTo)| && moveTo == if r.text != "" then Some(r.text) else None
  {
    if moveTo.Some? {
      assert lines[index] == lines[index..index + 1][0];
      assert lines[index][|MOVE_TO|..] == moveTo.value;
    }
  }

  /** The three parts of a rewrite's body, in the patch. */
  lemma BodyParts(lines: seq<string>, index: nat, e: Edit)
    requires e.Rewrite? && StandsAt(lines, index, e) && e.script != [] && OneLineOps(e.script)
    ensures
      var pos := index + 1 + |MoveLine(e.moveTo)|;
      var body := if e.bare then pos + 1 else pos;
      && |Body(e)| == |MoveLine(e.moveTo)| + (if e.bare then 1 else 0) + |e.script|
      && lines[index + 1..pos] == MoveLine(e.moveTo)
      && (e.bare ==> lines[pos] == "@@")
      && lines[body..body + |e.script|] == RenderOps(e.script)
      && !HasPrefix(lines[pos], MOVE_TO)
  {
    hide RenderOp, Closes, MoveLine;
    var bare := if e.bare then ["@@"] else [];
    ThreeParts(lines, index + 1, MoveLine(e.moveTo), bare, RenderOps(e.script));
    var pos := index + 1 + |MoveLine(e.moveTo)|;
    if e.bare {
      assert lines[pos] == bare[0];
      NotStarred(lines[pos]);
    } else {
      assert lines[pos] == RenderOps(e.script)[0];
      RenderedOp(e.script[0]);
    }
  }

  lemma ThreeParts(lines: seq<string>, at: nat, a: seq<string>, b: seq<string>, c: seq<string>)
    requires at + |a| + |b| + |c| <= |lines| && lines[at..at + |a| + |b| + |c|] == a + b + c
    ensures lines[at..at + |a|] == a
    ensures forall k :: 0 <= k < |b| ==> lines[at + |a| + k] == b[k]
    ensures lines[at + |a| + |b|..at + |a| + |b| + |c|] == c
  {
    var all := lines[at..at + |a| + |b| + |c|];
    assert all[..|a|] == a && lines[at..at + |a|] == all[..|a|];
    assert all[|a| + |b|..] == c && lines[at + |a| + |b|..at + |a| + |b| + |c|] == all[|a| + |b|..];
    forall k | 0 <= k < |b| ensures lines[at + |a| + k] == b[k] {
      assert all[|a| + k] == b[k];
    }
  }

  lemma ReadRewrite(lines: seq<string>, files: map<string, string>, s: ParseState, e: Edit, next: ParseState)
    requires e.Rewrite? && Fits(e, files) && e.path !in s.plan && StandsAt(lines, s.index, e)
    requires next == ParseState(s.index + 1 + |Body(e)|, s.fuzz, s.plan[e.path := ParsedEdit(e)])
    ensures ParseEntry(lines, files, s) == Ok(next)
  {
    hide Split, Closes, Body, OldSide, ParseUpdate, RenderOp, OneLineOps;
    MarkerLine(e);
    var file := Split(files[e.path]);
    assert ReadStr(lines, s.index, UPDATE_FILE) == Read(e.path, s.index + 1);
    assert e.script != [] by {
      NoOldSide();
    }
    BodyParts(lines, s.index, e);
    ReadMove(lines, s.index + 1, e.moveTo);
    var pos := s.index + 1 + |MoveLine(e.moveTo)|;
    var body := if e.bare then pos + 1 else pos;
    var c := Cursor(body + |e.script|, |file|, s.fuzz, [Hunk(0, e.script, Exact, false)]);
    ReadUpdate(lines, file, pos, body, s.fuzz, e.bare, e.script, c);
  }

  lemma ReadEntry(lines: seq<string>, files: map<string, string>, s: ParseState, e: Edit, next: ParseState)
    requires Fits(e, files) && e.path !in s.plan && StandsAt(lines, s.index, e)
    requires next == ParseState(s.index + 1 + |Body(e)|, s.fuzz, s.plan[e.path := ParsedEdit(e)])
    ensures ParseEntry(lines, files, s) == Ok(next)
    ensures !Done(lines, s.index, [END_PATCH])
  {
    assert !Done(lines, s.index, [END_PATCH]) by {
      MarkerLine(e);
    }
    hide ParseEntry, Fits, StandsAt, Done;
    match e
    case Rewrite(_, _, _, _) => ReadRewrite(lines, files, s, e, next);
    case Remove(_) => ReadRemove(lines, files, s, e);
    case Create(_, _) => ReadCreate(lines, files, s, e);
  }

  // ------------------------------------------------------------ whole patches

  lemma FirstStands(lines: seq<string>, files: map<string, string>, index: nat, edits: seq<Edit>)
    requires edits != [] && AllFit(edits, files)
    requires index <= |lines| && lines[index..] == RenderEdits(edits)
    ensures StandsAt(lines, index, edits[0])
    ensures lines[index + 1 + |Body(edits[0])|..] == RenderEdits(edits[1..])
  {
    hide Body, Closes, Marker, Fits;
    var e, rest := edits[0], edits[1..];
    var all := lines[index..];
    var n := 1 + |Body(e)|;
    assert all == [Marker(e) + e.path] + Body(e) + RenderEdits(rest);
    assert forall k :: 0 <= k < |rest| ==> rest[k] == edits[k + 1];
    FirstCloses(rest, files);
    assert all[n] == RenderEdits(rest)[0];
    assert lines[index + n] == all[n];
    assert lines[index] == all[0];
    assert lines[index + 1..index + n] == all[1..n] == Body(e);
    assert lines[index + n..] == all[n..] == RenderEdits(rest);
  }

  lemma OneEntry(lines: seq<string>, files: map<string, string>, s: ParseState, next: ParseState)
    requires s.index < next.index <= |lines| && !Done(lines, s.index, [END_PATCH])
    requires ParseEntry(lines, files, s) == Ok(next)
    ensures ParseEntries(lines, files, s) == ParseEntries(lines, files, next)
  {
    hide ParseEntry, Done;
  }

  lemma NoMoreEntries(lines: seq<string>, files: map<string, string>, s: ParseState)
    requires s.index <= |lines| && lines[s.index..] == [END_PATCH]
    ensures ParseEntries(lines, files, s) == Ok(s.(index := |lines|))
  {
    assert lines[s.index] == lines[s.index..][0];
    assert HasPrefix(lines[s.index], [END_PATCH][0]);
  }

  /** None of the edits' files has an entry yet. */
  predicate Fresh(edits: seq<Edit>, plan: map<string, Parsed>) {
    forall k :: 0 <= k < |edits| ==> edits[k].path !in plan
  }

  lemma FitTail(edits: seq<Edit>, files: map<string, string>, plan: map<string, Parsed>, parsed: Parsed)
    requires edits != [] && AllFit(edits, files)
    ensures Fits(edits[0], files) && AllFit(edits[1..], files)
    ensures Fresh(edits, plan) ==> edits[0].path !in plan && Fresh(edits[1..], plan[edits[0].path := parsed])
  {
    hide Fits;
    assert forall k :: 0 <= k < |edits[1..]| ==> edits[1..][k] == edits[k + 1];
  }

  /** Reading the first edit leaves the rest to be read. */
  lemma ReadFirst(lines: seq<string>, files: map<string, string>, s: ParseState, edits: seq<Edit>)
    returns (next: ParseState)
    requires s.index <= |lines| && lines[s.index..] == RenderEdits(edits) && edits != []
    requires AllFit(edits, files) && Fresh(edits, s.plan)
    ensures s.index < next.index <= |lines| && next.fuzz == s.fuzz
    ensures lines[next.index..] == RenderEdits(edits[1..])
    ensures AllFit(edits[1..], files) && Fresh(edits[1..], next.plan)
    ensures PlanEdits(edits[1..], next.plan) == PlanEdits(edits, s.plan)
    ensures ParseEntries(lines, files, s) == ParseEntries(lines, files, next)
  {
    hide ParseEntry, Done, Body, StandsAt, ParsedEdit, Fits, ParseEntries, AllFit, Fresh, RenderEdits;
    var e := edits[0];
    FirstStands(lines, files, s.index, edits);
    FitTail(edits, files, s.plan, ParsedEdit(e));
    next := ParseState(s.index + 1 + |Body(e)|, s.fuzz, s.plan[e.path := ParsedEdit(e)]);
    StandsInside(lines, s.index, e);
    ReadEntry(lines, files, s, e, next);
    OneEntry(lines, files, s, next);
  }

  lemma {:induction false} ReadEdits(
    lines: seq<string>, files: map<string, string>, s: ParseState, edits: seq<Edit>, last: ParseState)
    requires s.index <= |lines| && lines[s.index..] == RenderEdits(edits)
    requires AllFit(edits, files) && Fresh(edits, s.plan)
    requires last.index == |lines| && last.fuzz == s.fuzz && last.plan == PlanEdits(edits, s.plan)
    ensures ParseEntries(lines, files, s) == Ok(last)
    decreases |edits|
  {
    if edits == [] {
      NoMoreEntries(lines, files, s);
    } else {
      hide *;
      var next := ReadFirst(lines, files, s, edits);
      ReadEdits(lines, files, next, edits[1..], last);
    }
  }

  lemma StandsInside(lines: seq<string>, index: nat, e: Edit)
    requires StandsAt(lines, index, e)
    ensures index + 1 + |Body(e)| < |lines|
  {
  }

  lemma {:induction false} JoinEnds(lines: seq<string>)
    requires lines != [] && lines[0] != "" && lines[|lines| - 1] != ""
    ensures Join(lines) != "" && Join(lines)[0] == lines[0][0]
    ensures
      var last := lines[|lines| - 1];
      Join(lines)[|Join(lines)| - 1] == last[|last| - 1]
    decreases |lines|
  {
    if |lines| > 1 {
      var tail := Join(lines[1..]);
      JoinTail(lines[1..]);
      assert Join(lines) == lines[0] + "\n" + tail;
      hide Join;
      assert (lines[0] + "\n" + tail)[0] == lines[0][0];
    }
  }

  lemma {:induction false} JoinTail(lines: seq<string>)
    requires lines != [] && lines[|lines| - 1] != ""
    ensures
      var last := lines[|lines| - 1];
      Join(lines) != "" && Join(lines)[|Join(lines)| - 1] == last[|last| - 1]
    decreases |lines|
  {
    if |lines| > 1 {
      JoinTail(lines[1..]);
    }
  }

  lemma BodyOneLine(e: Edit, files: map<string, string>)
    requires Fits(e, files)
    ensures AllOneLine(Body(e))
  {
    match e
    case Rewrite(_, moveTo, bare, script) =>
      forall k | 0 <= k < |script|
        ensures OneLine(RenderOps(script)[k])
      {
        RenderedOp(script[k]);
      }
    case Remove(_) =>
    case Create(_, content) =>
  }

  lemma {:induction false} RenderedLines(edits: seq<Edit>, files: map<string, string>)
    requires AllFit(edits, files)
    ensures AllOneLine(RenderEdits(edits))
    decreases |edits|
  {
    if edits != [] {
      assert RenderEdits(edits) == [Marker(edits[0]) + edits[0].path] + Body(edits[0]) + RenderEdits(edits[1..]);
      FitTail(edits, files, map[], ParsedDelete);
      hide *;
      RenderedLines(edits[1..], files);
      BodyOneLine(edits[0], files);
      PathOneLine(edits[0], files);
      OneLinesJoin(Marker(edits[0]) + edits[0].path, Body(edits[0]), RenderEdits(edits[1..]));
    } else {
      assert OneLine(END_PATCH);
    }
  }

  lemma OneLinesJoin(first: string, a: seq<string>, b: seq<string>)
    requires OneLine(first) && AllOneLine(a) && AllOneLine(b)
    ensures AllOneLine([first] + a + b)
  {
    hide OneLine;
  }

  lemma {:induction false} RenderedEnd(edits: seq<Edit>)
    ensures RenderEdits(edits) != [] && RenderEdits(edits)[|RenderEdits(edits)| - 1] == END_PATCH
    decreases |edits|
  {
    if edits != [] {
      hide Body;
      RenderedEnd(edits[1..]);
    }
  }

  lemma PathOneLine(e: Edit, files: map<string, string>)
    requires Fits(e, files)
    ensures OneLine(Marker(e) + e.path)
  {
    MarkerLine(e);
  }

  /** A patch joined from its lines is split into the same lines again. */
  lemma EnvelopeLines(lines: seq<string>)
    requires HasEnvelope(lines) && AllOneLine(lines)
    ensures PatchLines(Join(lines)) == lines
  {
    hide Join, Split, TrimSpace;
    var last := lines[|lines| - 1];
    assert BEGIN_PATCH[0] == '*' && last[|last| - 1] == 'h';
    JoinEnds(lines);
    TrimSpaceTight(Join(lines));
    SplitJoin(lines);
  }

  lemma RenderedPatchLines(edits: seq<Edit>, files: map<string, string>)
    requires AllFit(edits, files)
    ensures PatchLines(RenderPatch(edits)) == [BEGIN_PATCH] + RenderEdits(edits)
    ensures HasEnvelope([BEGIN_PATCH] + RenderEdits(edits))
  {
    hide RenderEdits, AllFit, Join, PatchLines;
    RenderedLines(edits, files);
    RenderedEnd(edits);
    EnvelopeLines([BEGIN_PATCH] + RenderEdits(edits));
  }

  /** The round trip: a patch written for any edits that fit the files is read back
      as those edits, every rewrite found at the start of its file without fuzz. */
  lemma RoundTrip(edits: seq<Edit>, files: map<string, string>)
    requires AllFit(edits, files)
    ensures PlanOf(RenderPatch(edits), files) == Ok(Plan(PlanEdits(edits, map[]), 0))
  {
    hide RenderPatch, RenderEdits, AllFit, PatchLines, ParseEntries;
    RenderedPatchLines(edits, files);
    var lines := PatchLines(RenderPatch(edits));
    var last := ParseState(|lines|, 0, PlanEdits(edits, map[]));
    assert lines[1..] == RenderEdits(edits);
    ReadEdits(lines, files, ParseState(1, 0, map[]), edits, last);
  }

  /** Applying what was read back gives exactly the script's new lines. */
  lemma RewriteGivesNewLines(e: Edit, files: map<string, string>)
    requires e.Rewrite? && Fits(e, files)
    ensures Updated(Split(files[e.path]), HunkChunks(ParsedEdit(e).hunks)) == Ok(NewSide(e.script))
  {
    hide Split, Replay, OldSide, NewSide, Updated, HunkChunks;
    var file, hunks := Split(files[e.path]), ParsedEdit(e).hunks;
    assert hunks == [Hunk(0, e.script, Exact, false)];
    assert file[0..|file|] == file;
    UpdateMeaning(file, hunks);
    assert hunks[..0] == [];
    var before: seq<string> := [];
    assert before + file[0..0] == before;
    assert ReplayHunks(file, hunks) == Replay(before, file, 0, e.script);
    ExactReplay(before, file, 0, e.script);
    assert before + NewSide(e.script) == NewSide(e.script);
    assert LastEnd(hunks) == |file| && NewSide(e.script) + file[|file|..] == NewSide(e.script);
    assert Edited(file, hunks) == NewSide(e.script);
  }

  lemma {:induction false} PlanEditsAt(edits: seq<Edit>, sofar: map<string, Parsed>, path: string)
    requires forall j, k :: 0 <= j < k < |edits| ==> edits[j].path != edits[k].path
    ensures path in PlanEdits(edits, sofar) <==> path in sofar || exists k :: 0 <= k < |edits| && edits[k].path == path
    ensures forall k :: 0 <= k < |edits| && edits[k].path == path ==> PlanEdits(edits, sofar)[path] == ParsedEdit(edits[k])
    ensures path in sofar && (forall k :: 0 <= k < |edits| ==> edits[k].path != path) ==>
      PlanEdits(edits, sofar)[path] == sofar[path]
    decreases |edits|
  {
    if edits != [] {
      hide ParsedEdit;
      var rest := edits[1..];
      assert forall k :: 0 <= k < |rest| ==> rest[k] == edits[k + 1];
      PlanEditsAt(rest, sofar[edits[0].path := ParsedEdit(edits[0])], path);
      assert forall k :: 1 <= k < |edits| ==> edits[k] == rest[k - 1];
    }
  }
}
