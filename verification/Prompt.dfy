/** The two prompt compilers: dropping empty messages, replacing repeated large
    tool results by references, replacing excluded ones, and accounting for tokens.
    A string is a sequence of bytes, one character a byte. */
module Prompt {

  datatype Part =
    | TextContent(text: string)
    | ReasoningContent(thinking: string)
    | ToolCall(id: string, name: string, input: string, kind: string, finished: bool)
    | ToolResult(callId: string, tool: string, content: string, metadata: string, isError: bool)
    | OtherPart(tag: nat) // images, binaries and finish markers: not counted, never rewritten

  datatype Message = Message(
    id: string, role: string, sessionId: string, parts: seq<Part>, model: string, createdAt: int, updatedAt: int)

  type Flags = map<string, bool>

  predicate Flagged(flags: Flags, callId: string) {
    callId in flags && flags[callId]
  }

  const MIN_DEDUP_BYTES: nat := 200

  // ------------------------------------------------------------------ stubs

  function Digits(n: nat): string {
    if n < 10 then [Digit(n)] else Digits(n / 10) + [Digit(n % 10)]
  }

  function Digit(d: nat): char
    requires d < 10
  {
    "0123456789"[d]
  }

  const STUB_HEAD := "[identical output repeated later in this task; "
  const EM_DASH: string := ['\U{E2}', '\U{80}', '\U{94}']
  const STUB_TAIL := " bytes omitted here " + EM_DASH + " the full content appears in the most recent occurrence]"

  function DedupStub(content: string): string {
    STUB_HEAD + Digits(|content|) + STUB_TAIL
  }

  function ExcludedStub(n: nat): string {
    "[excluded from context by user; " + Digits(n) + " bytes omitted]"
  }

  lemma {:induction false} DigitsShort(n: nat)
    ensures |Digits(n)| <= n / 10 + 1
  {
    if n >= 10 {
      DigitsShort(n / 10);
    }
  }

  function Power10(k: nat): nat {
    if k == 0 then 1 else 10 * Power10(k - 1)
  }

  lemma {:induction false} DigitsBound(n: nat, k: nat)
    requires k >= 1 && n < Power10(k)
    ensures |Digits(n)| <= k
  {
    if n >= 10 {
      assert k >= 2 by {
        assert Power10(1) == 10 * Power10(0);
      }
      DigitsBound(n / 10, k - 1);
    }
  }

  /** Lengths are Go ints. */
  const MAX_LENGTH: nat := 0x7FFF_FFFF_FFFF_FFFF

  /** A stub is shorter than any content worth replacing, and than the content it
      replaces. */
  lemma StubsAreShort(content: string)
    ensures |content| >= MIN_DEDUP_BYTES ==> |DedupStub(content)| < |content|
    ensures |content| <= MAX_LENGTH ==> |DedupStub(content)| < MIN_DEDUP_BYTES
    ensures |content| <= MAX_LENGTH ==> |ExcludedStub(|content|)| < MIN_DEDUP_BYTES
  {
    hide Digits;
    DigitsShort(|content|);
    assert |STUB_HEAD| == 47 && |STUB_TAIL| == 79;
    if |content| <= MAX_LENGTH {
      Power19();
      DigitsBound(|content|, 19);
    }
  }

  lemma Power19()
    ensures MAX_LENGTH < Power10(19)
  {
    assert Power10(4) == 10_000;
    assert Power10(8) == 10_000 * Power10(4);
    assert Power10(12) == 10_000 * Power10(8);
    assert Power10(16) == 10_000 * Power10(12);
    assert Power10(19) == 1_000 * Power10(16);
  }

  // -------------------------------------------------------- places of results

  predicate ResultAt(msgs: seq<Message>, mi: nat, pi: nat) {
    mi < |msgs| && pi < |msgs[mi].parts| && msgs[mi].parts[pi].ToolResult?
  }

  predicate LargeAt(msgs: seq<Message>, mi: nat, pi: nat) {
    ResultAt(msgs, mi, pi) && |msgs[mi].parts[pi].content| >= MIN_DEDUP_BYTES
  }

  predicate Before(mi: nat, pi: nat, mj: nat, pj: nat) {
    mi < mj || (mi == mj && pi < pj)
  }

  /** The same content comes again later in the transcript. */
  ghost predicate LaterCopy(msgs: seq<Message>, mi: nat, pi: nat)
    requires ResultAt(msgs, mi, pi)
  {
    exists mj: nat, pj: nat :: ResultAt(msgs, mj, pj) && Before(mi, pi, mj, pj)
      && msgs[mj].parts[pj].content == msgs[mi].parts[pi].content
  }

  /** The first pass replaces this result. */
  ghost predicate Deduped(msgs: seq<Message>, pinned: Flags, mi: nat, pi: nat) {
    LargeAt(msgs, mi, pi) && !Flagged(pinned, msgs[mi].parts[pi].callId) && LaterCopy(msgs, mi, pi)
  }

  /** The second pass replaces this result. */
  predicate Excluded(p: Part, excluded: Flags, pinned: Flags) {
    p.ToolResult? && Flagged(excluded, p.callId) && !Flagged(pinned, p.callId)
  }

  ghost function DedupPart(msgs: seq<Message>, pinned: Flags, mi: nat, pi: nat): Part
    requires mi < |msgs| && pi < |msgs[mi].parts|
  {
    var p := msgs[mi].parts[pi];
    if Deduped(msgs, pinned, mi, pi) then p.(content := DedupStub(p.content)) else p
  }

  function ExcludePart(p: Part, excluded: Flags, pinned: Flags): Part {
    if Excluded(p, excluded, pinned) then p.(content := ExcludedStub(|p.content|)) else p
  }

  ghost function DedupParts(msgs: seq<Message>, pinned: Flags, mi: nat): seq<Part>
    requires mi < |msgs|
  {
    seq(|msgs[mi].parts|, pi requires 0 <= pi < |msgs[mi].parts| => DedupPart(msgs, pinned, mi, pi))
  }

  ghost function Dedup(msgs: seq<Message>, pinned: Flags): seq<Message> {
    seq(|msgs|, mi requires 0 <= mi < |msgs| => msgs[mi].(parts := DedupParts(msgs, pinned, mi)))
  }

  function ExcludeParts(parts: seq<Part>, excluded: Flags, pinned: Flags): seq<Part> {
    seq(|parts|, pi requires 0 <= pi < |parts| => ExcludePart(parts[pi], excluded, pinned))
  }

  function Exclude(msgs: seq<Message>, excluded: Flags, pinned: Flags): seq<Message> {
    seq(|msgs|, mi requires 0 <= mi < |msgs| => msgs[mi].(parts := ExcludeParts(msgs[mi].parts, excluded, pinned)))
  }

  /** Messages with at least one part, in order. */
  function Clean(msgs: seq<Message>): seq<Message> {
    if msgs == [] then []
    else Clean(msgs[..|msgs| - 1]) + if msgs[|msgs| - 1].parts == [] then [] else [msgs[|msgs| - 1]]
  }

  // ---------------------------------------------------------------- estimates

  function PartChars(p: Part): nat {
    match p
    case TextContent(text) => |text|
    case ReasoningContent(thinking) => |thinking|
    case ToolCall(_, name, input, _, _) => |name| + |input|
    case ToolResult(_, _, content, _, _) => |content|
    case OtherPart(_) => 0
  }

  function PartsChars(parts: seq<Part>): nat {
    if parts == [] then 0 else PartsChars(parts[..|parts| - 1]) + PartChars(parts[|parts| - 1])
  }

  function Chars(msgs: seq<Message>): nat {
    if msgs == [] then 0 else Chars(msgs[..|msgs| - 1]) + PartsChars(msgs[|msgs| - 1].parts)
  }

  /** Four bytes a token, rounded up. */
  function Tokens(bytes: nat): nat {
    (bytes + 3) / 4
  }

  // ----------------------------------------------------------- the passes, run

  method CleanMessages(msgs: seq<Message>) returns (out: seq<Message>)
    ensures out == Clean(msgs)
  {
    out := [];
    var k := 0;
    while k < |msgs|
      invariant 0 <= k <= |msgs| && out == Clean(msgs[..k])
    {
      assert msgs[..k + 1][..k] == msgs[..k];
      if |msgs[k].parts| != 0 {
        out := out + [msgs[k]];
      }
      k := k + 1;
    }
    assert msgs[..k] == msgs;
  }

  method EstimateMessages(msgs: seq<Message>) returns (tokens: nat)
    ensures tokens == Tokens(Chars(msgs))
  {
    var chars := 0;
    var mi := 0;
    while mi < |msgs|
      invariant 0 <= mi <= |msgs| && chars == Chars(msgs[..mi])
    {
      assert msgs[..mi + 1][..mi] == msgs[..mi];
      var parts := msgs[mi].parts;
      var pi := 0;
      while pi < |parts|
        invariant 0 <= pi <= |parts| && chars == Chars(msgs[..mi]) + PartsChars(parts[..pi])
      {
        assert parts[..pi + 1][..pi] == parts[..pi];
        match parts[pi] {
          case TextContent(text) => chars := chars + |text|;
          case ReasoningContent(thinking) => chars := chars + |thinking|;
          case ToolCall(_, name, input, _, _) => chars := chars + |name| + |input|;
          case ToolResult(_, _, content, _, _) => chars := chars + |content|;
          case OtherPart(_) =>
        }
        pi := pi + 1;
      }
      assert parts[..pi] == parts;
      mi := mi + 1;
    }
    assert msgs[..mi] == msgs;
    tokens := (chars + 3) / 4;
  }

  method ApplyExclusions(msgs: seq<Message>, excluded: Flags, pinned: Flags) returns (out: seq<Message>)
    ensures out == Exclude(msgs, excluded, pinned)
  {
    if |excluded| == 0 {
      NothingExcluded(msgs, excluded, pinned);
      return msgs;
    }
    out := [];
    var mi := 0;
    while mi < |msgs|
      invariant 0 <= mi <= |msgs| && out == Exclude(msgs, excluded, pinned)[..mi]
    {
      var m := msgs[mi];
      var parts, changed := ExcludeInMessage(m.parts, excluded, pinned);
      if !changed {
        out := out + [m];
      } else {
        out := out + [Message(m.id, m.role, m.sessionId, parts, m.model, m.createdAt, m.updatedAt)];
      }
      mi := mi + 1;
    }
  }

  method ExcludeInMessage(parts: seq<Part>, excluded: Flags, pinned: Flags)
    returns (newParts: seq<Part>, changed: bool)
    ensures newParts == ExcludeParts(parts, excluded, pinned) && (!changed ==> newParts == parts)
  {
    hide Flagged, ExcludedStub;
    newParts, changed := parts, false;
    var pi := 0;
    while pi < |parts|
      invariant 0 <= pi <= |parts| == |newParts|
      invariant forall k :: 0 <= k < |parts| ==>
        newParts[k] == if k < pi then ExcludePart(parts[k], excluded, pinned) else parts[k]
      invariant !changed ==> newParts == parts
    {
      var p := parts[pi];
      if p.ToolResult? && Flagged(excluded, p.callId) && !Flagged(pinned, p.callId) {
        newParts := newParts[pi := ToolResult(p.callId, p.tool, ExcludedStub(|p.content|), p.metadata, p.isError)];
        changed := true;
      }
      pi := pi + 1;
    }
  }

  lemma NothingExcluded(msgs: seq<Message>, excluded: Flags, pinned: Flags)
    requires |excluded| == 0
    ensures Exclude(msgs, excluded, pinned) == msgs
  {
    assert excluded == map[];
    forall mi | 0 <= mi < |msgs|
      ensures Exclude(msgs, excluded, pinned)[mi] == msgs[mi]
    {
      assert ExcludeParts(msgs[mi].parts, excluded, pinned) == msgs[mi].parts;
    }
  }

  datatype Pos = Pos(mi: nat, pi: nat)

  /** What the scan knows after all parts before (mi, pi): for every large content
      met, the place it was met last; seen once means seen nowhere else. */
  ghost predicate Scanned(msgs: seq<Message>, mi: nat, pi: nat, count: map<string, nat>, last: map<string, Pos>) {
    && count.Keys == last.Keys
    && (forall c :: c in last ==>
          LargeAt(msgs, last[c].mi, last[c].pi) && Before(last[c].mi, last[c].pi, mi, pi)
          && msgs[last[c].mi].parts[last[c].pi].content == c && count[c] >= 1)
    && (forall mj: nat, pj: nat :: LargeAt(msgs, mj, pj) && Before(mj, pj, mi, pi) ==>
          var c := msgs[mj].parts[pj].content;
          c in last && !Before(last[c].mi, last[c].pi, mj, pj) && (count[c] == 1 ==> last[c] == Pos(mj, pj)))
  }

  method Scan(msgs: seq<Message>) returns (count: map<string, nat>, last: map<string, Pos>)
    ensures Scanned(msgs, |msgs|, 0, count, last)
  {
    hide Scanned, Counted;
    count, last := map[], map[];
    ScanNothing(msgs);
    var mi := 0;
    while mi < |msgs|
      invariant 0 <= mi <= |msgs| && Scanned(msgs, mi, 0, count, last)
    {
      var pi := 0;
      while pi < |msgs[mi].parts|
        invariant 0 <= pi <= |msgs[mi].parts| && Scanned(msgs, mi, pi, count, last)
      {
        var p := msgs[mi].parts[pi];
        ScanNext(msgs, mi, pi, count, last);
        if p.ToolResult? && |p.content| >= MIN_DEDUP_BYTES {
          count := Counted(count, p.content);
          last := last[p.content := Pos(mi, pi)];
        }
        pi := pi + 1;
      }
      ScanRow(msgs, mi, count, last);
      mi := mi + 1;
    }
  }

  function Counted(count: map<string, nat>, c: string): map<string, nat> {
    count[c := (if c in count then count[c] else 0) + 1]
  }

  lemma ScanNothing(msgs: seq<Message>)
    ensures Scanned(msgs, 0, 0, map[], map[])
  {
  }

  lemma ScanNext(msgs: seq<Message>, mi: nat, pi: nat, count: map<string, nat>, last: map<string, Pos>)
    requires mi < |msgs| && pi < |msgs[mi].parts| && Scanned(msgs, mi, pi, count, last)
    ensures
      var c := if LargeAt(msgs, mi, pi) then msgs[mi].parts[pi].content else "";
      if LargeAt(msgs, mi, pi) then Scanned(msgs, mi, pi + 1, Counted(count, c), last[c := Pos(mi, pi)])
      else Scanned(msgs, mi, pi + 1, count, last)
  {
  }

  lemma ScanRow(msgs: seq<Message>, mi: nat, count: map<string, nat>, last: map<string, Pos>)
    requires mi < |msgs| && Scanned(msgs, mi, |msgs[mi].parts|, count, last)
    ensures Scanned(msgs, mi + 1, 0, count, last)
  {
  }

  /** The two maps decide exactly whether the content comes again later. */
  lemma ScanDecides(msgs: seq<Message>, count: map<string, nat>, last: map<string, Pos>, mi: nat, pi: nat)
    requires Scanned(msgs, |msgs|, 0, count, last) && LargeAt(msgs, mi, pi)
    ensures
      var c := msgs[mi].parts[pi].content;
      c in count && c in last && (count[c] > 1 && last[c] != Pos(mi, pi) <==> LaterCopy(msgs, mi, pi))
  {
    var c := msgs[mi].parts[pi].content;
    if last[c] != Pos(mi, pi) {
      assert ResultAt(msgs, last[c].mi, last[c].pi);
    }
    if LaterCopy(msgs, mi, pi) {
      var mj: nat, pj: nat :| ResultAt(msgs, mj, pj) && Before(mi, pi, mj, pj) && msgs[mj].parts[pj].content == c;
      assert LargeAt(msgs, mj, pj);
    }
  }

  method DedupRepeatedContent(msgs: seq<Message>, pinned: Flags) returns (out: seq<Message>)
    ensures out == Dedup(msgs, pinned)
  {
    hide Scanned, DedupParts;
    var count, last := Scan(msgs);
    out := [];
    var mi := 0;
    while mi < |msgs|
      invariant 0 <= mi <= |msgs| && out == Dedup(msgs, pinned)[..mi]
    {
      var m := msgs[mi];
      var parts := DedupInMessage(msgs, pinned, count, last, mi);
      out := out + [Message(m.id, m.role, m.sessionId, parts, m.model, m.createdAt, m.updatedAt)];
      mi := mi + 1;
    }
  }

  method DedupInMessage(
    msgs: seq<Message>, pinned: Flags, count: map<string, nat>, last: map<string, Pos>, mi: nat)
    returns (parts: seq<Part>)
    requires mi < |msgs| && Scanned(msgs, |msgs|, 0, count, last)
    ensures parts == DedupParts(msgs, pinned, mi)
  {
    hide Scanned, Flagged, DedupStub, LaterCopy;
    parts := msgs[mi].parts;
    var pi := 0;
    while pi < |msgs[mi].parts|
      invariant 0 <= pi <= |msgs[mi].parts| == |parts|
      invariant forall k :: 0 <= k < |parts| ==>
        parts[k] == if k < pi then DedupPart(msgs, pinned, mi, k) else msgs[mi].parts[k]
    {
      var p := msgs[mi].parts[pi];
      if p.ToolResult? && |p.content| >= MIN_DEDUP_BYTES && !Flagged(pinned, p.callId) {
        ScanDecides(msgs, count, last, mi, pi);
        if count[p.content] > 1 && last[p.content] != Pos(mi, pi) {
          parts := parts[pi := ToolResult(p.callId, p.tool, DedupStub(p.content), p.metadata, p.isError)];
        }
      }
      pi := pi + 1;
    }
  }

  // ------------------------------------------------------------- the compilers

  /** The system sections are given as rendered: heading, blank line, trimmed body. */
  datatype Input = Input(
    history: seq<Message>, project: string, task: string, excluded: Flags, pinned: Flags)

  datatype Compiled = Compiled(messages: seq<Message>, addendum: string, estimated: nat, saved: nat)

  function Addendum(project: string, task: string): string {
    if project == "" then task else if task == "" then project else project + "\n\n" + task
  }

  ghost function CompatMessages(in': Input): seq<Message> {
    Exclude(Clean(in'.history), in'.excluded, in'.pinned)
  }

  ghost function DedupMessages(in': Input): seq<Message> {
    Exclude(Dedup(Clean(in'.history), in'.pinned), in'.excluded, in'.pinned)
  }

  method CompileCompat(in': Input) returns (c: Compiled)
    ensures c.messages == CompatMessages(in')
    ensures c.addendum == Addendum(in'.project, in'.task) && c.saved == 0
    ensures c.estimated == Tokens(Chars(c.messages)) + Tokens(|c.addendum|)
  {
    var msgs := CleanMessages(in'.history);
    msgs := ApplyExclusions(msgs, in'.excluded, in'.pinned);
    var est := EstimateMessages(msgs);
    var addendum := Addendum(in'.project, in'.task);
    c := Compiled(msgs, addendum, est + Tokens(|addendum|), 0);
  }

  method CompileDedup(in': Input) returns (c: Compiled)
    ensures c.messages == DedupMessages(in')
    ensures c.addendum == Addendum(in'.project, in'.task)
    ensures c.estimated == Tokens(Chars(c.messages)) + Tokens(|c.addendum|)
    ensures
      var full, sent := Tokens(Chars(Clean(in'.history))), Tokens(Chars(c.messages));
      c.saved == if sent <= full then full - sent else 0
  {
    var original := CleanMessages(in'.history);
    var full := EstimateMessages(original);
    var deduped := DedupRepeatedContent(original, in'.pinned);
    deduped := ApplyExclusions(deduped, in'.excluded, in'.pinned);
    var sent := EstimateMessages(deduped);
    var addendum := Addendum(in'.project, in'.task);
    var saved: int := full - sent;
    if saved < 0 {
      saved := 0;
    }
    c := Compiled(deduped, addendum, sent + Tokens(|addendum|), saved);
  }

  /** Some result of the messages carries this content in full. */
  ghost predicate Sends(msgs: seq<Message>, content: string) {
    exists mi: nat, pi: nat :: ResultAt(msgs, mi, pi) && msgs[mi].parts[pi].content == content
  }

  /** Every large content of the control is somewhere in the variant. */
  ghost predicate Preserves(control: seq<Message>, variant: seq<Message>) {
    forall mi: nat, pi: nat :: LargeAt(control, mi, pi) ==> Sends(variant, control[mi].parts[pi].content)
  }

  method ContentsOf(msgs: seq<Message>) returns (contents: set<string>)
    ensures forall c :: c in contents <==> Sends(msgs, c)
  {
    contents := {};
    var mi := 0;
    while mi < |msgs|
      invariant 0 <= mi <= |msgs|
      invariant forall c :: c in contents <==>
        exists mj: nat, pj: nat :: ResultAt(msgs, mj, pj) && mj < mi && msgs[mj].parts[pj].content == c
    {
      var pi := 0;
      while pi < |msgs[mi].parts|
        invariant 0 <= pi <= |msgs[mi].parts|
        invariant forall c :: c in contents <==>
          exists mj: nat, pj: nat :: ResultAt(msgs, mj, pj) && Before(mj, pj, mi, pi) && msgs[mj].parts[pj].content == c
      {
        if msgs[mi].parts[pi].ToolResult? {
          assert ResultAt(msgs, mi, pi);
          contents := contents + {msgs[mi].parts[pi].content};
        }
        pi := pi + 1;
      }
      mi := mi + 1;
    }
  }

  method PreservesContent(control: seq<Message>, variant: seq<Message>) returns (ok: bool)
    ensures ok == Preserves(control, variant)
  {
    var contents := ContentsOf(variant);
    var mi := 0;
    while mi < |control|
      invariant 0 <= mi <= |control|
      invariant forall mj: nat, pj: nat :: LargeAt(control, mj, pj) && mj < mi ==> control[mj].parts[pj].content in contents
    {
      var pi := 0;
      while pi < |control[mi].parts|
        invariant 0 <= pi <= |control[mi].parts|
        invariant forall mj: nat, pj: nat :: LargeAt(control, mj, pj) && Before(mj, pj, mi, pi) ==>
          control[mj].parts[pj].content in contents
      {
        var p := control[mi].parts[pi];
        if p.ToolResult? && |p.content| >= MIN_DEDUP_BYTES && p.content !in contents {
          assert LargeAt(control, mi, pi);
          return false;
        }
        pi := pi + 1;
      }
      mi := mi + 1;
    }
    ok := true;
  }
}
