/** What the prompt compilers promise: the transcript keeps its shape, pins win,
    nothing large is lost without an exclusion, and the tokens add up. */
module PromptLaws {
  import opened Prompt

  // ------------------------------------------------------------------- shape

  /** The same part, or the same tool result with other content. */
  predicate SamePart(a: Part, b: Part) {
    a == b || (a.ToolResult? && b.ToolResult? && b.(content := a.content) == a)
  }

  /** Same messages in the same order, with the same parts up to result contents. */
  ghost predicate SameShape(a: seq<Message>, b: seq<Message>) {
    && |a| == |b|
    && forall mi :: 0 <= mi < |a| ==>
         && |a[mi].parts| == |b[mi].parts|
         && b[mi].(parts := a[mi].parts) == a[mi]
         && forall pi :: 0 <= pi < |a[mi].parts| ==> SamePart(a[mi].parts[pi], b[mi].parts[pi])
  }

  lemma DedupKeepsShape(msgs: seq<Message>, pinned: Flags)
    ensures SameShape(msgs, Dedup(msgs, pinned))
  {
    hide LaterCopy, Flagged, DedupStub;
    var out := Dedup(msgs, pinned);
    forall mi | 0 <= mi < |msgs|
      ensures |msgs[mi].parts| == |out[mi].parts| && out[mi].(parts := msgs[mi].parts) == msgs[mi]
      ensures forall pi :: 0 <= pi < |msgs[mi].parts| ==> SamePart(msgs[mi].parts[pi], out[mi].parts[pi])
    {
      assert out[mi].parts == DedupParts(msgs, pinned, mi);
    }
  }

  lemma ExcludeKeepsShape(msgs: seq<Message>, excluded: Flags, pinned: Flags)
    ensures SameShape(msgs, Exclude(msgs, excluded, pinned))
  {
    hide ExcludedStub, Flagged;
    var out := Exclude(msgs, excluded, pinned);
    forall mi | 0 <= mi < |msgs|
      ensures |msgs[mi].parts| == |out[mi].parts| && out[mi].(parts := msgs[mi].parts) == msgs[mi]
      ensures forall pi :: 0 <= pi < |msgs[mi].parts| ==> SamePart(msgs[mi].parts[pi], out[mi].parts[pi])
    {
      assert out[mi].parts == ExcludeParts(msgs[mi].parts, excluded, pinned);
    }
  }

  lemma ShapesCompose(a: seq<Message>, b: seq<Message>, c: seq<Message>)
    requires SameShape(a, b) && SameShape(b, c)
    ensures SameShape(a, c)
  {
    forall mi | 0 <= mi < |a|
      ensures |a[mi].parts| == |c[mi].parts| && c[mi].(parts := a[mi].parts) == a[mi]
      ensures forall pi :: 0 <= pi < |a[mi].parts| ==> SamePart(a[mi].parts[pi], c[mi].parts[pi])
    {
      forall pi | 0 <= pi < |a[mi].parts|
        ensures SamePart(a[mi].parts[pi], c[mi].parts[pi])
      {
        assert SamePart(a[mi].parts[pi], b[mi].parts[pi]) && SamePart(b[mi].parts[pi], c[mi].parts[pi]);
      }
    }
  }

  /** Both compilers keep number, order, ids and every field but result contents. */
  lemma CompilersKeepShape(in': Input)
    ensures SameShape(Clean(in'.history), CompatMessages(in'))
    ensures SameShape(Clean(in'.history), DedupMessages(in'))
  {
    hide SameShape;
    var msgs := Clean(in'.history);
    ExcludeKeepsShape(msgs, in'.excluded, in'.pinned);
    DedupKeepsShape(msgs, in'.pinned);
    ExcludeKeepsShape(Dedup(msgs, in'.pinned), in'.excluded, in'.pinned);
    ShapesCompose(msgs, Dedup(msgs, in'.pinned), DedupMessages(in'));
  }

  /** Cleaning drops exactly the messages without parts. */
  lemma {:induction false} CleanIs(a: seq<Message>, b: seq<Message>)
    ensures Clean(a + b) == Clean(a) + Clean(b)
    ensures forall m :: m in Clean(a) <==> m in a && m.parts != []
    decreases |a| + |b|
  {
    CleanMembers(a);
    if b != [] {
      assert (a + b)[..|a + b| - 1] == a + b[..|b| - 1];
      CleanIs(a, b[..|b| - 1]);
    } else {
      assert a + b == a;
    }
  }

  lemma {:induction false} CleanMembers(a: seq<Message>)
    ensures forall m :: m in Clean(a) <==> m in a && m.parts != []
    decreases |a|
  {
    if a != [] {
      CleanMembers(a[..|a| - 1]);
      assert a == a[..|a| - 1] + [a[|a| - 1]];
    }
  }

  // -------------------------------------------------------------- what is sent

  /** The content sent for the result at (mi, pi) of the cleaned history. */
  ghost function SentByDedup(msgs: seq<Message>, excluded: Flags, pinned: Flags, mi: nat, pi: nat): string
    requires ResultAt(msgs, mi, pi)
  {
    ExcludePart(DedupPart(msgs, pinned, mi, pi), excluded, pinned).content
  }

  lemma DedupSends(msgs: seq<Message>, excluded: Flags, pinned: Flags, mi: nat, pi: nat)
    ensures
      var out := Exclude(Dedup(msgs, pinned), excluded, pinned);
      && (ResultAt(out, mi, pi) <==> ResultAt(msgs, mi, pi))
      && (ResultAt(msgs, mi, pi) ==> out[mi].parts[pi].content == SentByDedup(msgs, excluded, pinned, mi, pi))
  {
    hide LaterCopy, Flagged, DedupStub, ExcludedStub;
    var once := Dedup(msgs, pinned);
    CompatSends(once, excluded, pinned, mi, pi);
    if mi < |msgs| {
      assert once[mi].parts == DedupParts(msgs, pinned, mi);
    }
  }

  lemma CompatSends(msgs: seq<Message>, excluded: Flags, pinned: Flags, mi: nat, pi: nat)
    ensures
      var out := Exclude(msgs, excluded, pinned);
      && (ResultAt(out, mi, pi) <==> ResultAt(msgs, mi, pi))
      && (ResultAt(msgs, mi, pi) ==>
            out[mi].parts[pi].content == ExcludePart(msgs[mi].parts[pi], excluded, pinned).content)
  {
    hide ExcludedStub, Flagged;
    if mi < |msgs| {
      assert Exclude(msgs, excluded, pinned)[mi].parts == ExcludeParts(msgs[mi].parts, excluded, pinned);
    }
  }

  /** The call is not crossed off, or it is pinned. */
  predicate Shown(p: Part, excluded: Flags, pinned: Flags)
    requires p.ToolResult?
  {
    Flagged(pinned, p.callId) || !Flagged(excluded, p.callId)
  }

  ghost predicate AllFit(msgs: seq<Message>) {
    forall mi: nat, pi: nat :: ResultAt(msgs, mi, pi) ==> |msgs[mi].parts[pi].content| <= MAX_LENGTH
  }

  /** Pinned results are always sent unchanged; a large result is sent in full
      exactly when it is pinned, or shown and the last with its content. */
  lemma SentInFullIff(msgs: seq<Message>, excluded: Flags, pinned: Flags, mi: nat, pi: nat)
    requires LargeAt(msgs, mi, pi) && AllFit(msgs)
    ensures
      var p := msgs[mi].parts[pi];
      SentByDedup(msgs, excluded, pinned, mi, pi) == p.content <==>
        Flagged(pinned, p.callId) || (!Flagged(excluded, p.callId) && !LaterCopy(msgs, mi, pi))
  {
    hide LaterCopy, DedupStub, ExcludedStub, Flagged;
    var p := msgs[mi].parts[pi];
    StubsAreShort(p.content);
    StubsAreShort(DedupStub(p.content));
  }

  /** A replaced result is sent as something too short to pass for large content. */
  lemma SentOrShort(msgs: seq<Message>, excluded: Flags, pinned: Flags, mi: nat, pi: nat)
    requires ResultAt(msgs, mi, pi) && AllFit(msgs)
    ensures
      var p := msgs[mi].parts[pi];
      && (SentByDedup(msgs, excluded, pinned, mi, pi) == p.content
          || |SentByDedup(msgs, excluded, pinned, mi, pi)| < MIN_DEDUP_BYTES)
      && (ExcludePart(p, excluded, pinned).content == p.content
          || |ExcludePart(p, excluded, pinned).content| < MIN_DEDUP_BYTES)
  {
    hide LaterCopy, DedupStub, ExcludedStub, Flagged;
    var p := msgs[mi].parts[pi];
    StubsAreShort(p.content);
    StubsAreShort(DedupStub(p.content));
  }

  /** Both compilers send a pinned result as it is, at its place, whatever is excluded
      and however often its content comes again. */
  lemma PinnedIsUnchanged(in': Input, mi: nat, pi: nat)
    requires ResultAt(Clean(in'.history), mi, pi)
    requires Flagged(in'.pinned, Clean(in'.history)[mi].parts[pi].callId)
    ensures
      var kept := Clean(in'.history)[mi].parts[pi];
      && SentAt(CompatMessages(in'), mi, pi, kept) && SentAt(DedupMessages(in'), mi, pi, kept)
  {
    hide Clean, LaterCopy, DedupStub, ExcludedStub;
    var msgs := Clean(in'.history);
    assert SentAt(Dedup(msgs, in'.pinned), mi, pi, msgs[mi].parts[pi]);
  }

  predicate SentAt(sent: seq<Message>, mi: nat, pi: nat, p: Part) {
    mi < |sent| && pi < |sent[mi].parts| && sent[mi].parts[pi] == p
  }

  // ------------------------------------------------- what is sent, to the letter

  predicate On(flags: Flags, callId: string) {
    callId in flags && flags[callId] == true
  }

  /** What stands in for n bytes that the user crossed off. */
  function CrossedOff(n: nat): string {
    "[excluded from context by user; " + Digits(n) + " bytes omitted]"
  }

  /** What stands in for n bytes that come again later. */
  function Repeated(n: nat): string {
    "[identical output repeated later in this task; " + Digits(n) + " bytes omitted here " +
    ['\U{E2}', '\U{80}', '\U{94}'] + " the full content appears in the most recent occurrence]"
  }

  function NumberOf(digits: string): nat
    requires forall i :: 0 <= i < |digits| ==> '0' <= digits[i] <= '9'
  {
    if digits == "" then 0
    else 10 * NumberOf(digits[..|digits| - 1]) + (digits[|digits| - 1] as int - '0' as int)
  }

  /** The number in a stub is written in decimal. */
  lemma {:induction false} DigitsAreDecimal(n: nat)
    ensures Digits(n) != "" && forall i :: 0 <= i < |Digits(n)| ==> '0' <= Digits(n)[i] <= '9'
    ensures NumberOf(Digits(n)) == n && (Digits(n)[0] == '0' ==> n == 0)
  {
    DigitIs(n % 10);
    if n >= 10 {
      DigitsAreDecimal(n / 10);
      hide Digit;
      AppendDigit(Digits(n / 10), Digit(n % 10));
    } else {
      OneDigit(Digit(n));
    }
  }

  lemma AppendDigit(digits: string, d: char)
    requires (forall i :: 0 <= i < |digits| ==> '0' <= digits[i] <= '9') && '0' <= d <= '9'
    ensures forall i :: 0 <= i < |digits| + 1 ==> '0' <= (digits + [d])[i] <= '9'
    ensures NumberOf(digits + [d]) == 10 * NumberOf(digits) + (d as int - '0' as int)
  {
    assert (digits + [d])[..|digits|] == digits;
  }

  lemma OneDigit(d: char)
    requires '0' <= d <= '9'
    ensures NumberOf([d]) == d as int - '0' as int
  {
    assert [d][..0] == "";
  }

  lemma DigitIs(d: nat)
    requires d < 10
    ensures '0' <= Digit(d) <= '9' && Digit(d) as int - '0' as int == d
  {
  }

  /** The user crossed the call off and did not pin it. */
  predicate CrossedAt(in': Input, callId: string) {
    On(in'.excluded, callId) && !On(in'.pinned, callId)
  }

  /** The content is large, not pinned, and comes again at a later place. */
  ghost predicate RepeatedAt(in': Input, msgs: seq<Message>, mi: nat, pi: nat)
    requires ResultAt(msgs, mi, pi)
  {
    && |msgs[mi].parts[pi].content| >= 200 && !On(in'.pinned, msgs[mi].parts[pi].callId)
    && exists mj: nat, pj: nat :: ResultAt(msgs, mj, pj) && (mi < mj || (mi == mj && pi < pj))
         && msgs[mj].parts[pj].content == msgs[mi].parts[pi].content
  }

  /** What the first pass makes of a result. */
  ghost function Once(in': Input, msgs: seq<Message>, mi: nat, pi: nat): Part
    requires ResultAt(msgs, mi, pi)
  {
    var p := msgs[mi].parts[pi];
    p.(content := if RepeatedAt(in', msgs, mi, pi) then Repeated(|p.content|) else p.content)
  }

  lemma FirstPassSends(in': Input, msgs: seq<Message>, mi: nat, pi: nat)
    requires ResultAt(msgs, mi, pi)
    ensures SentAt(Dedup(msgs, in'.pinned), mi, pi, Once(in', msgs, mi, pi))
  {
    var p := msgs[mi].parts[pi];
    StubTexts(|p.content|, p.content);
    assert LaterCopy(msgs, mi, pi) <==> (exists mj: nat, pj: nat ::
      ResultAt(msgs, mj, pj) && (mi < mj || (mi == mj && pi < pj)) && msgs[mj].parts[pj].content == p.content);
    hide LaterCopy, Repeated, DedupStub;
    assert DedupPart(msgs, in'.pinned, mi, pi) == Once(in', msgs, mi, pi);
    hide DedupPart, Once;
  }

  /** What the second pass makes of a result. */
  function Then(in': Input, p: Part): Part
    requires p.ToolResult?
  {
    p.(content := if CrossedAt(in', p.callId) then CrossedOff(|p.content|) else p.content)
  }

  lemma SecondPassSends(in': Input, msgs: seq<Message>, mi: nat, pi: nat, p: Part)
    requires SentAt(msgs, mi, pi, p) && p.ToolResult?
    ensures SentAt(Exclude(msgs, in'.excluded, in'.pinned), mi, pi, Then(in', p))
  {
    StubTexts(|p.content|, p.content);
    hide ExcludedStub, CrossedOff;
    assert ExcludePart(p, in'.excluded, in'.pinned) == Then(in', p);
    hide ExcludePart, Then;
  }

  /** What both compilers send for a tool result of any size: the compatibility compiler
      the content, or the stub if it is crossed off; the dedup compiler the content or
      the reference to a later copy, or the stub, for what it replaces, if it is crossed
      off. */
  lemma SentContents(in': Input, mi: nat, pi: nat)
    requires ResultAt(Clean(in'.history), mi, pi)
    ensures
      var msgs := Clean(in'.history);
      && SentAt(CompatMessages(in'), mi, pi, Then(in', msgs[mi].parts[pi]))
      && SentAt(DedupMessages(in'), mi, pi, Then(in', Once(in', msgs, mi, pi)))
  {
    var msgs := Clean(in'.history);
    FirstPassSends(in', msgs, mi, pi);
    hide Clean, Exclude, Dedup, Repeated, CrossedOff, RepeatedAt;
    SecondPassSends(in', msgs, mi, pi, msgs[mi].parts[pi]);
    SecondPassSends(in', Dedup(msgs, in'.pinned), mi, pi, Once(in', msgs, mi, pi));
  }

  lemma StubTexts(n: nat, content: string)
    ensures ExcludedStub(n) == CrossedOff(n) && DedupStub(content) == Repeated(|content|)
  {
    hide Digits;
  }

  /** Everything that is no tool result is sent as it is. */
  lemma OtherPartsAreSent(in': Input, mi: nat, pi: nat)
    requires
      var msgs := Clean(in'.history);
      mi < |msgs| && pi < |msgs[mi].parts| && !msgs[mi].parts[pi].ToolResult?
    ensures SentAt(CompatMessages(in'), mi, pi, Clean(in'.history)[mi].parts[pi])
    ensures SentAt(DedupMessages(in'), mi, pi, Clean(in'.history)[mi].parts[pi])
  {
    hide Clean, LaterCopy, DedupStub, ExcludedStub;
    var msgs := Clean(in'.history);
    assert SentAt(Dedup(msgs, in'.pinned), mi, pi, msgs[mi].parts[pi]);
  }

  /** All the text that is charged for, in order. */
  function TextOf(p: Part): string {
    match p
    case TextContent(text) => text
    case ReasoningContent(thinking) => thinking
    case ToolCall(_, name, input, _, _) => name + input
    case ToolResult(_, _, content, _, _) => content
    case OtherPart(_) => ""
  }

  function TextOfParts(parts: seq<Part>): string {
    if parts == [] then "" else TextOf(parts[0]) + TextOfParts(parts[1..])
  }

  function AllText(msgs: seq<Message>): string {
    if msgs == [] then "" else TextOfParts(msgs[0].parts) + AllText(msgs[1..])
  }

  lemma {:induction false} PartsAreText(parts: seq<Part>)
    ensures PartsChars(parts) == |TextOfParts(parts)|
  {
    if |parts| == 1 {
      assert parts[..0] == [] && parts[1..] == [];
    } else if |parts| > 1 {
      var mid := parts[1..][..|parts| - 2];
      PartsAreText(parts[1..]);
      PartsAreText(parts[..|parts| - 1]);
      PartsAreText(mid);
      assert parts[..|parts| - 1][1..] == mid && parts[1..][|parts| - 2] == parts[|parts| - 1];
    }
  }

  lemma {:induction false} CharsAreText(msgs: seq<Message>)
    ensures Chars(msgs) == |AllText(msgs)|
  {
    hide PartsChars, TextOfParts;
    if |msgs| == 1 {
      assert msgs[..0] == [] && msgs[1..] == [];
      PartsAreText(msgs[0].parts);
    } else if |msgs| > 1 {
      var mid := msgs[1..][..|msgs| - 2];
      CharsAreText(msgs[1..]);
      CharsAreText(msgs[..|msgs| - 1]);
      CharsAreText(mid);
      assert msgs[..|msgs| - 1][1..] == mid && msgs[1..][|msgs| - 2] == msgs[|msgs| - 1];
    }
  }

  /** The estimate is the least number of tokens of four bytes that holds all the text. */
  lemma EstimateMeans(msgs: seq<Message>)
    ensures
      var bytes, tokens := |AllText(msgs)|, Tokens(Chars(msgs));
      4 * tokens >= bytes && forall t: nat :: 4 * t >= bytes ==> tokens <= t
  {
    CharsAreText(msgs);
  }

  /** The two sections, project first, with a blank line between: while the project is
      the same, every task's addendum begins with the same text. */
  lemma AddendumMeans(project: string, task: string)
    ensures
      var a := Addendum(project, task);
      && project <= a && |task| <= |a| && a[|a| - |task|..] == task
      && |a| == |project| + |task| + (if project != "" && task != "" then 2 else 0)
      && (project != "" && task != "" ==> a[|project|..|project| + 2] == "\n\n")
  {
    var a := Addendum(project, task);
    if project != "" && task != "" {
      assert a[|a| - |task|..] == task && a[|project|..|project| + 2] == "\n\n";
    }
  }

  // ---------------------------------------------------------------- losslessness

  /** Following later copies leads to the last one. */
  lemma {:induction false} LastCopy(msgs: seq<Message>, mi: nat, pi: nat) returns (mj: nat, pj: nat)
    requires ResultAt(msgs, mi, pi)
    ensures ResultAt(msgs, mj, pj) && !LaterCopy(msgs, mj, pj) && !Before(mj, pj, mi, pi)
    ensures msgs[mj].parts[pj].content == msgs[mi].parts[pi].content
    decreases |msgs| - mi, |msgs[mi].parts| - pi
  {
    if LaterCopy(msgs, mi, pi) {
      var m: nat, p: nat :| ResultAt(msgs, m, p) && Before(mi, pi, m, p)
        && msgs[m].parts[p].content == msgs[mi].parts[pi].content;
      mj, pj := LastCopy(msgs, m, p);
    } else {
      mj, pj := mi, pi;
    }
  }

  /** Some copy of the content is pinned, or the last copy is not crossed off. */
  ghost predicate CopyKept(msgs: seq<Message>, excluded: Flags, pinned: Flags, mi: nat, pi: nat)
    requires ResultAt(msgs, mi, pi)
  {
    exists mj: nat, pj: nat ::
      && ResultAt(msgs, mj, pj) && msgs[mj].parts[pj].content == msgs[mi].parts[pi].content
      && (Flagged(pinned, msgs[mj].parts[pj].callId)
          || (!Flagged(excluded, msgs[mj].parts[pj].callId) && !LaterCopy(msgs, mj, pj)))
  }

  /** A large content is sent by the dedup compiler exactly when a copy is kept. */
  lemma SendsIffCopyKept(msgs: seq<Message>, excluded: Flags, pinned: Flags, mi: nat, pi: nat)
    requires LargeAt(msgs, mi, pi) && AllFit(msgs)
    ensures Sends(Exclude(Dedup(msgs, pinned), excluded, pinned), msgs[mi].parts[pi].content)
      <==> CopyKept(msgs, excluded, pinned, mi, pi)
  {
    hide LaterCopy, Flagged, SentByDedup, Exclude, Dedup;
    var out, c := Exclude(Dedup(msgs, pinned), excluded, pinned), msgs[mi].parts[pi].content;
    if Sends(out, c) {
      var mj: nat, pj: nat :| ResultAt(out, mj, pj) && out[mj].parts[pj].content == c;
      DedupSends(msgs, excluded, pinned, mj, pj);
      SentOrShort(msgs, excluded, pinned, mj, pj);
      assert LargeAt(msgs, mj, pj);
      SentInFullIff(msgs, excluded, pinned, mj, pj);
    }
    if CopyKept(msgs, excluded, pinned, mi, pi) {
      var mj: nat, pj: nat :|
        && ResultAt(msgs, mj, pj) && msgs[mj].parts[pj].content == c
        && (Flagged(pinned, msgs[mj].parts[pj].callId)
            || (!Flagged(excluded, msgs[mj].parts[pj].callId) && !LaterCopy(msgs, mj, pj)));
      DedupSends(msgs, excluded, pinned, mj, pj);
      SentInFullIff(msgs, excluded, pinned, mj, pj);
    }
  }

  /** Exactly when the dedup compiler sends every large content the compatibility
      compiler sends. A content fails when the user crossed off its last copy and
      pinned none, while an earlier copy is still shown. */
  lemma PreservesIff(msgs: seq<Message>, excluded: Flags, pinned: Flags)
    requires AllFit(msgs)
    ensures Preserves(Exclude(msgs, excluded, pinned), Exclude(Dedup(msgs, pinned), excluded, pinned)) <==>
      forall mi: nat, pi: nat :: LargeAt(msgs, mi, pi) && Shown(msgs[mi].parts[pi], excluded, pinned) ==>
        CopyKept(msgs, excluded, pinned, mi, pi)
  {
    hide LaterCopy, Flagged, Exclude, Dedup, CopyKept, Sends;
    var control, variant := Exclude(msgs, excluded, pinned), Exclude(Dedup(msgs, pinned), excluded, pinned);
    forall mi: nat, pi: nat
      ensures LargeAt(control, mi, pi) <==> LargeAt(msgs, mi, pi) && Shown(msgs[mi].parts[pi], excluded, pinned)
      ensures LargeAt(control, mi, pi) ==>
        (Sends(variant, control[mi].parts[pi].content) <==> CopyKept(msgs, excluded, pinned, mi, pi))
    {
      CompatSends(msgs, excluded, pinned, mi, pi);
      if ResultAt(msgs, mi, pi) {
        StubsAreShort(msgs[mi].parts[pi].content);
        if LargeAt(control, mi, pi) {
          SendsIffCopyKept(msgs, excluded, pinned, mi, pi);
        }
      }
    }
  }

  predicate NothingFlagged(excluded: Flags) {
    forall id :: id in excluded ==> !excluded[id]
  }

  lemma ExcludeNothing(msgs: seq<Message>, excluded: Flags, pinned: Flags)
    requires NothingFlagged(excluded)
    ensures Exclude(msgs, excluded, pinned) == msgs
  {
    forall mi | 0 <= mi < |msgs|
      ensures Exclude(msgs, excluded, pinned)[mi] == msgs[mi]
    {
      assert ExcludeParts(msgs[mi].parts, excluded, pinned) == msgs[mi].parts;
    }
  }

  /** Without exclusions nothing large is lost: the comparison of the two compilers
      always finds the outcome preserved, whatever is pinned and however long. */
  lemma DedupIsLossless(in': Input)
    requires NothingFlagged(in'.excluded)
    ensures Preserves(CompatMessages(in'), DedupMessages(in'))
  {
    hide LaterCopy, Flagged, Exclude, Dedup, Sends;
    var msgs, pinned := Clean(in'.history), in'.pinned;
    ExcludeNothing(msgs, in'.excluded, pinned);
    ExcludeNothing(Dedup(msgs, pinned), in'.excluded, pinned);
    forall mi: nat, pi: nat | LargeAt(msgs, mi, pi)
      ensures Sends(Dedup(msgs, pinned), msgs[mi].parts[pi].content)
    {
      var mj, pj := LastCopy(msgs, mi, pi);
      LastIsSent(msgs, pinned, mj, pj);
    }
  }

  lemma LastIsSent(msgs: seq<Message>, pinned: Flags, mj: nat, pj: nat)
    requires ResultAt(msgs, mj, pj) && !LaterCopy(msgs, mj, pj)
    ensures Sends(Dedup(msgs, pinned), msgs[mj].parts[pj].content)
  {
    hide LaterCopy;
    assert DedupPart(msgs, pinned, mj, pj) == msgs[mj].parts[pj];
    assert ResultAt(Dedup(msgs, pinned), mj, pj);
  }

  /** Crossing off the last of two equal results loses their content, although the
      first is still shown: its reference points at a stub. */
  lemma CrossingOffTheLastCopyLosesIt(first: Part, second: Part, head: Message, excluded: Flags)
    requires first.ToolResult? && second.ToolResult? && first.content == second.content
    requires MIN_DEDUP_BYTES <= |first.content| <= MAX_LENGTH
    requires Flagged(excluded, second.callId) && !Flagged(excluded, first.callId)
    requires head.parts == [first, second]
    ensures !Preserves(Exclude([head], excluded, map[]), Exclude(Dedup([head], map[]), excluded, map[]))
  {
    hide Exclude, Dedup, Sends, Preserves;
    var msgs := [head];
    assert LargeAt(msgs, 0, 0) && ResultAt(msgs, 0, 1) && Before(0, 0, 0, 1);
    assert LaterCopy(msgs, 0, 0);
    PreservesIff(msgs, excluded, map[]);
    assert Shown(msgs[0].parts[0], excluded, map[]);
    assert !CopyKept(msgs, excluded, map[], 0, 0);
  }

  // ------------------------------------------------------------------- stability

  /** A second pass finds nothing more to replace. */
  lemma DedupIsIdempotent(msgs: seq<Message>, pinned: Flags)
    requires AllFit(msgs)
    ensures Dedup(Dedup(msgs, pinned), pinned) == Dedup(msgs, pinned)
  {
    var once := Dedup(msgs, pinned);
    forall mi: nat, pi: nat | mi < |once| && pi < |once[mi].parts|
      ensures DedupPart(once, pinned, mi, pi) == once[mi].parts[pi]
    {
      SecondPassKeeps(msgs, pinned, mi, pi);
    }
    forall mi | 0 <= mi < |once|
      ensures Dedup(once, pinned)[mi] == once[mi]
    {
      assert DedupParts(once, pinned, mi) == once[mi].parts;
    }
  }

  lemma SecondPassKeeps(msgs: seq<Message>, pinned: Flags, mi: nat, pi: nat)
    requires AllFit(msgs) && mi < |msgs| && pi < |msgs[mi].parts|
    ensures !Deduped(Dedup(msgs, pinned), pinned, mi, pi)
  {
    hide Flagged, DedupStub;
    var once := Dedup(msgs, pinned);
    assert once[mi].parts[pi] == DedupPart(msgs, pinned, mi, pi);
    if LargeAt(once, mi, pi) && LaterCopy(once, mi, pi) {
      var c := once[mi].parts[pi].content;
      var mj: nat, pj: nat :| ResultAt(once, mj, pj) && Before(mi, pi, mj, pj) && once[mj].parts[pj].content == c;
      assert once[mj].parts[pj] == DedupPart(msgs, pinned, mj, pj);
      StubsAreShort(msgs[mi].parts[pi].content);
      StubsAreShort(msgs[mj].parts[pj].content);
      assert msgs[mi].parts[pi].content == c && msgs[mj].parts[pj].content == c;
      assert ResultAt(msgs, mj, pj);
      assert LaterCopy(msgs, mi, pi);
    }
  }

  // ------------------------------------------------------------------- tokens

  lemma {:induction false} NoMorePartChars(a: seq<Part>, b: seq<Part>)
    requires |a| == |b| && forall k :: 0 <= k < |a| ==> PartChars(b[k]) <= PartChars(a[k])
    ensures PartsChars(b) <= PartsChars(a)
  {
    if a != [] {
      NoMorePartChars(a[..|a| - 1], b[..|b| - 1]);
    }
  }

  lemma {:induction false} NoMoreChars(a: seq<Message>, b: seq<Message>)
    requires |a| == |b| && forall k :: 0 <= k < |a| ==> PartsChars(b[k].parts) <= PartsChars(a[k].parts)
    ensures Chars(b) <= Chars(a)
  {
    if a != [] {
      NoMoreChars(a[..|a| - 1], b[..|b| - 1]);
    }
  }

  /** Replacing duplicates never makes the prompt longer. */
  lemma DedupShortens(msgs: seq<Message>, pinned: Flags)
    ensures Chars(Dedup(msgs, pinned)) <= Chars(msgs)
  {
    hide PartsChars, Chars;
    forall mi | 0 <= mi < |msgs|
      ensures PartsChars(DedupParts(msgs, pinned, mi)) <= PartsChars(msgs[mi].parts)
    {
      forall pi | 0 <= pi < |msgs[mi].parts|
        ensures PartChars(DedupPart(msgs, pinned, mi, pi)) <= PartChars(msgs[mi].parts[pi])
      {
        PartShortens(msgs, pinned, mi, pi);
      }
      NoMorePartChars(msgs[mi].parts, DedupParts(msgs, pinned, mi));
    }
    NoMoreChars(msgs, Dedup(msgs, pinned));
  }

  lemma PartShortens(msgs: seq<Message>, pinned: Flags, mi: nat, pi: nat)
    requires mi < |msgs| && pi < |msgs[mi].parts|
    ensures PartChars(DedupPart(msgs, pinned, mi, pi)) <= PartChars(msgs[mi].parts[pi])
  {
    hide LaterCopy, DedupStub, Flagged;
    var p := msgs[mi].parts[pi];
    if p.ToolResult? {
      StubsAreShort(p.content);
    }
  }

  /** Without exclusions the tokens saved and the tokens sent add up to the full
      transcript: the stubs never outgrow what they replace. */
  lemma SavedTokensAddUp(in': Input, saved: nat)
    requires
      var full, sent := Tokens(Chars(Clean(in'.history))), Tokens(Chars(DedupMessages(in')));
      saved == if sent <= full then full - sent else 0
    ensures NothingFlagged(in'.excluded) ==>
      saved + Tokens(Chars(DedupMessages(in'))) == Tokens(Chars(Clean(in'.history)))
  {
    hide Chars, Dedup, Exclude;
    if NothingFlagged(in'.excluded) {
      var msgs := Clean(in'.history);
      ExcludeNothing(Dedup(msgs, in'.pinned), in'.excluded, in'.pinned);
      DedupShortens(msgs, in'.pinned);
    }
  }

  datatype CompilerResult = CompilerResult(control: nat, variant: nat, saved: nat, preserved: bool)

  /** Compiling one history with both compilers: the outcome is always preserved and
      the variant never costs more. */
  method CompareCompilers(history: seq<Message>) returns (r: CompilerResult)
    ensures r.preserved
    ensures r.variant <= r.control && r.saved + r.variant == r.control
    ensures r.control == Tokens(Chars(Clean(history)))
  {
    hide Chars, Clean, Dedup, Exclude, Sends;
    var in' := Input(history, "", "", map[], map[]);
    var c := CompileCompat(in');
    var v := CompileDedup(in');
    DedupIsLossless(in');
    ExcludeNothing(Clean(history), map[], map[]);
    ExcludeNothing(Dedup(Clean(history), map[]), map[], map[]);
    DedupShortens(Clean(history), map[]);
    var saved: int := c.estimated - v.estimated;
    if saved < 0 {
      saved := 0;
    }
    var preserved := PreservesContent(c.messages, v.messages);
    r := CompilerResult(c.estimated, v.estimated, saved, preserved);
  }
}
