/** The approval protocol as a state machine. A call of Request is numbered, its
    number standing for its fresh id; every critical section of the service, every
    store to its tables, every publication and every send or receive is a step of
    its own, so a run is any interleaving of concurrent callers and answers. */
module Permissions {
  import opened Basics
  import opened SessionModes

  /** What a session-wide grant is matched on. */
  datatype Key = Key(tool: string, action: string, session: string, path: string, fingerprint: string)

  datatype Cause = ByMode(session: string) | ByGrant | ByReply(reply: nat)

  /** Where a call of Request stands. */
  datatype Pc =
    | Arrived                            // about to read its session's mode
    | Refused(root: string)              // about to be recorded as denied
    | Queued                             // waiting for the prompt lock
    | Admitted                           // about to check the grants
    | Unmatched                          // no grant; about to store its channel
    | Stored                             // about to publish its request
    | Waiting                            // published; waits for an answer
    | Woken(reply: nat)                  // has an answer; about to drop its channel
    | Leaving(allow: bool, cause: Cause) // about to release the prompt lock
    | Finished(allow: bool, cause: Cause)

  datatype Call = Call(key: Key, pc: Pc)

  datatype Kind = Persist | Allow | Deny
  datatype ReplyPc = Loading | Sending | Sent | Dropped

  /** A call of GrantPersistant, Grant or Deny, for the request with the given id.
      A persistent grant is recorded before the reply starts loading. */
  datatype Reply = Reply(kind: Kind, id: nat, key: Key, pc: ReplyPc)

  datatype State = State(
    modes: Modes,
    grants: seq<Key>,
    denied: map<string, seq<nat>>, // refused calls, by the session that refused them
    calls: seq<Call>,
    replies: seq<Reply>,
    holder: Option<nat>,           // the call that holds the prompt lock
    pending: set<nat>,             // the calls whose channel can be found
    mail: map<nat, nat>,           // the one-place channels that are full, with their reply
    published: seq<nat>)

  datatype Step =
    | Request(key: Key)
    | ReadMode(i: nat)
    | RecordRefusal(i: nat)
    | Lock(i: nat)
    | CheckGrants(i: nat)
    | Store(i: nat)
    | Publish(i: nat)
    | Receive(i: nat)
    | Forget(i: nat)
    | Unlock(i: nat)
    | Answer(kind: Kind, id: nat, key: Key)
    | Load(u: nat)
    | Send(u: nat)
    | AutoApproveSession(session: string)
    | DenyAllSession(session: string)
    | LinkSession(child: string, parent: string)

  function Empty(): State {
    State(Modes([], [], map[]), [], map[], [], [], None, {}, map[], [])
  }

  predicate At(s: State, i: nat, pc: Pc) {
    i < |s.calls| && s.calls[i].pc == pc
  }

  function Go(s: State, i: nat, pc: Pc): State
    requires i < |s.calls|
  {
    s.(calls := s.calls[i := s.calls[i].(pc := pc)])
  }

  function Refusals(denied: map<string, seq<nat>>, root: string): seq<nat> {
    if root in denied then denied[root] else []
  }

  function AfterMode(m: Mode): Pc {
    match m
    case AutoApproved(session) => Finished(true, ByMode(session))
    case DeniedBy(root) => Refused(root)
    case NoMode => Queued
  }

  function ReplyAllows(kind: Kind): bool {
    kind != Deny
  }

  function Act(s: State, step: Step): State {
    match step
    case Request(key) => s.(calls := s.calls + [Call(key, Arrived)])
    case ReadMode(i) =>
      if !At(s, i, Arrived) then s else Go(s, i, AfterMode(SessionMode(s.modes, s.calls[i].key.session)))
    case RecordRefusal(i) =>
      if !(i < |s.calls| && s.calls[i].pc.Refused?) then s
      else
        var root := s.calls[i].pc.root;
        Go(s, i, Finished(false, ByMode(root))).(denied := s.denied[root := Refusals(s.denied, root) + [i]])
    case Lock(i) => if At(s, i, Queued) && s.holder.None? then Go(s, i, Admitted).(holder := Some(i)) else s
    case CheckGrants(i) =>
      if !At(s, i, Admitted) then s
      else Go(s, i, if s.calls[i].key in s.grants then Leaving(true, ByGrant) else Unmatched)
    case Store(i) => if At(s, i, Unmatched) then Go(s, i, Stored).(pending := s.pending + {i}) else s
    case Publish(i) => if At(s, i, Stored) then Go(s, i, Waiting).(published := s.published + [i]) else s
    case Receive(i) => if At(s, i, Waiting) && i in s.mail then Go(s, i, Woken(s.mail[i])).(mail := s.mail - {i}) else s
    case Forget(i) =>
      if i < |s.calls| && s.calls[i].pc.Woken? && s.calls[i].pc.reply < |s.replies|
      then
        var u := s.calls[i].pc.reply;
        Go(s, i, Leaving(ReplyAllows(s.replies[u].kind), ByReply(u))).(pending := s.pending - {i})
      else s
    case Unlock(i) =>
      if i < |s.calls| && s.calls[i].pc.Leaving?
      then Go(s, i, Finished(s.calls[i].pc.allow, s.calls[i].pc.cause)).(holder := None)
      else s
    case Answer(kind, id, key) =>
      s.(grants := if kind == Persist then s.grants + [key] else s.grants,
         replies := s.replies + [Reply(kind, id, key, Loading)])
    case Load(u) =>
      if u < |s.replies| && s.replies[u].pc == Loading
      then s.(replies := s.replies[u := s.replies[u].(pc := if s.replies[u].id in s.pending then Sending else Dropped)])
      else s
    case Send(u) =>
      if u < |s.replies| && s.replies[u].pc == Sending && s.replies[u].id !in s.mail
      then s.(replies := s.replies[u := s.replies[u].(pc := Sent)], mail := s.mail[s.replies[u].id := u])
      else s
    case AutoApproveSession(session) => s.(modes := s.modes.(auto := s.modes.auto + [session]))
    case DenyAllSession(session) => s.(modes := s.modes.(deny := s.modes.deny + [session]))
    case LinkSession(child, parent) => s.(modes := Link(s.modes, child, parent))
  }

  function Run(s: State, steps: seq<Step>): State {
    if steps == [] then s else Act(Run(s, steps[..|steps| - 1]), steps[|steps| - 1])
  }

  // -------------------------------------------------------------- invariants

  predicate Inside(pc: Pc) {
    pc.Admitted? || pc.Unmatched? || pc.Stored? || pc.Waiting? || pc.Woken? || pc.Leaving?
  }

  predicate Asking(pc: Pc) {
    pc.Stored? || pc.Waiting? || pc.Woken?
  }

  predicate Answered(pc: Pc) {
    pc.Woken? || ((pc.Leaving? || pc.Finished?) && pc.cause.ByReply?)
  }

  /** One call at a time is inside the prompt lock: the holder. */
  ghost predicate Exclusive(s: State) {
    && (s.holder.Some? ==> s.holder.value < |s.calls|)
    && forall i :: 0 <= i < |s.calls| ==> (Inside(s.calls[i].pc) <==> s.holder == Some(i))
  }

  /** A channel can be found exactly while its call is asking. */
  ghost predicate Registered(s: State) {
    && (forall i :: i in s.pending ==> i < |s.calls|)
    && forall i :: 0 <= i < |s.calls| ==> (i in s.pending <==> Asking(s.calls[i].pc))
  }

  ghost predicate RegisteredAt(s: State, i: nat) {
    i in s.pending <==> i < |s.calls| && Asking(s.calls[i].pc)
  }

  ghost predicate Justified(s: State, call: Call, i: nat) {
    match call.pc
    case Refused(root) => root in s.modes.deny
    case Woken(u) => u < |s.replies| && s.replies[u].id == i
    case Leaving(allow, cause) => !cause.ByMode? && Warranted(s, call.key, i, allow, cause)
    case Finished(allow, cause) => Warranted(s, call.key, i, allow, cause)
    case _ => true
  }

  /** Why a call may return what it returns. */
  ghost predicate Warranted(s: State, key: Key, i: nat, allow: bool, cause: Cause) {
    match cause
    case ByMode(session) => if allow then session in s.modes.auto else session in s.modes.deny
    case ByGrant => allow && key in s.grants
    case ByReply(u) => u < |s.replies| && s.replies[u].id == i && allow == ReplyAllows(s.replies[u].kind)
  }

  ghost predicate AllJustified(s: State) {
    forall i :: 0 <= i < |s.calls| ==> Justified(s, s.calls[i], i)
  }

  /** A full channel holds a reply to the call it belongs to. */
  ghost predicate Addressed(s: State) {
    forall i :: i in s.mail ==> s.mail[i] < |s.replies| && s.replies[s.mail[i]].id == i
  }

  /** A persistent reply's grant has been recorded. */
  ghost predicate Recorded(s: State) {
    forall u :: 0 <= u < |s.replies| && s.replies[u].kind == Persist ==> s.replies[u].key in s.grants
  }

  ghost predicate InRange(s: State) {
    forall k :: 0 <= k < |s.published| ==> s.published[k] < |s.calls|
  }

  /** The denied list of a session holds each call it refused, once. */
  ghost predicate RefusalsListed(s: State) {
    forall root :: root in s.denied ==>
      && Distinct(s.denied[root])
      && (forall i :: i in s.denied[root] ==> RefusedBy(s, i, root))
  }

  /** No refused call is missing from its list. */
  ghost predicate NoneUnlisted(s: State) {
    forall i :: 0 <= i < |s.calls| && s.calls[i].pc.Finished? && !s.calls[i].pc.allow && s.calls[i].pc.cause.ByMode? ==>
      i in Refusals(s.denied, s.calls[i].pc.cause.session)
  }

  ghost predicate Inv(s: State) {
    && Exclusive(s) && Registered(s) && AllJustified(s) && Addressed(s) && Recorded(s)
    && InRange(s) && RefusalsListed(s) && NoneUnlisted(s)
  }

  lemma EmptyIsFine()
    ensures Inv(Empty())
  {
  }

  lemma ExclusiveKept(s: State, step: Step)
    requires Exclusive(s)
    ensures Exclusive(Act(s, step))
  {
    hide SessionMode, Link;
  }

  lemma RegisteredKept(s: State, step: Step)
    requires Registered(s)
    ensures Registered(Act(s, step))
  {
    hide Act, Asking;
    var t := Act(s, step);
    forall i: nat ensures i in t.pending <==> i < |t.calls| && Asking(t.calls[i].pc) {
      RegisteredAtKept(s, step, i);
    }
  }

  lemma RegisteredAtKept(s: State, step: Step, i: nat)
    requires RegisteredAt(s, i)
    ensures RegisteredAt(Act(s, step), i)
  {
    hide SessionMode, Link, Refusals;
  }

  lemma AddressedKept(s: State, step: Step)
    requires Addressed(s)
    ensures Addressed(Act(s, step))
  {
    hide SessionMode, Link;
  }

  lemma RecordedKept(s: State, step: Step)
    requires Recorded(s)
    ensures Recorded(Act(s, step))
  {
    hide SessionMode, Link;
  }

  lemma InRangeKept(s: State, step: Step)
    requires InRange(s)
    ensures InRange(Act(s, step))
  {
    hide SessionMode, Link;
  }

  predicate RefusedBy(s: State, i: nat, root: string) {
    At(s, i, Finished(false, ByMode(root)))
  }

  /** A call ends refused by a session only by recording it. */
  lemma OnlyRecordingRefuses(s: State, step: Step, i: nat, root: string)
    requires AllJustified(s)
    ensures RefusedBy(Act(s, step), i, root) <==>
      (RefusedBy(s, i, root) || (step == RecordRefusal(i) && At(s, i, Refused(root))))
  {
    hide SessionMode, Link, Refusals;
    if i < |s.calls| {
      assert Justified(s, s.calls[i], i);
    }
  }

  lemma OnlyRecordingLists(s: State, step: Step)
    ensures
      var t := Act(s, step);
      if step.RecordRefusal? && step.i < |s.calls| && s.calls[step.i].pc.Refused? then
        var root := s.calls[step.i].pc.root;
        t.denied == s.denied[root := Refusals(s.denied, root) + [step.i]]
      else t.denied == s.denied
  {
    hide SessionMode, Link, Refusals, AfterMode;
  }

  lemma AppendDistinct(list: seq<nat>, i: nat)
    requires Distinct(list) && i !in list
    ensures Distinct(list + [i])
  {
  }

  lemma RefusalsKept(s: State, step: Step)
    requires RefusalsListed(s) && NoneUnlisted(s) && AllJustified(s)
    ensures RefusalsListed(Act(s, step)) && NoneUnlisted(Act(s, step))
  {
    var t := Act(s, step);
    OnlyRecordingLists(s, step);
    hide Act, AllJustified;
    forall root | root in t.denied
      ensures Distinct(t.denied[root]) && forall i :: i in t.denied[root] ==> RefusedBy(t, i, root)
    {
      if t.denied != s.denied && root == s.calls[step.i].pc.root {
        AppendDistinct(Refusals(s.denied, root), step.i);
      }
      forall i | i in t.denied[root] ensures RefusedBy(t, i, root) {
        OnlyRecordingRefuses(s, step, i, root);
      }
    }
    forall i, root | RefusedBy(t, i, root) ensures i in Refusals(t.denied, root) {
      OnlyRecordingRefuses(s, step, i, root);
      if RefusedBy(s, i, root) {
        assert i in Refusals(s.denied, root);
      }
    }
    forall i | 0 <= i < |t.calls| && t.calls[i].pc.Finished? && !t.calls[i].pc.allow && t.calls[i].pc.cause.ByMode?
      ensures i in Refusals(t.denied, t.calls[i].pc.cause.session)
    {
      assert RefusedBy(t, i, t.calls[i].pc.cause.session);
    }
  }

  /** The mode the walk found is recorded where the walk found it. */
  lemma ModeIsListed(m: Modes, id: string)
    ensures
      match SessionMode(m, id)
      case AutoApproved(session) => session in m.auto
      case DeniedBy(root) => root in m.deny
      case NoMode => true
  {
    NearestModeWins(m, id);
  }

  /** A justified call stays justified while the tables only grow. */
  lemma GrowthKeeps(s: State, t: State, call: Call, i: nat)
    requires Justified(s, call, i)
    requires forall x :: x in s.modes.auto ==> x in t.modes.auto
    requires forall x :: x in s.modes.deny ==> x in t.modes.deny
    requires forall k :: k in s.grants ==> k in t.grants
    requires |s.replies| <= |t.replies|
    requires forall u :: 0 <= u < |s.replies| ==> t.replies[u].id == s.replies[u].id && t.replies[u].kind == s.replies[u].kind
    ensures Justified(t, call, i)
  {
  }

  lemma TablesGrow(s: State, step: Step)
    ensures
      var t := Act(s, step);
      && (forall x :: x in s.modes.auto ==> x in t.modes.auto)
      && (forall x :: x in s.modes.deny ==> x in t.modes.deny)
      && (forall k :: k in s.grants ==> k in t.grants)
  {
    hide SessionMode, At, Refusals, AfterMode;
  }

  lemma RepliesStay(s: State, step: Step)
    ensures
      var t := Act(s, step);
      && |s.replies| <= |t.replies|
      && (forall u :: 0 <= u < |s.replies| ==>
            t.replies[u].id == s.replies[u].id && t.replies[u].kind == s.replies[u].kind && t.replies[u].key == s.replies[u].key)
  {
    hide SessionMode, Link, Refusals, AfterMode;
  }

  lemma KeysStay(s: State, step: Step)
    ensures
      var t := Act(s, step);
      |s.calls| <= |t.calls| && forall i :: 0 <= i < |s.calls| ==> t.calls[i].key == s.calls[i].key
  {
    hide SessionMode, Link, Refusals, AfterMode;
  }

  lemma JustifiedKept(s: State, step: Step)
    requires AllJustified(s) && Addressed(s)
    ensures AllJustified(Act(s, step))
  {
    var t := Act(s, step);
    KeysStay(s, step);
    hide Act, Justified, Addressed;
    forall i | 0 <= i < |t.calls| ensures Justified(t, t.calls[i], i) {
      if i < |s.calls| {
        CallStaysJustified(s, step, i);
      } else {
        NewCallJustified(s, step, i);
      }
    }
  }

  lemma NewCallJustified(s: State, step: Step, i: nat)
    requires |s.calls| <= i < |Act(s, step).calls|
    ensures Justified(Act(s, step), Act(s, step).calls[i], i)
  {
    hide SessionMode, Link, Refusals, AfterMode;
  }

  lemma CallStaysJustified(s: State, step: Step, i: nat)
    requires i < |s.calls| && Justified(s, s.calls[i], i) && Addressed(s)
    ensures i < |Act(s, step).calls| && Justified(Act(s, step), Act(s, step).calls[i], i)
  {
    hide Act, Justified;
    KeysStay(s, step);
    if Act(s, step).calls[i] == s.calls[i] {
      TablesGrow(s, step);
      RepliesStay(s, step);
      GrowthKeeps(s, Act(s, step), s.calls[i], i);
    } else {
      MovedCallJustified(s, step, i);
    }
  }

  lemma MovedCallJustified(s: State, step: Step, i: nat)
    requires i < |s.calls| && Justified(s, s.calls[i], i) && Addressed(s)
    requires i < |Act(s, step).calls| && Act(s, step).calls[i] != s.calls[i]
    ensures Justified(Act(s, step), Act(s, step).calls[i], i)
  {
    hide SessionMode, Link, Refusals;
    ModeIsListed(s.modes, s.calls[i].key.session);
  }

  lemma StepKeepsInv(s: State, step: Step)
    requires Inv(s)
    ensures Inv(Act(s, step))
  {
    hide Act, Exclusive, Registered, AllJustified, Addressed, Recorded, InRange, RefusalsListed, NoneUnlisted;
    ExclusiveKept(s, step);
    RegisteredKept(s, step);
    AddressedKept(s, step);
    RecordedKept(s, step);
    InRangeKept(s, step);
    RefusalsKept(s, step);
    JustifiedKept(s, step);
  }

  lemma {:induction false} RunKeepsInv(s: State, steps: seq<Step>)
    requires Inv(s)
    ensures Inv(Run(s, steps))
  {
    if steps != [] {
      hide Act, Inv;
      RunKeepsInv(s, steps[..|steps| - 1]);
      StepKeepsInv(Run(s, steps[..|steps| - 1]), steps[|steps| - 1]);
    }
  }

  // ---------------------------------------------------------------- theorems

  /** At most one request is pending, and it is the lock holder's. */
  lemma AtMostOnePending(steps: seq<Step>, i: nat, j: nat)
    requires i in Run(Empty(), steps).pending && j in Run(Empty(), steps).pending
    ensures i == j && Run(Empty(), steps).holder == Some(i)
  {
    hide Run;
    EmptyIsFine();
    RunKeepsInv(Empty(), steps);
  }

  /** A request is allowed only by an auto-approving session, a recorded grant with
      its key, or an allowing answer to its own id; and refused only by a session
      that denies all, which lists it, or by a denial of its own id. */
  lemma OutcomeHasACause(steps: seq<Step>, i: nat)
    requires i < |Run(Empty(), steps).calls| && Run(Empty(), steps).calls[i].pc.Finished?
    ensures
      var s := Run(Empty(), steps);
      var call := s.calls[i];
      && (call.pc.allow ==>
            || (call.pc.cause.ByMode? && call.pc.cause.session in s.modes.auto)
            || (call.pc.cause.ByGrant? && call.key in s.grants)
            || (call.pc.cause.ByReply? && call.pc.cause.reply < |s.replies| &&
                s.replies[call.pc.cause.reply].id == i && s.replies[call.pc.cause.reply].kind != Deny))
      && (!call.pc.allow ==>
            || (call.pc.cause.ByMode? && call.pc.cause.session in s.modes.deny && i in Refusals(s.denied, call.pc.cause.session))
            || (call.pc.cause.ByReply? && call.pc.cause.reply < |s.replies| &&
                s.replies[call.pc.cause.reply].id == i && s.replies[call.pc.cause.reply].kind == Deny))
  {
    hide Run;
    EmptyIsFine();
    RunKeepsInv(Empty(), steps);
    assert Justified(Run(Empty(), steps), Run(Empty(), steps).calls[i], i);
  }

  /** How many of the published requests have the key. */
  function Prompts(published: seq<nat>, calls: seq<Call>, key: Key): nat {
    if published == [] then 0
    else
      var last := published[|published| - 1];
      Prompts(published[..|published| - 1], calls, key)
      + if last < |calls| && calls[last].key == key then 1 else 0
  }

  function PromptsOf(s: State, key: Key): nat {
    Prompts(s.published, s.calls, key)
  }

  /** The lock holder asks for the key and is past its grant check. */
  predicate PastCheck(s: State, key: Key) {
    && s.holder.Some? && s.holder.value < |s.calls|
    && s.calls[s.holder.value].key == key
    && (s.calls[s.holder.value].pc.Unmatched? || s.calls[s.holder.value].pc.Stored?)
  }

  lemma {:induction false} PromptsStay(published: seq<nat>, a: seq<Call>, b: seq<Call>, key: Key)
    requires |a| <= |b| && forall i :: 0 <= i < |a| ==> b[i].key == a[i].key
    requires forall k :: 0 <= k < |published| ==> published[k] < |a|
    ensures Prompts(published, a, key) == Prompts(published, b, key)
  {
    if published != [] {
      PromptsStay(published[..|published| - 1], a, b, key);
    }
  }

  lemma CheckStopsGranted(s: State, step: Step, key: Key)
    requires Exclusive(s) && key in s.grants && PastCheck(Act(s, step), key)
    ensures PastCheck(s, key) && Act(s, step).published == s.published
  {
    hide SessionMode, Link, Refusals, AfterMode;
  }

  lemma OnlyPublishPrompts(s: State, step: Step)
    ensures Act(s, step).published == s.published ||
            (step.Publish? && At(s, step.i, Stored) && Act(s, step).published == s.published + [step.i])
  {
    hide SessionMode, Link, Refusals, AfterMode;
  }

  /** Once a key is granted, prompts for it plus the one about to be made never grow. */
  lemma GrantedKeyStep(s: State, step: Step, key: Key)
    requires Inv(s) && key in s.grants
    ensures
      var t := Act(s, step);
      && key in t.grants
      && PromptsOf(t, key) + (if PastCheck(t, key) then 1 else 0) <= PromptsOf(s, key) + (if PastCheck(s, key) then 1 else 0)
  {
    hide Act, AllJustified, Addressed, Recorded, RefusalsListed, NoneUnlisted, Registered;
    KeysStay(s, step);
    TablesGrow(s, step);
    OnlyPublishPrompts(s, step);
    var t := Act(s, step);
    PromptsStay(s.published, s.calls, t.calls, key);
    if t.published != s.published {
      assert t.published[..|t.published| - 1] == s.published;
    }
    if PastCheck(t, key) {
      CheckStopsGranted(s, step, key);
    }
  }

  lemma {:induction false} GrantedKeyRun(s: State, steps: seq<Step>, key: Key)
    requires Inv(s) && key in s.grants
    ensures
      var t := Run(s, steps);
      && key in t.grants
      && PromptsOf(t, key) + (if PastCheck(t, key) then 1 else 0) <= PromptsOf(s, key) + (if PastCheck(s, key) then 1 else 0)
  {
    if steps != [] {
      hide Act, Inv, PromptsOf, PastCheck;
      var init := steps[..|steps| - 1];
      GrantedKeyRun(s, init, key);
      RunKeepsInv(s, init);
      GrantedKeyStep(Run(s, init), steps[|steps| - 1], key);
    }
  }

  /** After a grant is recorded, its key is prompted for at most once more, and only
      by a call that was already past its check. */
  lemma GrantAllowsOneMorePrompt(s: State, steps: seq<Step>, key: Key)
    requires Inv(s) && key in s.grants
    ensures PromptsOf(Run(s, steps), key) <= PromptsOf(s, key) + (if PastCheck(s, key) then 1 else 0)
  {
    hide Run, PromptsOf, PastCheck, Inv;
    GrantedKeyRun(s, steps, key);
  }

  lemma {:induction false} PublishedGrows(s: State, steps: seq<Step>)
    requires Inv(s)
    ensures
      var t := Run(s, steps);
      && |s.published| <= |t.published| && t.published[..|s.published|] == s.published
      && |s.calls| <= |t.calls| && (forall i :: 0 <= i < |s.calls| ==> t.calls[i].key == s.calls[i].key)
  {
    if steps != [] {
      hide Act, Inv;
      var init := steps[..|steps| - 1];
      PublishedGrows(s, init);
      OnlyPublishPrompts(Run(s, init), steps[|steps| - 1]);
      KeysStay(Run(s, init), steps[|steps| - 1]);
    }
  }

  lemma {:induction false} LaterPromptCounts(published: seq<nat>, calls: seq<Call>, key: Key, n: nat, k: nat)
    requires n <= k < |published| && published[k] < |calls| && calls[published[k]].key == key
    ensures Prompts(published, calls, key) >= Prompts(published[..n], calls, key) + 1
    decreases |published|
  {
    var init := published[..|published| - 1];
    if k < |init| {
      LaterPromptCounts(init, calls, key, n, k);
      assert init[..n] == published[..n];
    } else {
      PromptsMonotone(init, calls, key, n);
      assert init[..n] == published[..n];
    }
  }

  lemma {:induction false} PromptsMonotone(published: seq<nat>, calls: seq<Call>, key: Key, n: nat)
    requires n <= |published|
    ensures Prompts(published, calls, key) >= Prompts(published[..n], calls, key)
  {
    if n < |published| {
      PromptsMonotone(published[..|published| - 1], calls, key, n);
      assert published[..|published| - 1][..n] == published[..n];
    } else {
      assert published[..n] == published;
    }
  }

  /** Once a persistent grant of its key has woken a request, no request with that
      key is ever published again. */
  lemma WokenByPersistEndsPrompts(s: State, i: nat, steps: seq<Step>, k: nat)
    requires Inv(s) && i < |s.calls| && s.calls[i].pc.Woken?
    requires s.calls[i].pc.reply < |s.replies|
    requires s.replies[s.calls[i].pc.reply].kind == Persist && s.replies[s.calls[i].pc.reply].key == s.calls[i].key
    requires |s.published| <= k < |Run(s, steps).published|
    ensures
      var t := Run(s, steps);
      t.published[k] < |t.calls| && t.calls[t.published[k]].key != s.calls[i].key
  {
    var t, key := Run(s, steps), s.calls[i].key;
    assert Exclusive(s) && !PastCheck(s, key);
    assert key in s.grants;
    assert InRange(s);
    hide Run, Exclusive, Registered, AllJustified, Addressed, Recorded, RefusalsListed, NoneUnlisted, PastCheck;
    RunKeepsInv(s, steps);
    assert InRange(t);
    PublishedGrows(s, steps);
    GrantAllowsOneMorePrompt(s, steps, key);
    PromptsStay(s.published, s.calls, t.calls, key);
    if t.calls[t.published[k]].key == key {
      LaterPromptCounts(t.published, t.calls, key, |s.published|, k);
    }
  }

  // ------------------------------------------------------- what can go wrong

  /** The channel holds one answer, and its request has already taken its own. */
  predicate Clogged(s: State, i: nat) {
    && i < |s.calls| && Answered(s.calls[i].pc) && i in s.mail
  }

  lemma ClogStays(s: State, step: Step, i: nat)
    requires Clogged(s, i)
    ensures Clogged(Act(s, step), i) && Act(s, step).mail[i] == s.mail[i]
  {
    hide SessionMode, Link;
  }

  lemma StuckStep(s: State, step: Step, u: nat)
    requires u < |s.replies| && s.replies[u].pc == Sending && s.replies[u].id in s.mail
    ensures u < |Act(s, step).replies| && Act(s, step).replies[u] == s.replies[u]
  {
    hide SessionMode, Link, Refusals, AfterMode;
  }

  /** A second answer fills the channel for good, and a reply that is then still
      sending to that request never returns. */
  lemma {:induction false} LateReplyBlocksForEver(s: State, i: nat, u: nat, steps: seq<Step>)
    requires Clogged(s, i) && u < |s.replies| && s.replies[u].id == i && s.replies[u].pc == Sending
    ensures
      var t := Run(s, steps);
      Clogged(t, i) && u < |t.replies| && t.replies[u] == s.replies[u]
  {
    if steps != [] {
      hide Act;
      var init := steps[..|steps| - 1];
      LateReplyBlocksForEver(s, i, u, init);
      ClogStays(Run(s, init), steps[|steps| - 1], i);
      StuckStep(Run(s, init), steps[|steps| - 1], u);
    }
  }

  lemma PublishPrompts(s: State, i: nat, key: Key)
    requires InRange(s) && At(s, i, Stored) && s.calls[i].key == key
    ensures PromptsOf(Act(s, Publish(i)), key) == PromptsOf(s, key) + 1
  {
    var t := Act(s, Publish(i));
    assert t.published[..|t.published| - 1] == s.published;
    PromptsStay(s.published, s.calls, t.calls, key);
  }

  /** A call that is past the check goes on to prompt, whatever is recorded meanwhile. */
  lemma OneMorePromptCanHappen(s: State, key: Key)
    requires InRange(s) && PastCheck(s, key)
    ensures exists steps :: PromptsOf(Run(s, steps), key) == PromptsOf(s, key) + 1
  {
    var i := s.holder.value;
    hide PromptsOf;
    if s.calls[i].pc.Stored? {
      PublishPrompts(s, i, key);
      assert Run(s, [Publish(i)]) == Act(s, Publish(i)) by {
        assert [Publish(i)][..0] == [];
      }
    } else {
      var t := Act(s, Store(i));
      assert t.published == s.published && t.calls[i].key == key;
      PromptsStay(s.published, s.calls, t.calls, key);
      assert PromptsOf(t, key) == PromptsOf(s, key) by {
        StoreDoesNotPrompt(s, i, key);
      }
      PublishPrompts(t, i, key);
      var steps := [Store(i), Publish(i)];
      assert steps[..1] == [Store(i)] && [Store(i)][..0] == [];
      assert Run(s, [Store(i)]) == t;
      assert Run(s, steps) == Act(t, Publish(i));
    }
  }

  lemma StoreDoesNotPrompt(s: State, i: nat, key: Key)
    requires InRange(s) && At(s, i, Unmatched)
    ensures PromptsOf(Act(s, Store(i)), key) == PromptsOf(s, key)
  {
    PromptsStay(s.published, s.calls, Act(s, Store(i)).calls, key);
  }
}
