/** When an answer to a permission request returns to its caller, and what recording
    a grant only after waking the request would do. */
module PermissionRuns {
  import opened Basics
  import opened SessionModes
  import opened Permissions

  // ------------------------------------------------------------- answers sent

  predicate Opened(pc: Pc) {
    pc.Stored? || pc.Waiting? || Answered(pc)
  }

  /** The answer a request has taken. */
  function AnswerOf(pc: Pc): nat
    requires Answered(pc)
  {
    if pc.Woken? then pc.reply else pc.cause.reply
  }

  ghost predicate IsSentTo(s: State, u: nat, i: nat) {
    u < |s.replies| && s.replies[u].id == i && s.replies[u].pc == Sent
  }

  ghost predicate MailAt(s: State, i: nat)
    requires i in s.mail
  {
    i < |s.calls| && Opened(s.calls[i].pc) && IsSentTo(s, s.mail[i], i)
  }

  /** A full channel belongs to a request that has stored it, and holds an answer
      that was sent to it. */
  ghost predicate MailOk(s: State) {
    forall i :: i in s.mail ==> MailAt(s, i)
  }

  ghost predicate SendingAt(s: State, u: nat)
    requires u < |s.replies|
  {
    s.replies[u].pc == Sending ==> s.replies[u].id < |s.calls| && Opened(s.calls[s.replies[u].id].pc)
  }

  /** An answer being sent has found the channel of a request that stored it. */
  ghost predicate SendingOk(s: State) {
    forall u :: 0 <= u < |s.replies| ==> SendingAt(s, u)
  }

  ghost predicate TakenAt(s: State, i: nat)
    requires i < |s.calls|
  {
    Answered(s.calls[i].pc) ==>
      && IsSentTo(s, AnswerOf(s.calls[i].pc), i)
      && (i in s.mail ==> s.mail[i] != AnswerOf(s.calls[i].pc))
  }

  /** The answer a request has taken was sent to it and is no longer in its channel. */
  ghost predicate TakenOk(s: State) {
    forall i :: 0 <= i < |s.calls| ==> TakenAt(s, i)
  }

  lemma MailAtKept(s: State, step: Step, i: nat)
    requires i in s.mail ==> MailAt(s, i)
    requires step.Send? && step.u < |s.replies| ==> SendingAt(s, step.u)
    requires i in Act(s, step).mail
    ensures MailAt(Act(s, step), i)
  {
    hide SessionMode, Link, Refusals;
  }

  lemma MailKept(s: State, step: Step)
    requires MailOk(s) && SendingOk(s)
    ensures MailOk(Act(s, step))
  {
    hide Act, MailAt, SendingAt;
    forall i | i in Act(s, step).mail ensures MailAt(Act(s, step), i) {
      MailAtKept(s, step, i);
    }
  }

  lemma SendingAtKept(s: State, step: Step, u: nat)
    requires u < |s.replies| ==> SendingAt(s, u)
    requires Registered(s) && u < |Act(s, step).replies|
    ensures SendingAt(Act(s, step), u)
  {
    hide SessionMode, Link, Refusals;
  }

  lemma SendingKept(s: State, step: Step)
    requires SendingOk(s) && Registered(s)
    ensures SendingOk(Act(s, step))
  {
    hide Act, SendingAt, Registered;
    forall u | 0 <= u < |Act(s, step).replies| ensures SendingAt(Act(s, step), u) {
      SendingAtKept(s, step, u);
    }
  }

  lemma TakenAtKept(s: State, step: Step, i: nat)
    requires i < |s.calls| ==> TakenAt(s, i)
    requires i in s.mail ==> MailAt(s, i)
    requires i < |Act(s, step).calls|
    ensures TakenAt(Act(s, step), i)
  {
    hide SessionMode, Link, Refusals;
  }

  lemma TakenKept(s: State, step: Step)
    requires TakenOk(s) && MailOk(s)
    ensures TakenOk(Act(s, step))
  {
    hide Act, TakenAt, MailAt;
    forall i | 0 <= i < |Act(s, step).calls| ensures TakenAt(Act(s, step), i) {
      TakenAtKept(s, step, i);
    }
  }

  ghost predicate Kept(s: State) {
    Inv(s) && MailOk(s) && SendingOk(s) && TakenOk(s)
  }

  lemma {:induction false} RunKeeps(steps: seq<Step>)
    ensures Kept(Run(Empty(), steps))
  {
    if steps == [] {
      EmptyIsFine();
    } else {
      hide Act, Exclusive, AllJustified, Addressed, Recorded, InRange, RefusalsListed, NoneUnlisted, MailOk, SendingOk, TakenOk, Registered;
      var s := Run(Empty(), steps[..|steps| - 1]);
      RunKeeps(steps[..|steps| - 1]);
      StepKeepsInv(s, steps[|steps| - 1]);
      MailKept(s, steps[|steps| - 1]);
      SendingKept(s, steps[|steps| - 1]);
      TakenKept(s, steps[|steps| - 1]);
    }
  }

  // ------------------------------------------------------- runs, step by step

  lemma RunNext(s: State, steps: seq<Step>, step: Step)
    ensures Run(s, steps + [step]) == Act(Run(s, steps), step)
  {
    assert (steps + [step])[..|steps|] == steps;
  }

  lemma RunOne(s: State, step: Step)
    ensures Run(s, [step]) == Act(s, step)
  {
    RunNext(s, [], step);
    assert [] + [step] == [step];
  }

  lemma RunTwo(s: State, first: Step, second: Step)
    ensures Run(s, [first, second]) == Act(Act(s, first), second)
  {
    RunOne(s, first);
    RunNext(s, [first], second);
    assert [first] + [second] == [first, second];
  }

  lemma RunThree(s: State, first: Step, second: Step, third: Step)
    ensures Run(s, [first, second, third]) == Act(Act(Act(s, first), second), third)
  {
    RunTwo(s, first, second);
    RunNext(s, [first, second], third);
    assert [first, second] + [third] == [first, second, third];
  }

  lemma {:induction false} RunConcat(s: State, first: seq<Step>, second: seq<Step>)
    ensures Run(s, first + second) == Run(Run(s, first), second)
    decreases |second|
  {
    hide Act;
    if second == [] {
      assert first + second == first;
    } else {
      var init, last := second[..|second| - 1], second[|second| - 1];
      RunConcat(s, first, init);
      assert first + second == first + init + [last];
      hide Run;
      RunNext(s, first + init, last);
      RunNext(Run(s, first), init, last);
      assert second == init + [last];
    }
  }

  // --------------------------------------------- when an answer's send returns

  lemma OpenChannelTakes(s: State, u: nat)
    requires u < |s.replies| && s.replies[u].pc == Sending && s.replies[u].id !in s.mail
    ensures u < |Act(s, Send(u)).replies| && Act(s, Send(u)).replies[u].pc == Sent
  {
  }

  lemma ReceiveEmpties(s: State, i: nat)
    requires At(s, i, Waiting) && i in s.mail
    ensures i !in Act(s, Receive(i)).mail && Act(s, Receive(i)).replies == s.replies
  {
  }

  lemma PublishWaits(s: State, i: nat)
    requires At(s, i, Stored) && i in s.mail
    ensures
      var t := Act(s, Publish(i));
      At(t, i, Waiting) && i in t.mail && t.replies == s.replies
  {
  }

  /** The send of an answer can return: some run sends it. */
  ghost predicate CanReturn(s: State, u: nat) {
    exists steps :: u < |Run(s, steps).replies| && Run(s, steps).replies[u].pc == Sent
  }

  /** In every reachable state, the send of an answer that found its request's channel
      can return exactly if that channel is not full with its request already answered;
      otherwise it never does. */
  lemma SendReturnsIff(before: seq<Step>, u: nat)
    requires u < |Run(Empty(), before).replies| && Run(Empty(), before).replies[u].pc == Sending
    ensures
      var s := Run(Empty(), before);
      CanReturn(s, u) <==> !Clogged(s, s.replies[u].id)
  {
    var s := Run(Empty(), before);
    var i := s.replies[u].id;
    RunKeeps(before);
    if Clogged(s, i) {
      forall steps ensures !(u < |Run(s, steps).replies| && Run(s, steps).replies[u].pc == Sent) {
        LateReplyBlocksForEver(s, i, u, steps);
      }
    } else {
      SendReturns(s, u);
    }
  }

  lemma SendReturns(s: State, u: nat)
    requires MailOk(s) && u < |s.replies| && s.replies[u].pc == Sending && !Clogged(s, s.replies[u].id)
    ensures CanReturn(s, u)
  {
    hide Run, Act;
    var i := s.replies[u].id;
    if i !in s.mail {
      OpenChannelTakes(s, u);
      RunOne(s, Send(u));
    } else if s.calls[i].pc.Waiting? {
      ReceiveEmpties(s, i);
      OpenChannelTakes(Act(s, Receive(i)), u);
      RunTwo(s, Receive(i), Send(u));
    } else {
      PublishWaits(s, i);
      ReceiveEmpties(Act(s, Publish(i)), i);
      OpenChannelTakes(Act(Act(s, Publish(i)), Receive(i)), u);
      RunThree(s, Publish(i), Receive(i), Send(u));
    }
  }

  // ------------------------------------------------- at most two answers are safe

  /** How many answers to the request the run starts. */
  function Answers(steps: seq<Step>, i: nat): nat {
    if steps == [] then 0
    else
      var last := steps[|steps| - 1];
      Answers(steps[..|steps| - 1], i) + if last.Answer? && last.id == i then 1 else 0
  }

  function RepliesTo(replies: seq<Reply>, i: nat): set<nat> {
    set u: nat | u < |replies| && replies[u].id == i
  }

  lemma RepliesStep(s: State, step: Step, i: nat)
    ensures
      RepliesTo(Act(s, step).replies, i) ==
        if step.Answer? && step.id == i then RepliesTo(s.replies, i) + {|s.replies|} else RepliesTo(s.replies, i)
  {
    RepliesStay(s, step);
    NewReplies(s, step);
    hide Act;
  }

  lemma NewReplies(s: State, step: Step)
    ensures
      var t := Act(s, step);
      if step.Answer? then |t.replies| == |s.replies| + 1 && t.replies[|s.replies|].id == step.id
      else |t.replies| == |s.replies|
  {
    hide SessionMode, Link, Refusals, AfterMode;
  }

  lemma {:induction false} RepliesAreAnswers(steps: seq<Step>, i: nat)
    ensures |RepliesTo(Run(Empty(), steps).replies, i)| == Answers(steps, i)
  {
    if steps == [] {
      assert RepliesTo([], i) == {};
    } else {
      hide Act;
      RepliesAreAnswers(steps[..|steps| - 1], i);
      var s := Run(Empty(), steps[..|steps| - 1]);
      RepliesStep(s, steps[|steps| - 1], i);
      assert |s.replies| !in RepliesTo(s.replies, i);
    }
  }

  lemma ThreeMembers(members: set<nat>, a: nat, b: nat, c: nat)
    requires a in members && b in members && c in members && a != b && b != c && a != c
    ensures |members| >= 3
  {
    var two := members - {a};
    var one := two - {b};
    assert c in one;
    assert |one| >= 1 && |two| == |one| + 1 && |members| == |two| + 1;
  }

  /** Behind a clogged channel there are three answers: the one being sent, the one in
      the channel, and the one the request has taken. */
  lemma ClogTakesThree(s: State, u: nat)
    requires u < |s.replies| && s.replies[u].pc == Sending && Clogged(s, s.replies[u].id)
    requires MailAt(s, s.replies[u].id) && TakenAt(s, s.replies[u].id)
    ensures |RepliesTo(s.replies, s.replies[u].id)| >= 3
  {
    var i := s.replies[u].id;
    ThreeMembers(RepliesTo(s.replies, i), u, s.mail[i], AnswerOf(s.calls[i].pc));
  }

  /** As long as no request is answered more than twice, no answer is ever stuck. */
  lemma TwoAnswersNeverStick(steps: seq<Step>, u: nat)
    requires u < |Run(Empty(), steps).replies| && Run(Empty(), steps).replies[u].pc == Sending
    requires Answers(steps, Run(Empty(), steps).replies[u].id) <= 2
    ensures CanReturn(Run(Empty(), steps), u)
  {
    var s := Run(Empty(), steps);
    var i := s.replies[u].id;
    RunKeeps(steps);
    RepliesAreAnswers(steps, i);
    hide Run, Act, RepliesTo, Inv, MailAt, TakenAt, SendingAt, CanReturn;
    if Clogged(s, i) {
      ClogTakesThree(s, u);
    } else {
      SendReturns(s, u);
    }
  }

  // ---------------------------------------------------- three answers can stick

  const NO_MODES := Modes([], [], map[])

  lemma NobodyDecides(session: string)
    ensures SessionMode(NO_MODES, session) == NoMode
  {
  }

  /** One request, and answers of one kind to it. */
  function OneAsked(key: Key, pc: Pc): State {
    State(NO_MODES, [], map[], [Call(key, pc)], [], if Inside(pc) then Some(0) else None,
          if Asking(pc) then {0} else {}, map[], if pc == Waiting then [0] else [])
  }

  lemma GetsQueued(key: Key)
    ensures Act(Empty(), Request(key)) == OneAsked(key, Arrived)
    ensures Act(OneAsked(key, Arrived), ReadMode(0)) == OneAsked(key, Queued)
    ensures Act(OneAsked(key, Queued), Lock(0)) == OneAsked(key, Admitted)
  {
    NobodyDecides(key.session);
    hide SessionMode;
  }

  lemma GetsPublished(key: Key)
    ensures Act(OneAsked(key, Admitted), CheckGrants(0)) == OneAsked(key, Unmatched)
    ensures Act(OneAsked(key, Unmatched), Store(0)) == OneAsked(key, Stored)
    ensures Act(OneAsked(key, Stored), Publish(0)) == OneAsked(key, Waiting)
  {
    hide SessionMode;
  }

  /** A request gets as far as its prompt. */
  lemma AskedOnce(key: Key)
    ensures Run(Empty(), AskSteps(key)) == OneAsked(key, Waiting)
  {
    hide Run, Act, OneAsked;
    GetsQueued(key);
    RunThree(Empty(), Request(key), ReadMode(0), Lock(0));
    GetsPublished(key);
    RunThree(OneAsked(key, Admitted), CheckGrants(0), Store(0), Publish(0));
    RunConcat(Empty(), [Request(key), ReadMode(0), Lock(0)], [CheckGrants(0), Store(0), Publish(0)]);
  }

  function AskSteps(key: Key): seq<Step> {
    [Request(key), ReadMode(0), Lock(0)] + [CheckGrants(0), Store(0), Publish(0)]
  }

  /** The request with three answers to it, at the given points. */
  function ThreeAnswered(key: Key, pc: Pc, a: ReplyPc, b: ReplyPc, c: ReplyPc, mail: map<nat, nat>): State {
    State(NO_MODES, [], map[], [Call(key, pc)],
          [Reply(Allow, 0, key, a), Reply(Allow, 0, key, b), Reply(Allow, 0, key, c)],
          Some(0), {0}, mail, [0])
  }

  lemma ThreeStarted(key: Key)
    ensures
      Act(Act(Act(OneAsked(key, Waiting), Answer(Allow, 0, key)), Answer(Allow, 0, key)), Answer(Allow, 0, key))
      == ThreeAnswered(key, Waiting, Loading, Loading, Loading, map[])
  {
  }

  lemma ThreeLoaded(key: Key)
    ensures Act(Act(Act(ThreeAnswered(key, Waiting, Loading, Loading, Loading, map[]), Load(0)), Load(1)), Load(2))
      == ThreeAnswered(key, Waiting, Sending, Sending, Sending, map[])
  {
    assert Act(ThreeAnswered(key, Waiting, Loading, Loading, Loading, map[]), Load(0))
        == ThreeAnswered(key, Waiting, Sending, Loading, Loading, map[]);
    assert Act(ThreeAnswered(key, Waiting, Sending, Loading, Loading, map[]), Load(1))
        == ThreeAnswered(key, Waiting, Sending, Sending, Loading, map[]);
  }

  lemma FirstTakenSecondSent(key: Key)
    ensures Act(Act(Act(ThreeAnswered(key, Waiting, Sending, Sending, Sending, map[]), Send(0)), Receive(0)), Send(1))
      == ThreeAnswered(key, Woken(0), Sent, Sent, Sending, map[0 := 1])
  {
    assert Act(ThreeAnswered(key, Waiting, Sending, Sending, Sending, map[]), Send(0))
        == ThreeAnswered(key, Waiting, Sent, Sending, Sending, map[0 := 0]);
    assert Act(ThreeAnswered(key, Waiting, Sent, Sending, Sending, map[0 := 0]), Receive(0))
        == ThreeAnswered(key, Woken(0), Sent, Sending, Sending, map[]);
  }

  function ThreeSteps(key: Key): seq<Step> {
    AskSteps(key) + [Answer(Allow, 0, key), Answer(Allow, 0, key), Answer(Allow, 0, key)]
    + [Load(0), Load(1), Load(2)] + [Send(0), Receive(0), Send(1)]
  }

  lemma ThreeReached(key: Key)
    ensures Run(Empty(), ThreeSteps(key)) == ThreeAnswered(key, Woken(0), Sent, Sent, Sending, map[0 := 1])
  {
    var answer := Answer(Allow, 0, key);
    var first := AskSteps(key) + [answer, answer, answer];
    hide Run, Act, AskSteps, OneAsked, ThreeAnswered;
    AskedOnce(key);
    ThreeStarted(key);
    RunThree(OneAsked(key, Waiting), answer, answer, answer);
    RunConcat(Empty(), AskSteps(key), [answer, answer, answer]);
    ThreeLoaded(key);
    RunThree(ThreeAnswered(key, Waiting, Loading, Loading, Loading, map[]), Load(0), Load(1), Load(2));
    RunConcat(Empty(), first, [Load(0), Load(1), Load(2)]);
    FirstTakenSecondSent(key);
    RunThree(ThreeAnswered(key, Waiting, Sending, Sending, Sending, map[]), Send(0), Receive(0), Send(1));
    RunConcat(Empty(), first + [Load(0), Load(1), Load(2)], [Send(0), Receive(0), Send(1)]);
  }

  /** Three answers to one request: the first is taken, the second fills the channel,
      and the third never returns, whatever happens next. */
  lemma ThreeAnswersCanStick(key: Key)
    ensures exists steps ::
      var s := Run(Empty(), steps);
      && Answers(steps, 0) == 3 && Clogged(s, 0)
      && 2 < |s.replies| && s.replies[2].pc == Sending && s.replies[2].id == 0 && !CanReturn(s, 2)
  {
    hide Run, Act, ThreeSteps, CanReturn, Answers;
    var steps, s := ThreeSteps(key), ThreeAnswered(key, Woken(0), Sent, Sent, Sending, map[0 := 1]);
    ThreeReached(key);
    SendReturnsIff(steps, 2);
    RepliesAreAnswers(steps, 0);
    assert RepliesTo(s.replies, 0) == {0, 1, 2};
  }

  // --------------------------------------------- the one prompt after a grant

  /** The bound of one more prompt is reached: a persistent grant recorded while a
      request with its key is past the check comes too late for that request. */
  lemma GrantedKeyCanStillPrompt(key: Key)
    ensures exists before, after ::
      var s := Run(Empty(), before);
      key in s.grants && PromptsOf(s, key) == 0 && PromptsOf(Run(s, after), key) == 1
  {
    var before := [Request(key), ReadMode(0), Lock(0)] + [CheckGrants(0)] + [Answer(Persist, 1, key)];
    var s := OneAsked(key, Unmatched).(grants := [key], replies := [Reply(Persist, 1, key, Loading)]);
    assert Act(OneAsked(key, Unmatched), Answer(Persist, 1, key)) == s;
    assert PromptsOf(s, key) == 0 && PastCheck(s, key) && InRange(s);
    hide Run, Act, OneAsked, PromptsOf;
    GetsQueued(key);
    RunThree(Empty(), Request(key), ReadMode(0), Lock(0));
    GetsPublished(key);
    RunNext(Empty(), [Request(key), ReadMode(0), Lock(0)], CheckGrants(0));
    RunNext(Empty(), [Request(key), ReadMode(0), Lock(0)] + [CheckGrants(0)], Answer(Persist, 1, key));
    assert Run(Empty(), before) == s;
    OneMorePromptCanHappen(s, key);
  }

  // ------------------------------------------------ recording the grant too late

  /** GrantPersistant with its two statements swapped: the waiting caller is woken
      first, and the grant is recorded by a later step of its own. */
  datatype LateStep = Plain(step: Step) | Record(u: nat)

  function ActLate(s: State, late: LateStep): State {
    match late
    case Plain(Answer(kind, id, key)) => s.(replies := s.replies + [Reply(kind, id, key, Loading)])
    case Plain(step) => Act(s, step)
    case Record(u) =>
      if u < |s.replies| && s.replies[u].kind == Persist && (s.replies[u].pc == Sent || s.replies[u].pc == Dropped)
      then s.(grants := s.grants + [s.replies[u].key])
      else s
  }

  function RunLate(s: State, steps: seq<LateStep>): State {
    if steps == [] then s else ActLate(RunLate(s, steps[..|steps| - 1]), steps[|steps| - 1])
  }

  lemma RunLateNext(s: State, steps: seq<LateStep>, step: LateStep)
    ensures RunLate(s, steps + [step]) == ActLate(RunLate(s, steps), step)
  {
    assert (steps + [step])[..|steps|] == steps;
  }

  lemma LateThree(s: State, before: seq<LateStep>, a: Step, b: Step, c: Step)
    ensures RunLate(s, before + [Plain(a), Plain(b), Plain(c)])
         == ActLate(ActLate(ActLate(RunLate(s, before), Plain(a)), Plain(b)), Plain(c))
  {
    hide RunLate, ActLate;
    RunLateNext(s, before, Plain(a));
    RunLateNext(s, before + [Plain(a)], Plain(b));
    RunLateNext(s, before + [Plain(a)] + [Plain(b)], Plain(c));
    assert before + [Plain(a), Plain(b), Plain(c)] == before + [Plain(a)] + [Plain(b)] + [Plain(c)];
  }

  /** Two requests with one key, and an answer to the first. */
  function Both(key: Key, first: Pc, second: Pc, holder: Option<nat>, pending: set<nat>, mail: map<nat, nat>,
                answer: seq<ReplyPc>, published: seq<nat>): State
    requires |answer| <= 1
  {
    State(NO_MODES, [], map[], [Call(key, first), Call(key, second)],
          if answer == [] then [] else [Reply(Persist, 0, key, answer[0])], holder, pending, mail, published)
  }

  lemma LateStart(key: Key)
    ensures RunLate(Empty(), [Plain(Request(key))] + [Plain(Request(key))]) == Both(key, Arrived, Arrived, None, {}, map[], [], [])
  {
    assert RunLate(Empty(), []) == Empty();
    RunLateNext(Empty(), [], Plain(Request(key)));
    assert [] + [Plain(Request(key))] == [Plain(Request(key))];
    RunLateNext(Empty(), [Plain(Request(key))], Plain(Request(key)));
  }

  lemma LateLocks(key: Key)
    ensures
      var s := Both(key, Arrived, Arrived, None, {}, map[], [], []);
      ActLate(ActLate(ActLate(s, Plain(ReadMode(0))), Plain(ReadMode(1))), Plain(Lock(0)))
      == Both(key, Admitted, Queued, Some(0), {}, map[], [], [])
  {
    NobodyDecides(key.session);
    hide SessionMode;
  }

  lemma LatePublishes(key: Key)
    ensures
      var s := Both(key, Admitted, Queued, Some(0), {}, map[], [], []);
      ActLate(ActLate(ActLate(s, Plain(CheckGrants(0))), Plain(Store(0))), Plain(Publish(0)))
      == Both(key, Waiting, Queued, Some(0), {0}, map[], [], [0])
  {
    hide SessionMode;
  }

  lemma LateAnswers(key: Key)
    ensures
      var s := Both(key, Waiting, Queued, Some(0), {0}, map[], [], [0]);
      ActLate(ActLate(ActLate(s, Plain(Answer(Persist, 0, key))), Plain(Load(0))), Plain(Send(0)))
      == Both(key, Waiting, Queued, Some(0), {0}, map[0 := 0], [Sent], [0])
  {
    hide SessionMode;
  }

  lemma LateWakes(key: Key)
    ensures ActLate(Both(key, Waiting, Queued, Some(0), {0}, map[0 := 0], [Sent], [0]), Plain(Receive(0)))
      == Both(key, Woken(0), Queued, Some(0), {0}, map[], [Sent], [0])
  {
    hide SessionMode;
  }

  lemma LateSecondLocks(key: Key)
    ensures
      var s := Both(key, Woken(0), Queued, Some(0), {0}, map[], [Sent], [0]);
      ActLate(ActLate(ActLate(s, Plain(Forget(0))), Plain(Unlock(0))), Plain(Lock(1)))
      == Both(key, Finished(true, ByReply(0)), Admitted, Some(1), {}, map[], [Sent], [0])
  {
    hide SessionMode;
  }

  lemma LateSecondPublishes(key: Key)
    ensures
      var done := Finished(true, ByReply(0));
      var s := Both(key, done, Admitted, Some(1), {}, map[], [Sent], [0]);
      ActLate(ActLate(ActLate(s, Plain(CheckGrants(1))), Plain(Store(1))), Plain(Publish(1)))
      == Both(key, done, Waiting, Some(1), {1}, map[], [Sent], [0, 1])
  {
    hide SessionMode;
  }

  /** With the two statements swapped, a request is woken by a persistent grant of
      its key, and a request with that key is prompted for again before the grant is
      recorded: what WokenByPersistEndsPrompts rules out for the actual order. */
  lemma SwappedOrderPromptsAgain(key: Key)
    ensures exists before, after ::
      var s := RunLate(Empty(), before);
      var t := RunLate(s, after);
      && |s.calls| == 2 && s.calls[0] == Call(key, Woken(0)) && s.replies == [Reply(Persist, 0, key, Sent)]
      && s.published == [0] && t.published == [0, 1] && |t.calls| == 2 && t.calls[1].key == key
      && key !in t.grants && key in ActLate(t, Record(0)).grants
  {
    hide RunLate, ActLate;
    var b1 := [Plain(Request(key))] + [Plain(Request(key))];
    LateStart(key);
    LateThree(Empty(), b1, ReadMode(0), ReadMode(1), Lock(0));
    LateLocks(key);
    var b2 := b1 + [Plain(ReadMode(0)), Plain(ReadMode(1)), Plain(Lock(0))];
    LateThree(Empty(), b2, CheckGrants(0), Store(0), Publish(0));
    LatePublishes(key);
    var b3 := b2 + [Plain(CheckGrants(0)), Plain(Store(0)), Plain(Publish(0))];
    LateThree(Empty(), b3, Answer(Persist, 0, key), Load(0), Send(0));
    LateAnswers(key);
    var b4 := b3 + [Plain(Answer(Persist, 0, key)), Plain(Load(0)), Plain(Send(0))];
    RunLateNext(Empty(), b4, Plain(Receive(0)));
    LateWakes(key);
    var before := b4 + [Plain(Receive(0))];
    var s := Both(key, Woken(0), Queued, Some(0), {0}, map[], [Sent], [0]);
    assert RunLate(Empty(), before) == s;
    LateSecond(key, s);
  }

  lemma LateSecond(key: Key, s: State)
    requires s == Both(key, Woken(0), Queued, Some(0), {0}, map[], [Sent], [0])
    ensures exists after ::
      var t := RunLate(s, after);
      && t.published == [0, 1] && |t.calls| == 2 && t.calls[1].key == key
      && key !in t.grants && key in ActLate(t, Record(0)).grants
  {
    LateNothing(s);
    LateRecords(key);
    hide RunLate, ActLate;
    LateThree(s, [], Forget(0), Unlock(0), Lock(1));
    LateSecondLocks(key);
    var first := [] + [Plain(Forget(0)), Plain(Unlock(0)), Plain(Lock(1))];
    LateThree(s, first, CheckGrants(1), Store(1), Publish(1));
    LateSecondPublishes(key);
    var after := first + [Plain(CheckGrants(1)), Plain(Store(1)), Plain(Publish(1))];
    assert RunLate(s, after) == Both(key, Finished(true, ByReply(0)), Waiting, Some(1), {1}, map[], [Sent], [0, 1]);
  }

  lemma LateNothing(s: State)
    ensures RunLate(s, []) == s
  {
  }

  lemma LateRecords(key: Key)
    ensures key in ActLate(Both(key, Finished(true, ByReply(0)), Waiting, Some(1), {1}, map[], [Sent], [0, 1]), Record(0)).grants
  {
  }
}
