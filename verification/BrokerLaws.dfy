/** What every run of the broker guarantees. */
module BrokerLaws {
  import opened Basics
  import opened Broker

  // --------------------------------------------------------- one Shutdown call

  predicate Downs(pc: Pc) {
    pc.DownCheck? || pc.DownClose? || PastClose(pc)
  }

  function Shutdowns(steps: seq<Step>): nat {
    if steps == [] then 0
    else Shutdowns(steps[..|steps| - 1]) + if steps[|steps| - 1].Shutdown? then 1 else 0
  }

  ghost predicate NoDown(ops: seq<Pc>) {
    forall i :: 0 <= i < |ops| ==> !Downs(ops[i])
  }

  ghost predicate OneDown(ops: seq<Pc>) {
    forall i, j :: 0 <= i < j < |ops| ==> !(Downs(ops[i]) && Downs(ops[j]))
  }

  /** Only a call of Shutdown brings a new one under way. */
  lemma NoNewDown(s: State, step: Step, i: nat)
    requires !step.Shutdown? && i < |Act(s, step).ops| && Downs(Act(s, step).ops[i])
    ensures i < |s.ops| && Downs(s.ops[i])
  {
    hide TrySend, AdvanceStep;
    if step.Advance? && !s.crashed {
      AdvanceNoNewDown(s, step.i, i);
    }
  }

  lemma AdvanceNoNewDown(s: State, k: nat, i: nat)
    requires i < |AdvanceStep(s, k).ops| && Downs(AdvanceStep(s, k).ops[i])
    ensures i < |s.ops| && Downs(s.ops[i])
  {
    if k < |s.ops| {
      var t := AdvanceStep(s, k);
      if s.ops[k].SubCount? {
        assert t.ops == s.ops[k := SubUnlock] + [CancelWait(s.ops[k].c)];
      } else {
        hide AdvanceStep, Downs;
        AdvanceMovesOne(s, k);
      }
    }
  }

  lemma SubscribeMovesOne(s: State, k: nat)
    requires k < |s.ops| && !s.ops[k].SubCount?
    ensures |AdvanceSubscribe(s, k).ops| == |s.ops| && AdvanceSubscribe(s, k).ops == s.ops[k := AdvanceSubscribe(s, k).ops[k]]
    ensures Downs(AdvanceSubscribe(s, k).ops[k]) ==> Downs(s.ops[k])
  {
  }

  lemma CancelMovesOne(s: State, k: nat)
    requires k < |s.ops| && !s.ops[k].SubCount?
    ensures |AdvanceCancel(s, k).ops| == |s.ops| && AdvanceCancel(s, k).ops == s.ops[k := AdvanceCancel(s, k).ops[k]]
    ensures Downs(AdvanceCancel(s, k).ops[k]) ==> Downs(s.ops[k])
  {
  }

  lemma PublishMovesOne(s: State, k: nat)
    requires k < |s.ops| && !s.ops[k].SubCount?
    ensures |AdvancePublish(s, k).ops| == |s.ops| && AdvancePublish(s, k).ops == s.ops[k := AdvancePublish(s, k).ops[k]]
    ensures Downs(AdvancePublish(s, k).ops[k]) ==> Downs(s.ops[k])
  {
  }

  lemma ShutdownMovesOne(s: State, k: nat)
    requires k < |s.ops| && !s.ops[k].SubCount?
    ensures |AdvanceShutdown(s, k).ops| == |s.ops| && AdvanceShutdown(s, k).ops == s.ops[k := AdvanceShutdown(s, k).ops[k]]
    ensures Downs(AdvanceShutdown(s, k).ops[k]) ==> Downs(s.ops[k])
  {
  }

  lemma AdvanceMovesOne(s: State, k: nat)
    requires k < |s.ops| && !s.ops[k].SubCount?
    ensures |AdvanceStep(s, k).ops| == |s.ops| && AdvanceStep(s, k).ops == s.ops[k := AdvanceStep(s, k).ops[k]]
    ensures Downs(AdvanceStep(s, k).ops[k]) ==> Downs(s.ops[k])
  {
    hide AdvanceSubscribe, AdvanceCancel, AdvancePublish, AdvanceShutdown;
    SubscribeMovesOne(s, k);
    CancelMovesOne(s, k);
    PublishMovesOne(s, k);
    ShutdownMovesOne(s, k);
  }

  lemma {:induction false} FewDowns(steps: seq<Step>)
    ensures Shutdowns(steps) == 0 ==> NoDown(Run(Empty(), steps).ops)
    ensures Shutdowns(steps) <= 1 ==> OneDown(Run(Empty(), steps).ops)
  {
    if steps != [] {
      var init, last := steps[..|steps| - 1], steps[|steps| - 1];
      FewDowns(init);
      var s := Run(Empty(), init);
      var t := Act(s, last);
      if last.Shutdown? {
        assert t.ops == s.ops || t.ops == s.ops + [DownCheck];
      } else {
        hide Act, Downs;
        forall i: nat | i < |t.ops| && Downs(t.ops[i]) ensures i < |s.ops| && Downs(s.ops[i]) {
          NoNewDown(s, last, i);
        }
      }
    }
  }

  /** With one caller of Shutdown no interleaving ever sends on, or closes, a closed
      channel. */
  lemma {:induction false} OneShutdownNeverCrashes(steps: seq<Step>)
    requires Shutdowns(steps) <= 1
    ensures !Run(Empty(), steps).crashed && Inv(Run(Empty(), steps))
  {
    if steps == [] {
      EmptyIsFine();
    } else {
      var init, last := steps[..|steps| - 1], steps[|steps| - 1];
      OneShutdownNeverCrashes(init);
      FewDowns(init);
      var s := Run(Empty(), init);
      assert DoneOk(s);
      assert !Clash(s, last);
      hide Act, Inv, Clash;
      CrashIffClash(s, last);
      StepKeepsInv(s, last);
    }
  }

  lemma RunOn(steps: seq<Step>, last: Step)
    ensures Run(Empty(), steps + [last]) == Act(Run(Empty(), steps), last)
    ensures Shutdowns(steps + [last]) == Shutdowns(steps) + if last.Shutdown? then 1 else 0
  {
    assert (steps + [last])[..|steps|] == steps;
  }

  /** Two callers of Shutdown can both pass the check before either closes done. */
  lemma TwoShutdownsCanCrash()
    ensures exists steps :: Shutdowns(steps) == 2 && Run(Empty(), steps).crashed
  {
    var a, b := [Shutdown, Shutdown], [Shutdown, Shutdown] + [Advance(0)] + [Advance(1)];
    var steps := b + [Advance(0)] + [Advance(1)];
    hide Run, Shutdowns, Act;
    assert Run(Empty(), a) == Empty().(ops := [DownCheck, DownCheck]) && Shutdowns(a) == 2 by {
      TwoStarted();
    }
    RunOn(a, Advance(0));
    RunOn(a + [Advance(0)], Advance(1));
    BothPass();
    RunOn(b, Advance(0));
    RunOn(b + [Advance(0)], Advance(1));
    SecondCrashes();
    assert Run(Empty(), steps).crashed && Shutdowns(steps) == 2;
  }

  lemma BothPass()
    ensures
      var s := Empty().(ops := [DownCheck, DownCheck]);
      Act(Act(s, Advance(0)), Advance(1)) == s.(ops := [DownClose, DownClose])
  {
  }

  lemma SecondCrashes()
    ensures
      var s := Empty().(ops := [DownClose, DownClose]);
      Act(Act(s, Advance(0)), Advance(1)).crashed
  {
  }

  lemma TwoStarted()
    ensures Run(Empty(), [Shutdown, Shutdown]) == Empty().(ops := [DownCheck, DownCheck])
    ensures Shutdowns([Shutdown, Shutdown]) == 2
  {
    RunOn([], Shutdown);
    RunOn([Shutdown], Shutdown);
    assert [Shutdown] + [Shutdown] == [Shutdown, Shutdown] && [] + [Shutdown] == [Shutdown];
  }

  // ------------------------------------------------------------ what runs keep

  /** When Shutdown has finished, every subscriber's channel is closed. */
  lemma ShutdownClosesAll(s: State)
    requires Inv(s) && Ended(s)
    ensures s.subs == {} && forall c :: 0 <= c < |s.chans| ==> s.chans[c].closed
  {
    assert OpOk(s, s.done.value, s.ops[s.done.value]);
    forall c | 0 <= c < |s.chans| ensures s.chans[c].closed {
      NoneAboutToClose(s, c);
    }
  }

  lemma NoneAboutToClose(s: State, c: nat)
    requires OpsOk(s) && Ended(s)
    ensures !AboutToClose(s, c)
  {
    if s.writer.Some? && s.writer.value < |s.ops| {
      assert OpOk(s, s.writer.value, s.ops[s.writer.value]);
    }
  }

  /** Whoever reads the counter under the lock reads the number of subscribers. */
  lemma CounterIsExact(s: State)
    requires Inv(s) && s.writer.None?
    ensures s.subCount == |s.subs|
  {
  }

  /** A finished Publish was offered to each subscriber of its snapshot once; one
      whose buffer was never full at a send has it, received or waiting, in order. */
  lemma NothingMissed(s: State, e: nat, c: nat)
    requires Inv(s) && e < |s.ops| && s.ops[e].Published? && c in s.ops[e].all
    ensures
      && c < |s.chans| && e in s.chans[c].offered && Distinct(s.chans[c].offered)
      && (!s.chans[c].overflowed ==> s.chans[c].received + s.chans[c].buf == s.chans[c].offered)
      && (!s.chans[c].overflowed ==> e in s.chans[c].received + s.chans[c].buf)
  {
    assert Gave(s.ops, c, e);
    assert Got(s.chans, c, e);
    assert HistoryOk(s.chans[c]);
  }

  /** A Publish that finds done open reaches exactly the subscribers of that moment,
      and none of them leaves before it has been reached. */
  lemma SnapshotIsEverySubscriber(s: State, i: nat)
    requires Inv(s) && i < |s.ops| && s.ops[i].PubSend?
    ensures s.ops[i].all == s.subs && forall c :: c in s.ops[i].left ==> Open(s.chans, c)
  {
    assert OpOk(s, i, s.ops[i]);
  }

  lemma OverflowOnlyWhenFull(s: State, step: Step, c: nat)
    requires c < |s.chans| && !s.chans[c].overflowed && |s.chans[c].buf| < BUFFER
    ensures c < |Act(s, step).chans| && !Act(s, step).chans[c].overflowed
  {
    match step {
      case Advance(i) =>
        hide TrySend;
      case SendTo(i, d) =>
        hide AdvanceStep;
      case _ =>
        hide AdvanceStep, TrySend;
    }
  }

  lemma NewChannelsAreFresh(s: State, step: Step, c: nat)
    requires |s.chans| <= c < |Act(s, step).chans|
    ensures !Act(s, step).chans[c].overflowed
  {
    hide TrySend;
  }

  /** The channel's backlog is below the buffer size in every state of the run. */
  ghost predicate KeepsUp(steps: seq<Step>, c: nat) {
    forall k :: 0 <= k <= |steps| ==>
      c < |Run(Empty(), steps[..k]).chans| ==> |Run(Empty(), steps[..k]).chans[c].buf| < BUFFER
  }

  lemma {:induction false} KeepingUpNeverOverflows(steps: seq<Step>, c: nat)
    requires KeepsUp(steps, c) && c < |Run(Empty(), steps).chans|
    ensures !Run(Empty(), steps).chans[c].overflowed
  {
    hide Act;
    if steps != [] {
      var init, last := steps[..|steps| - 1], steps[|steps| - 1];
      var s := Run(Empty(), init);
      if c < |s.chans| {
        assert KeepsUp(init, c) by {
          forall k | 0 <= k <= |init| ensures c < |Run(Empty(), init[..k]).chans| ==> |Run(Empty(), init[..k]).chans[c].buf| < BUFFER {
            assert init[..k] == steps[..k];
          }
        }
        KeepingUpNeverOverflows(init, c);
        assert steps[..|init|] == init;
        OverflowOnlyWhenFull(s, last, c);
      } else {
        NewChannelsAreFresh(s, last, c);
      }
    }
  }

  /** What a subscriber has received, and then what waits for it. */
  function Stream(ch: Chan): seq<nat> {
    ch.received + ch.buf
  }

  /** A step adds an event to a subscriber's stream exactly when a Publish under way
      reaches it and fewer than 64 events wait; it takes nothing out and changes no
      order. */
  lemma StreamStep(s: State, step: Step, c: nat)
    requires c < |s.chans| && !s.chans[c].closed && !s.crashed
    ensures
      var t := Act(s, step);
      c < |t.chans| && Stream(t.chans[c]) ==
        if && step.SendTo? && step.c == c && step.i < |s.ops| && s.ops[step.i].PubSend? && c in s.ops[step.i].left
           && |s.chans[c].buf| < 64
        then Stream(s.chans[c]) + [step.i] else Stream(s.chans[c])
  {
    match step
    case SendTo(i, d) =>
    case Receive(d) =>
      assert s.chans[c].buf != [] ==> [s.chans[c].buf[0]] + s.chans[c].buf[1..] == s.chans[c].buf;
    case _ =>
      StreamStays(s, step, c);
  }

  lemma StreamStays(s: State, step: Step, c: nat)
    requires c < |s.chans| && !step.SendTo? && !step.Receive?
    ensures c < |Act(s, step).chans| && Stream(Act(s, step).chans[c]) == Stream(s.chans[c])
  {
  }

  lemma StreamKeeps(s: State, step: Step, c: nat)
    requires c < |s.chans|
    ensures c < |Act(s, step).chans| && Stream(s.chans[c]) <= Stream(Act(s, step).chans[c])
  {
    match step
    case SendTo(i, d) =>
    case Receive(d) =>
      assert s.chans[c].buf != [] ==> [s.chans[c].buf[0]] + s.chans[c].buf[1..] == s.chans[c].buf;
    case _ =>
      StreamStays(s, step, c);
  }

  /** In every run, what a subscriber has received or is about to receive stays the
      beginning of its stream. */
  lemma {:induction false} NothingWithdrawn(s: State, steps: seq<Step>, c: nat)
    requires c < |s.chans|
    ensures c < |Run(s, steps).chans| && Stream(s.chans[c]) <= Stream(Run(s, steps).chans[c])
  {
    hide Act, Stream;
    if steps != [] {
      NothingWithdrawn(s, steps[..|steps| - 1], c);
      StreamKeeps(Run(s, steps[..|steps| - 1]), steps[|steps| - 1], c);
    }
  }

  /** A subscriber whose backlog stays under the buffer size misses no event: each
      finished Publish that had it in its snapshot is received or waiting. */
  lemma KeepingUpMissesNothing(steps: seq<Step>, e: nat, c: nat)
    requires Shutdowns(steps) <= 1 && KeepsUp(steps, c)
    requires
      var s := Run(Empty(), steps);
      e < |s.ops| && s.ops[e].Published? && c in s.ops[e].all
    ensures
      var s := Run(Empty(), steps);
      c < |s.chans| && e in s.chans[c].received + s.chans[c].buf && Distinct(s.chans[c].received + s.chans[c].buf)
  {
    hide Run, Inv, Distinct;
    OneShutdownNeverCrashes(steps);
    NothingMissed(Run(Empty(), steps), e, c);
    KeepingUpNeverOverflows(steps, c);
  }
}
