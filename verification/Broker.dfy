/** The event broker as a state machine. Each call of Subscribe, Publish and Shutdown,
    and each goroutine that waits for a subscriber's context, is a numbered operation
    that advances one lock, channel or field access at a time; a run is any
    interleaving of them with subscribers that receive. */
module Broker {
  import opened Basics

  const BUFFER: nat := 64

  /** A subscriber's channel, the goroutine that watches its context, and its
      history. Events are named by the Publish call that sends them. */
  datatype Chan = Chan(
    buf: seq<nat>,
    closed: bool,
    watcher: Option<nat>,
    received: seq<nat>,
    offered: seq<nat>,
    overflowed: bool)

  datatype Pc =
    | SubEnter | SubCheck | SubAdd | SubCount(c: nat) | SubUnlock
    | CancelWait(c: nat) | CancelCheck(c: nat) | CancelDelete(c: nat) | CancelClose(c: nat)
    | CancelCount | CancelUnlock
    | PubEnter | PubCheck | PubSend(left: set<nat>, all: set<nat>) | PubUnlock(all: set<nat>)
    | DownCheck | DownClose | DownEnter | DownLoop | DownCloseSub(c: nat) | DownCount | DownUnlock | DownFinished
    | Returned | Published(all: set<nat>)

  datatype State = State(
    subs: set<nat>,
    chans: seq<Chan>,
    done: Option<nat>,    // the Shutdown that closed the done channel
    subCount: int,
    ops: seq<Pc>,
    writer: Option<nat>,  // the operation holding the lock for writing
    readers: set<nat>,    // the operations holding it for reading
    crashed: bool)        // a send on, or a close of, a closed channel

  datatype Step =
    | Subscribe
    | Publish
    | Shutdown
    | Advance(i: nat)
    | SendTo(i: nat, c: nat) // Publish reaches this subscriber in its loop
    | PickSub(i: nat, c: nat) // Shutdown reaches this subscriber in its loop
    | Receive(c: nat)

  function Empty(): State {
    State({}, [], None, 0, [], None, {}, false)
  }

  function Go(s: State, i: nat, pc: Pc): State
    requires i < |s.ops|
  {
    s.(ops := s.ops[i := pc])
  }

  function Locked(s: State, i: nat, pc: Pc): State
    requires i < |s.ops|
  {
    if s.writer.None? && s.readers == {} then Go(s, i, pc).(writer := Some(i)) else s
  }

  function Unlocked(s: State, i: nat, pc: Pc): State
    requires i < |s.ops|
  {
    Go(s, i, pc).(writer := None)
  }

  function RLocked(s: State, i: nat, pc: Pc): State
    requires i < |s.ops|
  {
    if s.writer.None? then Go(s, i, pc).(readers := s.readers + {i}) else s
  }

  /** Closing a channel that is closed, or missing, crashes. */
  function CloseChan(s: State, c: nat): State {
    if c < |s.chans| && !s.chans[c].closed then s.(chans := s.chans[c := s.chans[c].(closed := true)])
    else s.(crashed := true)
  }

  /** A send that is dropped when the buffer is full, and crashes on a closed channel. */
  function TrySend(ch: Chan, event: nat): Chan {
    if |ch.buf| < BUFFER then ch.(buf := ch.buf + [event], offered := ch.offered + [event])
    else ch.(offered := ch.offered + [event], overflowed := true)
  }

  function SendStep(s: State, i: nat, c: nat): State {
    if !(i < |s.ops| && s.ops[i].PubSend? && c in s.ops[i].left) then s
    else if !(c < |s.chans| && !s.chans[c].closed) then s.(crashed := true)
    else Go(s, i, PubSend(s.ops[i].left - {c}, s.ops[i].all)).(chans := s.chans[c := TrySend(s.chans[c], i)])
  }

  function PickStep(s: State, i: nat, c: nat): State {
    if i < |s.ops| && s.ops[i].DownLoop? && c in s.subs then Go(s, i, DownCloseSub(c)).(subs := s.subs - {c}) else s
  }

  function ReceiveStep(s: State, c: nat): State {
    if c < |s.chans| && s.chans[c].buf != [] then
      var ch := s.chans[c];
      s.(chans := s.chans[c := ch.(buf := ch.buf[1..], received := ch.received + [ch.buf[0]])])
    else s
  }

  function Fresh(closed: bool): Chan {
    Chan([], closed, None, [], [], false)
  }

  function Watch(s: State, c: nat, i: nat): State {
    if c < |s.chans| then s.(chans := s.chans[c := s.chans[c].(watcher := Some(i))]) else s
  }

  function AdvanceSubscribe(s: State, i: nat): State
    requires i < |s.ops|
  {
    match s.ops[i]
    case SubEnter => Locked(s, i, SubCheck)
    case SubCheck =>
      if s.done.Some? then Go(s, i, SubUnlock).(chans := s.chans + [Fresh(true)]) else Go(s, i, SubAdd)
    case SubAdd =>
      Go(s, i, SubCount(|s.chans|)).(chans := s.chans + [Fresh(false)], subs := s.subs + {|s.chans|})
    case SubCount(c) => Watch(s.(ops := s.ops[i := SubUnlock] + [CancelWait(c)], subCount := s.subCount + 1), c, |s.ops|)
    case SubUnlock => Unlocked(s, i, Returned)
    case _ => s
  }

  function AdvanceCancel(s: State, i: nat): State
    requires i < |s.ops|
  {
    match s.ops[i]
    case CancelWait(c) => Locked(s, i, CancelCheck(c))
    case CancelCheck(c) => if s.done.Some? then Go(s, i, CancelUnlock) else Go(s, i, CancelDelete(c))
    case CancelDelete(c) => Go(s, i, CancelClose(c)).(subs := s.subs - {c})
    case CancelClose(c) => Go(CloseChan(s, c), i, CancelCount)
    case CancelCount => Go(s, i, CancelUnlock).(subCount := s.subCount - 1)
    case CancelUnlock => Unlocked(s, i, Returned)
    case _ => s
  }

  function AdvancePublish(s: State, i: nat): State
    requires i < |s.ops|
  {
    match s.ops[i]
    case PubEnter => RLocked(s, i, PubCheck)
    case PubCheck => if s.done.Some? then Go(s, i, PubUnlock({})) else Go(s, i, PubSend(s.subs, s.subs))
    case PubSend(left, all) => if left == {} then Go(s, i, PubUnlock(all)) else s
    case PubUnlock(all) => Go(s, i, Published(all)).(readers := s.readers - {i})
    case _ => s
  }

  function AdvanceShutdown(s: State, i: nat): State
    requires i < |s.ops|
  {
    match s.ops[i]
    case DownCheck => Go(s, i, if s.done.Some? then Returned else DownClose)
    case DownClose => if s.done.Some? then s.(crashed := true) else Go(s, i, DownEnter).(done := Some(i))
    case DownEnter => Locked(s, i, DownLoop)
    case DownLoop => if s.subs == {} then Go(s, i, DownCount) else s
    case DownCloseSub(c) => Go(CloseChan(s, c), i, DownLoop)
    case DownCount => Go(s, i, DownUnlock).(subCount := 0)
    case DownUnlock => Unlocked(s, i, DownFinished)
    case _ => s
  }

  predicate Subscribing(pc: Pc) {
    pc.SubEnter? || pc.SubCheck? || pc.SubAdd? || pc.SubCount? || pc.SubUnlock?
  }

  predicate Cancelling(pc: Pc) {
    Cancels(pc) || pc.CancelCount? || pc.CancelUnlock?
  }

  predicate Publishing(pc: Pc) {
    pc.PubEnter? || pc.PubCheck? || pc.PubSend? || pc.PubUnlock?
  }

  function AdvanceStep(s: State, i: nat): State {
    if i >= |s.ops| then s
    else if Subscribing(s.ops[i]) then AdvanceSubscribe(s, i)
    else if Cancelling(s.ops[i]) then AdvanceCancel(s, i)
    else if Publishing(s.ops[i]) then AdvancePublish(s, i)
    else AdvanceShutdown(s, i)
  }

  /** A crash ends the program. */
  function Act(s: State, step: Step): State {
    if s.crashed then s
    else
      match step
      case Subscribe => s.(ops := s.ops + [SubEnter])
      case Publish => s.(ops := s.ops + [PubEnter])
      case Shutdown => s.(ops := s.ops + [DownCheck])
      case Advance(i) => AdvanceStep(s, i)
      case SendTo(i, c) => SendStep(s, i, c)
      case PickSub(i, c) => PickStep(s, i, c)
      case Receive(c) => ReceiveStep(s, c)
  }

  function Run(s: State, steps: seq<Step>): State {
    if steps == [] then s else Act(Run(s, steps[..|steps| - 1]), steps[|steps| - 1])
  }

  // -------------------------------------------------------------- invariants

  /** A cancel goroutine that still knows its channel. */
  predicate Cancels(pc: Pc) {
    pc.CancelWait? || pc.CancelCheck? || pc.CancelDelete? || pc.CancelClose?
  }

  predicate Writes(pc: Pc) {
    || pc.SubCheck? || pc.SubAdd? || pc.SubCount? || pc.SubUnlock?
    || pc.CancelCheck? || pc.CancelDelete? || pc.CancelClose? || pc.CancelCount? || pc.CancelUnlock?
    || pc.DownLoop? || pc.DownCloseSub? || pc.DownCount? || pc.DownUnlock?
  }

  predicate Reads(pc: Pc) {
    pc.PubCheck? || pc.PubSend? || pc.PubUnlock?
  }

  /** The lock is free, held by one writer, or held by readers, and each operation
      knows whether it holds it. */
  ghost predicate LockOk(ops: seq<Pc>, writer: Option<nat>, readers: set<nat>) {
    && (writer.Some? ==> writer.value < |ops| && readers == {})
    && (forall i :: i in readers ==> i < |ops|)
    && (forall i :: 0 <= i < |ops| ==> (Writes(ops[i]) <==> writer == Some(i)) && (Reads(ops[i]) <==> i in readers))
  }

  ghost predicate LockInv(s: State) {
    LockOk(s.ops, s.writer, s.readers)
  }

  predicate Idle(pc: Pc) {
    !Writes(pc) && !Reads(pc)
  }

  /** How an operation may move with respect to the lock. */
  predicate LockMove(a: State, b: State, i: nat)
    requires i < |a.ops| && i < |b.ops|
  {
    var p, q := a.ops[i], b.ops[i];
    || (Writes(p) == Writes(q) && Reads(p) == Reads(q) && a.writer == b.writer && a.readers == b.readers)
    || (Idle(p) && Writes(q) && !Reads(q) && a.writer.None? && a.readers == {} == b.readers && b.writer == Some(i))
    || (Writes(p) && Idle(q) && b.writer.None? && a.readers == b.readers)
    || (Idle(p) && Reads(q) && !Writes(q) && a.writer.None? && b.writer.None? && b.readers == a.readers + {i})
    || (Reads(p) && Idle(q) && a.writer == b.writer && b.readers == a.readers - {i})
  }

  lemma MoveKeepsLock(a: State, b: State, i: nat)
    requires LockInv(a) && i < |a.ops| && i < |b.ops| && b.ops == a.ops[i := b.ops[i]] && LockMove(a, b, i)
    ensures LockInv(b)
  {
    hide Writes, Reads;
  }

  lemma StartKeepsLock(ops: seq<Pc>, writer: Option<nat>, readers: set<nat>, pc: Pc)
    requires LockOk(ops, writer, readers) && Idle(pc)
    ensures LockOk(ops + [pc], writer, readers)
  {
    hide Writes, Reads;
  }

  lemma SubscribeKeepsLock(s: State, i: nat)
    requires LockInv(s) && i < |s.ops|
    ensures LockInv(AdvanceSubscribe(s, i))
  {
    hide LockOk;
    if s.ops[i].SubCount? {
      var t := Go(s, i, SubUnlock);
      MoveKeepsLock(s, t, i);
      StartKeepsLock(t.ops, t.writer, t.readers, CancelWait(s.ops[i].c));
    } else {
      MoveKeepsLock(s, AdvanceSubscribe(s, i), i);
    }
  }

  lemma CancelKeepsLock(s: State, i: nat)
    requires LockInv(s) && i < |s.ops|
    ensures LockInv(AdvanceCancel(s, i))
  {
    hide LockOk;
    MoveKeepsLock(s, AdvanceCancel(s, i), i);
  }

  lemma PublishKeepsLock(s: State, i: nat)
    requires LockInv(s) && i < |s.ops|
    ensures LockInv(AdvancePublish(s, i))
  {
    hide LockOk;
    MoveKeepsLock(s, AdvancePublish(s, i), i);
  }

  lemma ShutdownKeepsLock(s: State, i: nat)
    requires LockInv(s) && i < |s.ops|
    ensures LockInv(AdvanceShutdown(s, i))
  {
    hide LockOk;
    MoveKeepsLock(s, AdvanceShutdown(s, i), i);
  }

  lemma SendKeepsLock(s: State, i: nat, c: nat)
    requires LockInv(s)
    ensures LockInv(SendStep(s, i, c)) && LockInv(PickStep(s, i, c)) && LockInv(ReceiveStep(s, c))
  {
    hide LockOk, TrySend;
    if i < |s.ops| {
      MoveKeepsLock(s, SendStep(s, i, c), i);
      MoveKeepsLock(s, PickStep(s, i, c), i);
    }
  }

  lemma LockKept(s: State, step: Step)
    requires LockInv(s)
    ensures LockInv(Act(s, step))
  {
    hide LockOk, AdvanceSubscribe, AdvanceCancel, AdvancePublish, AdvanceShutdown, SendStep, PickStep, ReceiveStep;
    match step
    case Subscribe => StartKeepsLock(s.ops, s.writer, s.readers, SubEnter);
    case Publish => StartKeepsLock(s.ops, s.writer, s.readers, PubEnter);
    case Shutdown => StartKeepsLock(s.ops, s.writer, s.readers, DownCheck);
    case Advance(i) =>
      if i < |s.ops| {
        SubscribeKeepsLock(s, i);
        CancelKeepsLock(s, i);
        PublishKeepsLock(s, i);
        ShutdownKeepsLock(s, i);
      }
    case SendTo(i, c) => SendKeepsLock(s, i, c);
    case PickSub(i, c) => SendKeepsLock(s, i, c);
    case Receive(c) => SendKeepsLock(s, 0, c);
  }

  // ------------------------------------------------ channels and subscribers

  predicate Open(chans: seq<Chan>, c: nat) {
    c < |chans| && !chans[c].closed
  }

  predicate PastClose(pc: Pc) {
    pc.DownEnter? || pc.DownLoop? || pc.DownCloseSub? || pc.DownCount? || pc.DownUnlock? || pc.DownFinished?
  }

  /** The Shutdown that closed done has finished. */
  predicate Ended(s: State) {
    s.done.Some? && s.done.value < |s.ops| && s.ops[s.done.value].DownFinished?
  }

  /** What an operation may rely on. */
  predicate OpOk(s: State, i: nat, pc: Pc) {
    && (PastClose(pc) ==> s.done == Some(i))
    && (Ended(s) ==> !pc.SubAdd? && !pc.CancelClose? && s.subs == {})
    && match pc
       case SubCount(c) => c in s.subs && c < |s.chans| && s.chans[c].watcher.None?
       case CancelWait(c) => Watched(s, i, c) && (s.done.Some? || c in s.subs)
       case CancelCheck(c) => Watched(s, i, c) && (s.done.Some? || c in s.subs)
       case CancelDelete(c) => Watched(s, i, c) && c in s.subs
       case CancelClose(c) => Watched(s, i, c) && !s.chans[c].closed && c !in s.subs
       case DownCloseSub(c) => Open(s.chans, c) && c !in s.subs
       case DownCount => s.subs == {}
       case DownUnlock => s.subs == {}
       case PubSend(left, all) => left <= all == s.subs
       case _ => true
  }

  predicate Watched(s: State, i: nat, c: nat) {
    c < |s.chans| && s.chans[c].watcher == Some(i)
  }

  ghost predicate OpsOk(s: State) {
    forall i :: 0 <= i < |s.ops| ==> OpOk(s, i, s.ops[i])
  }

  predicate AboutToClose(s: State, c: nat) {
    && s.writer.Some? && s.writer.value < |s.ops|
    && (s.ops[s.writer.value] == CancelClose(c) || s.ops[s.writer.value] == DownCloseSub(c))
  }

  /** Subscribers' channels are open; every other channel is closed or about to be. */
  ghost predicate SubsOpen(s: State) {
    && (forall c :: c in s.subs ==> Open(s.chans, c))
    && (forall c :: 0 <= c < |s.chans| && c !in s.subs && !s.chans[c].closed ==> AboutToClose(s, c))
  }

  ghost predicate DoneOk(s: State) {
    s.done.Some? ==> s.done.value < |s.ops| && PastClose(s.ops[s.done.value])
  }

  ghost predicate ChanInv(s: State) {
    !s.crashed && OpsOk(s) && SubsOpen(s) && DoneOk(s)
  }

  lemma WriterAlone(s: State, i: nat)
    requires LockInv(s) && i < |s.ops| && Writes(s.ops[i])
    ensures s.writer == Some(i)
    ensures forall j :: 0 <= j < |s.ops| && j != i ==> Idle(s.ops[j])
  {
  }

  lemma SubscribeKeepsChans(s: State, i: nat)
    requires LockInv(s) && ChanInv(s) && i < |s.ops|
    ensures ChanInv(AdvanceSubscribe(s, i))
  {
    if Writes(s.ops[i]) {
      WriterAlone(s, i);
    }
    hide LockInv, LockOk;
  }

  lemma CancelKeepsChans(s: State, i: nat)
    requires LockInv(s) && ChanInv(s) && i < |s.ops|
    ensures ChanInv(AdvanceCancel(s, i))
  {
    if Writes(s.ops[i]) {
      WriterAlone(s, i);
    }
    hide LockInv, LockOk;
  }

  lemma PublishKeepsChans(s: State, i: nat)
    requires LockInv(s) && ChanInv(s) && i < |s.ops|
    ensures ChanInv(AdvancePublish(s, i))
  {
    hide LockInv, LockOk;
  }

  lemma ShutdownKeepsChans(s: State, i: nat)
    requires LockInv(s) && ChanInv(s) && i < |s.ops|
    ensures ChanInv(AdvanceShutdown(s, i)) || (s.ops[i].DownClose? && s.done.Some?)
  {
    if Writes(s.ops[i]) {
      WriterAlone(s, i);
    }
    hide LockInv, LockOk;
  }

  lemma SendKeepsChans(s: State, i: nat, c: nat)
    requires ChanInv(s)
    ensures ChanInv(SendStep(s, i, c))
  {
  }

  lemma ReceiveKeepsChans(s: State, c: nat)
    requires ChanInv(s)
    ensures ChanInv(ReceiveStep(s, c))
  {
  }

  lemma PickKeepsChans(s: State, i: nat, c: nat)
    requires LockInv(s) && ChanInv(s)
    ensures ChanInv(PickStep(s, i, c))
  {
    if i < |s.ops| && Writes(s.ops[i]) {
      WriterAlone(s, i);
    }
    hide LockInv, LockOk;
  }

  lemma StartKeepsChans(s: State, pc: Pc)
    requires ChanInv(s) && (pc.SubEnter? || pc.PubEnter? || pc.DownCheck?)
    ensures ChanInv(s.(ops := s.ops + [pc]))
  {
  }

  /** The counter is the number of subscribers whenever the lock is not held for
      writing, and off by at most the change under way otherwise. */
  ghost predicate CountOk(s: State) {
    if s.writer.None? || s.writer.value >= |s.ops| then s.subCount == |s.subs|
    else
      match s.ops[s.writer.value]
      case SubCount(_) => s.subCount + 1 == |s.subs|
      case CancelClose(_) => s.subCount == |s.subs| + 1
      case CancelCount => s.subCount == |s.subs| + 1
      case DownLoop => true
      case DownCloseSub(_) => true
      case DownCount => true
      case _ => s.subCount == |s.subs|
  }

  lemma SubscribeKeepsCount(s: State, i: nat)
    requires LockInv(s) && OpsOk(s) && SubsOpen(s) && CountOk(s) && i < |s.ops|
    ensures CountOk(AdvanceSubscribe(s, i))
  {
    assert |s.chans| !in s.subs;
    hide SubsOpen;
    assert OpOk(s, i, s.ops[i]);
    assert Writes(s.ops[i]) <==> s.writer == Some(i);
    hide OpsOk, LockInv;
  }

  lemma CancelKeepsCount(s: State, i: nat)
    requires LockInv(s) && OpsOk(s) && CountOk(s) && i < |s.ops|
    ensures CountOk(AdvanceCancel(s, i))
  {
    assert OpOk(s, i, s.ops[i]);
    assert Writes(s.ops[i]) <==> s.writer == Some(i);
    hide OpsOk, LockInv, LockOk, Watched;
    if s.ops[i].CancelDelete? {
      DeleteKeepsCount(s, i, s.ops[i].c);
    } else {
      hide OpOk;
    }
  }

  lemma DeleteKeepsCount(s: State, i: nat, c: nat)
    requires i < |s.ops| && s.ops[i] == CancelDelete(c) && s.writer == Some(i) && c in s.subs && CountOk(s)
    ensures CountOk(AdvanceCancel(s, i))
  {
    assert |s.subs| == |s.subs - {c}| + 1;
  }

  lemma PublishKeepsCount(s: State, i: nat)
    requires LockInv(s) && OpsOk(s) && CountOk(s) && i < |s.ops|
    ensures CountOk(AdvancePublish(s, i))
  {
    assert OpOk(s, i, s.ops[i]);
    assert Writes(s.ops[i]) <==> s.writer == Some(i);
    hide OpsOk, LockInv;
  }

  lemma ShutdownKeepsCount(s: State, i: nat)
    requires LockInv(s) && OpsOk(s) && CountOk(s) && i < |s.ops|
    ensures CountOk(AdvanceShutdown(s, i))
  {
    assert OpOk(s, i, s.ops[i]);
    assert Writes(s.ops[i]) <==> s.writer == Some(i);
    hide OpsOk, LockInv;
  }

  lemma CountKeptLoops(s: State, i: nat, c: nat)
    requires LockInv(s) && CountOk(s)
    ensures CountOk(SendStep(s, i, c)) && CountOk(PickStep(s, i, c)) && CountOk(ReceiveStep(s, c))
  {
    if i < |s.ops| && Writes(s.ops[i]) {
      WriterAlone(s, i);
    } else if i < |s.ops| {
      assert s.writer != Some(i);
    }
    hide LockOk, TrySend;
  }

  // ------------------------------------------------------------------ events

  predicate Offered(pc: Pc, c: nat) {
    match pc
    case PubSend(left, all) => c in all && c !in left
    case PubUnlock(all) => c in all
    case Published(all) => c in all
    case _ => false
  }

  /** A channel's backlog is bounded, and until it overflows it holds, behind what was
      received, exactly what was offered, in order. */
  ghost predicate HistoryOk(ch: Chan) {
    && |ch.buf| <= BUFFER && Distinct(ch.offered)
    && (!ch.overflowed ==> ch.received + ch.buf == ch.offered)
  }

  ghost predicate HistoriesOk(chans: seq<Chan>) {
    forall c :: 0 <= c < |chans| ==> HistoryOk(chans[c])
  }

  predicate Got(chans: seq<Chan>, c: nat, e: nat) {
    c < |chans| && e in chans[c].offered
  }

  predicate Gave(ops: seq<Pc>, c: nat, e: nat) {
    e < |ops| && Offered(ops[e], c)
  }

  /** A channel was offered exactly the events whose publishers have passed it. */
  ghost predicate EventsOk(s: State) {
    HistoriesOk(s.chans) && forall c: nat, e: nat :: Got(s.chans, c, e) <==> Gave(s.ops, c, e)
  }

  lemma OfferKeepsHistory(ch: Chan, e: nat)
    requires HistoryOk(ch) && e !in ch.offered
    ensures HistoryOk(TrySend(ch, e))
  {
  }

  lemma ReceiveKeepsHistory(ch: Chan)
    requires HistoryOk(ch) && ch.buf != []
    ensures HistoryOk(ch.(buf := ch.buf[1..], received := ch.received + [ch.buf[0]]))
  {
    assert ch.received + ch.buf == ch.received + [ch.buf[0]] + ch.buf[1..];
  }

  lemma SendKeepsEvents(s: State, i: nat, c: nat)
    requires EventsOk(s) && OpsOk(s)
    ensures EventsOk(SendStep(s, i, c))
  {
    var t := SendStep(s, i, c);
    if i < |s.ops| && s.ops[i].PubSend? && c in s.ops[i].left && Open(s.chans, c) {
      assert OpOk(s, i, s.ops[i]);
      assert !Gave(s.ops, c, i);
      assert !Got(s.chans, c, i);
      OfferKeepsHistory(s.chans[c], i);
      hide HistoryOk, OpsOk;
      assert HistoriesOk(t.chans);
      forall d: nat, e: nat ensures Got(t.chans, d, e) <==> Gave(t.ops, d, e) {
        assert Got(s.chans, d, e) <==> Gave(s.ops, d, e);
        assert Got(t.chans, d, e) <==> Got(s.chans, d, e) || (d == c && e == i);
        assert Gave(t.ops, d, e) <==> Gave(s.ops, d, e) || (d == c && e == i);
      }
    }
  }

  lemma ReceiveKeepsEvents(s: State, c: nat)
    requires EventsOk(s)
    ensures EventsOk(ReceiveStep(s, c))
  {
    if c < |s.chans| && s.chans[c].buf != [] {
      ReceiveKeepsHistory(s.chans[c]);
      hide HistoryOk;
      var t := ReceiveStep(s, c);
      forall d: nat, e: nat ensures Got(t.chans, d, e) <==> Gave(t.ops, d, e) {
        assert Got(s.chans, d, e) <==> Gave(s.ops, d, e);
      }
    }
  }

  /** Steps that leave every channel's history and every publisher's progress alone. */
  lemma QuietKeepsEvents(s: State, t: State)
    requires EventsOk(s)
    requires HistoriesOk(s.chans) ==> HistoriesOk(t.chans)
    requires forall c: nat, e: nat :: Got(t.chans, c, e) <==> Got(s.chans, c, e)
    requires forall c: nat, e: nat :: Gave(t.ops, c, e) <==> Gave(s.ops, c, e)
    ensures EventsOk(t)
  {
    hide HistoriesOk, Got, Gave;
  }

  lemma SubscribeKeepsEvents(s: State, i: nat)
    requires EventsOk(s) && OpsOk(s) && i < |s.ops|
    ensures EventsOk(AdvanceSubscribe(s, i))
  {
    assert OpOk(s, i, s.ops[i]);
    hide EventsOk, OpsOk;
    QuietKeepsEvents(s, AdvanceSubscribe(s, i));
  }

  lemma CancelKeepsEvents(s: State, i: nat)
    requires EventsOk(s) && OpsOk(s) && i < |s.ops|
    ensures EventsOk(AdvanceCancel(s, i))
  {
    assert OpOk(s, i, s.ops[i]);
    hide EventsOk, OpsOk;
    QuietKeepsEvents(s, AdvanceCancel(s, i));
  }

  lemma PublishKeepsEvents(s: State, i: nat)
    requires EventsOk(s) && OpsOk(s) && i < |s.ops|
    ensures EventsOk(AdvancePublish(s, i))
  {
    assert OpOk(s, i, s.ops[i]);
    hide EventsOk, OpsOk;
    QuietKeepsEvents(s, AdvancePublish(s, i));
  }

  lemma ShutdownKeepsEvents(s: State, i: nat)
    requires EventsOk(s) && OpsOk(s) && i < |s.ops|
    ensures EventsOk(AdvanceShutdown(s, i))
  {
    assert OpOk(s, i, s.ops[i]);
    hide EventsOk, OpsOk;
    QuietKeepsEvents(s, AdvanceShutdown(s, i));
  }

  // ---------------------------------------------------------------- any run

  ghost predicate Inv(s: State) {
    LockInv(s) && ChanInv(s) && CountOk(s) && EventsOk(s)
  }

  /** Shutdown closes done a second time. */
  predicate Clash(s: State, step: Step) {
    step.Advance? && step.i < |s.ops| && s.ops[step.i].DownClose? && s.done.Some?
  }

  lemma AdvanceKeepsInv(s: State, i: nat)
    requires Inv(s) && i < |s.ops| && !Clash(s, Advance(i))
    ensures ChanInv(AdvanceStep(s, i)) && CountOk(AdvanceStep(s, i)) && EventsOk(AdvanceStep(s, i))
  {
    hide LockOk, OpsOk, SubsOpen, CountOk, EventsOk, DoneOk, AdvanceSubscribe, AdvanceCancel, AdvancePublish, AdvanceShutdown;
    if Subscribing(s.ops[i]) {
      SubscribeKeepsChans(s, i);
      SubscribeKeepsCount(s, i);
      SubscribeKeepsEvents(s, i);
    } else if Cancelling(s.ops[i]) {
      CancelKeepsChans(s, i);
      CancelKeepsCount(s, i);
      CancelKeepsEvents(s, i);
    } else if Publishing(s.ops[i]) {
      PublishKeepsChans(s, i);
      PublishKeepsCount(s, i);
      PublishKeepsEvents(s, i);
    } else {
      ShutdownKeepsChans(s, i);
      ShutdownKeepsCount(s, i);
      ShutdownKeepsEvents(s, i);
    }
  }

  lemma StartKeepsInv(s: State, pc: Pc)
    requires Inv(s) && (pc.SubEnter? || pc.PubEnter? || pc.DownCheck?)
    ensures ChanInv(s.(ops := s.ops + [pc])) && CountOk(s.(ops := s.ops + [pc])) && EventsOk(s.(ops := s.ops + [pc]))
  {
    StartKeepsChans(s, pc);
    hide OpsOk, SubsOpen, HistoriesOk, DoneOk;
    QuietKeepsEvents(s, s.(ops := s.ops + [pc]));
  }

  lemma StepKeepsInv(s: State, step: Step)
    requires Inv(s) && !Clash(s, step)
    ensures Inv(Act(s, step))
  {
    LockKept(s, step);
    hide LockInv, ChanInv, CountOk, EventsOk, AdvanceStep, SendStep, PickStep, ReceiveStep;
    match step
    case Subscribe => StartKeepsInv(s, SubEnter);
    case Publish => StartKeepsInv(s, PubEnter);
    case Shutdown => StartKeepsInv(s, DownCheck);
    case Advance(i) =>
      if i < |s.ops| {
        AdvanceKeepsInv(s, i);
      } else {
        assert AdvanceStep(s, i) == s by { AdvanceNone(s, i); }
      }
    case SendTo(i, c) =>
      SendKeepsChans(s, i, c);
      SendKeepsEvents(s, i, c) by { ChanParts(s); }
      CountKeptLoops(s, i, c);
    case PickSub(i, c) =>
      PickKeepsChans(s, i, c);
      PickKeepsEvents(s, i, c);
      CountKeptLoops(s, i, c);
    case Receive(c) =>
      ReceiveKeepsChans(s, c);
      ReceiveKeepsEvents(s, c);
      CountKeptLoops(s, 0, c);
  }

  lemma AdvanceNone(s: State, i: nat)
    requires i >= |s.ops|
    ensures AdvanceStep(s, i) == s
  {
  }

  lemma ChanParts(s: State)
    requires ChanInv(s)
    ensures !s.crashed && OpsOk(s)
  {
  }

  lemma PickKeepsEvents(s: State, i: nat, c: nat)
    requires EventsOk(s)
    ensures EventsOk(PickStep(s, i, c))
  {
    hide EventsOk, HistoriesOk;
    QuietKeepsEvents(s, PickStep(s, i, c));
  }

  /** Nothing but a second Shutdown past its check ever crashes: no send on a closed
      channel, no subscriber channel closed twice. */
  lemma CrashIffClash(s: State, step: Step)
    requires Inv(s)
    ensures Act(s, step).crashed <==> Clash(s, step)
  {
    if Clash(s, step) {
    } else {
      hide Act, LockInv, CountOk, EventsOk, OpsOk, SubsOpen, DoneOk;
      StepKeepsInv(s, step);
    }
  }

  lemma EmptyIsFine()
    ensures Inv(Empty())
  {
  }

  lemma {:induction false} RunIsSafe(steps: seq<Step>)
    ensures !Run(Empty(), steps).crashed ==> Inv(Run(Empty(), steps))
  {
    hide Inv, Clash;
    if steps == [] {
      EmptyIsFine();
    } else {
      var s := Run(Empty(), steps[..|steps| - 1]);
      RunIsSafe(steps[..|steps| - 1]);
      if !s.crashed {
        CrashIffClash(s, steps[|steps| - 1]);
        if !Clash(s, steps[|steps| - 1]) {
          StepKeepsInv(s, steps[|steps| - 1]);
        }
      }
    }
  }
}
