/** The dashboard's event queues as a state machine. Broadcasting, registering,
    leaving and shutting down exclude each other by a lock; each client drains its
    own queue at any moment, also between the single sends and receives of a
    broadcast that is under way. */
module Dashboard {
  import opened Basics

  const CAPACITY: nat := 128

  /** What a queue holds, with the step that enqueued it. */
  datatype Item = Event(name: nat, stamp: nat) | Resync(stamp: nat)

  /** A client's channel and its history: what it received, what broadcasts offered
      it, and the last step that lost something meant for it. */
  datatype Client = Client(
    queue: seq<Item>, closed: bool, received: seq<Item>, offered: seq<Item>, lastLoss: Option<nat>)

  datatype Pc = Next | Full(c: nat) | Popped(c: nat)

  /** A broadcast under way: its event, the clients still to reach, and where it is. */
  datatype Sending = Sending(event: nat, left: set<nat>, pc: Pc)

  datatype State = State(
    clients: set<nat>,
    chans: seq<Client>,
    sending: Option<Sending>, // its broadcast holds the lock
    clock: nat,
    dropped: bool,            // a resync marker found no room
    crashed: bool)            // a send on, or a close of, a closed channel

  datatype Step =
    | Register
    | Leave(c: nat)
    | Shutdown
    | Broadcast(event: nat)
    | TrySend(c: nat)
    | PopOne
    | SendResync
    | EndBroadcast
    | Drain(c: nat)

  function Empty(): State {
    State({}, [], None, 0, false, false)
  }

  function Put(s: State, c: nat, client: Client): State
    requires c < |s.chans|
  {
    s.(chans := s.chans[c := client])
  }

  function Enqueue(client: Client, item: Item): Client {
    client.(queue := client.queue + [item])
  }

  function Closed(chans: seq<Client>, which: set<nat>): (r: seq<Client>)
    ensures |r| == |chans|
    ensures forall c :: 0 <= c < |chans| ==> r[c] == if c in which then chans[c].(closed := true) else chans[c]
  {
    seq(|chans|, c requires 0 <= c < |chans| => if c in which then chans[c].(closed := true) else chans[c])
  }

  /** The first select: send the event, or find the queue full and lose it. */
  function TrySendStep(s: State, c: nat): State {
    if !(s.sending.Some? && s.sending.value.pc.Next? && c in s.sending.value.left) then s
    else if !(c < |s.chans| && !s.chans[c].closed) then s.(crashed := true)
    else
      var b, client := s.sending.value, s.chans[c];
      var item := Event(b.event, s.clock);
      var offered := client.(offered := client.offered + [item]);
      if |client.queue| < CAPACITY
      then Put(s, c, Enqueue(offered, item)).(sending := Some(b.(left := b.left - {c})))
      else Put(s, c, offered.(lastLoss := Some(s.clock))).(sending := Some(b.(pc := Full(c))))
  }

  /** The second select: take the oldest entry out, unless the client has emptied
      the queue meanwhile. */
  function PopStep(s: State): State {
    if !(s.sending.Some? && s.sending.value.pc.Full? && s.sending.value.pc.c < |s.chans|) then s
    else
      var b := s.sending.value;
      var c := b.pc.c;
      var t := s.(sending := Some(b.(pc := Popped(c))));
      if s.chans[c].queue == [] then t
      else Put(t, c, s.chans[c].(queue := s.chans[c].queue[1..], lastLoss := Some(s.clock)))
  }

  /** The third select: send the marker, or drop it too. */
  function ResyncStep(s: State): State {
    if !(s.sending.Some? && s.sending.value.pc.Popped?) then s
    else
      var b := s.sending.value;
      var c := b.pc.c;
      if !(c < |s.chans| && !s.chans[c].closed) then s.(crashed := true)
      else
        var t := s.(sending := Some(b.(left := b.left - {c}, pc := Next)));
        if |s.chans[c].queue| < CAPACITY then Put(t, c, Enqueue(s.chans[c], Resync(s.clock)))
        else t.(dropped := true)
  }

  function DrainStep(s: State, c: nat): State {
    if c < |s.chans| && s.chans[c].queue != [] then
      var client := s.chans[c];
      Put(s, c, client.(queue := client.queue[1..], received := client.received + [client.queue[0]]))
    else s
  }

  function Act(s: State, step: Step): State {
    match step
    case Register =>
      if s.sending.Some? then s
      else s.(clients := s.clients + {|s.chans|}, chans := s.chans + [Client([], false, [], [], None)])
    case Leave(c) =>
      if s.sending.Some? || c !in s.clients then s
      else if !(c < |s.chans| && !s.chans[c].closed) then s.(crashed := true)
      else s.(clients := s.clients - {c}, chans := Closed(s.chans, {c}))
    case Shutdown =>
      if s.sending.Some? then s
      else if exists c :: c in s.clients && !(c < |s.chans| && !s.chans[c].closed) then s.(crashed := true)
      else s.(clients := {}, chans := Closed(s.chans, s.clients))
    case Broadcast(event) => if s.sending.Some? then s else s.(sending := Some(Sending(event, s.clients, Next)))
    case TrySend(c) => TrySendStep(s, c)
    case PopOne => PopStep(s)
    case SendResync => ResyncStep(s)
    case EndBroadcast =>
      if s.sending.Some? && s.sending.value.pc.Next? && s.sending.value.left == {} then s.(sending := None) else s
    case Drain(c) => DrainStep(s, c)
  }

  /** One step; time passes. */
  function Apply(s: State, step: Step): State {
    Act(s, step).(clock := s.clock + 1)
  }

  function Run(s: State, steps: seq<Step>): State {
    if steps == [] then s else Apply(Run(s, steps[..|steps| - 1]), steps[|steps| - 1])
  }

  // -------------------------------------------------------------- invariants

  predicate Owes(s: State, c: nat) {
    s.sending.Some? && (s.sending.value.pc == Full(c) || s.sending.value.pc == Popped(c))
  }

  predicate Marks(item: Item, loss: nat) {
    item.Resync? && item.stamp > loss
  }

  /** A marker sent after the last loss was received or is still in the queue. */
  ghost predicate Announced(client: Client) {
    client.lastLoss.Some? ==>
      exists k :: 0 <= k < |client.received + client.queue| && Marks((client.received + client.queue)[k], client.lastLoss.value)
  }

  ghost predicate ClientOk(client: Client, clock: nat) {
    && |client.queue| <= CAPACITY
    && (client.lastLoss.Some? ==> client.lastLoss.value < clock)
    && (client.lastLoss.None? ==> client.received + client.queue == client.offered)
  }

  ghost predicate ClientsOk(s: State) {
    forall c :: 0 <= c < |s.chans| ==> ClientOk(s.chans[c], s.clock)
  }

  ghost predicate AllAnnounced(s: State) {
    forall c: nat :: c < |s.chans| && !Owes(s, c) ==> Announced(s.chans[c])
  }

  /** Registered clients are exactly the open channels; a broadcast only has
      registered clients left; where it has popped, there is room. */
  ghost predicate SendingOk(s: State) {
    && !s.dropped && !s.crashed
    && (forall c: nat :: c in s.clients <==> c < |s.chans| && !s.chans[c].closed)
    && (s.sending.Some? ==>
          var b := s.sending.value;
          && b.left <= s.clients
          && (b.pc.Full? ==> b.pc.c in b.left && s.chans[b.pc.c].lastLoss.Some?)
          && (b.pc.Popped? ==>
                b.pc.c in b.left && s.chans[b.pc.c].lastLoss.Some? && |s.chans[b.pc.c].queue| < CAPACITY))
  }

  ghost predicate Inv(s: State) {
    ClientsOk(s) && AllAnnounced(s) && SendingOk(s)
  }

  lemma DrainKeeps(client: Client, clock: nat)
    requires ClientOk(client, clock) && client.queue != []
    ensures
      var t := client.(queue := client.queue[1..], received := client.received + [client.queue[0]]);
      && ClientOk(t, clock) && (Announced(client) ==> Announced(t))
  {
    assert client.received + client.queue == client.received + [client.queue[0]] + client.queue[1..];
  }

  lemma EnqueueKeeps(client: Client, item: Item, clock: nat)
    requires ClientOk(client, clock) && |client.queue| < CAPACITY
    ensures ClientOk(Enqueue(client.(offered := client.offered + [item]), item), clock)
    ensures Announced(client) ==> Announced(Enqueue(client.(offered := client.offered + [item]), item))
  {
    var t := Enqueue(client.(offered := client.offered + [item]), item);
    assert t.received + t.queue == client.received + client.queue + [item];
    if Announced(client) && client.lastLoss.Some? {
      var k :| 0 <= k < |client.received + client.queue| && Marks((client.received + client.queue)[k], client.lastLoss.value);
      assert Marks((t.received + t.queue)[k], t.lastLoss.value);
    }
  }

  lemma MarkerAnnounces(client: Client, clock: nat)
    requires ClientOk(client, clock) && client.lastLoss.Some? && |client.queue| < CAPACITY
    ensures ClientOk(Enqueue(client, Resync(clock)), clock) && Announced(Enqueue(client, Resync(clock)))
  {
    var t := Enqueue(client, Resync(clock));
    var k := |client.received + client.queue|;
    assert (t.received + t.queue)[k] == Resync(clock);
    assert Marks((t.received + t.queue)[k], t.lastLoss.value);
  }

  lemma LaterKeeps(client: Client, clock: nat)
    requires ClientOk(client, clock)
    ensures ClientOk(client, clock + 1)
  {
  }

  /** A step that replaces one channel keeps what holds of the others. */
  lemma PutKeeps(s: State, t: State, c: nat)
    requires ClientsOk(s) && AllAnnounced(s) && c < |s.chans| && |t.chans| == |s.chans| && t.clock == s.clock + 1
    requires t.chans == s.chans[c := t.chans[c]]
    requires ClientOk(t.chans[c], t.clock) && (Owes(t, c) || Announced(t.chans[c]))
    requires forall d: nat :: d != c && Owes(s, d) ==> Owes(t, d)
    ensures ClientsOk(t) && AllAnnounced(t)
  {
    hide Announced, Owes;
    forall d | 0 <= d < |t.chans| ensures ClientOk(t.chans[d], t.clock) {
      if d != c {
        LaterKeeps(s.chans[d], s.clock);
      }
    }
  }

  /** A step that only opens or closes channels. */
  lemma ReshapeKeeps(s: State, t: State)
    requires ClientsOk(s) && AllAnnounced(s) && |s.chans| <= |t.chans| && t.clock == s.clock + 1
    requires forall c: nat :: c < |s.chans| ==>
      t.chans[c] == s.chans[c] || t.chans[c] == s.chans[c].(closed := true)
    requires forall c: nat :: |s.chans| <= c < |t.chans| ==> t.chans[c] == Client([], false, [], [], None)
    requires forall c: nat :: Owes(s, c) ==> Owes(t, c)
    ensures ClientsOk(t) && AllAnnounced(t)
  {
    hide Owes;
  }

  lemma TrySendKeeps(s: State, c: nat)
    requires Inv(s)
    ensures Inv(Apply(s, TrySend(c)))
  {
    var t := Apply(s, TrySend(c));
    if s.sending.Some? && s.sending.value.pc.Next? && c in s.sending.value.left {
      var client := s.chans[c];
      var item := Event(s.sending.value.event, s.clock);
      if |client.queue| < CAPACITY {
        EnqueueKeeps(client, item, s.clock);
        LaterKeeps(t.chans[c], s.clock);
      }
      hide Announced;
      PutKeeps(s, t, c);
    } else {
      ReshapeKeeps(s, t);
    }
  }

  lemma PopKeeps(s: State)
    requires Inv(s)
    ensures Inv(Apply(s, PopOne))
  {
    hide Announced;
    var t := Apply(s, PopOne);
    if s.sending.Some? && s.sending.value.pc.Full? {
      PutKeeps(s, t, s.sending.value.pc.c);
    } else {
      ReshapeKeeps(s, t);
    }
  }

  lemma ResyncKeeps(s: State)
    requires Inv(s)
    ensures Inv(Apply(s, SendResync))
  {
    hide Announced;
    var t := Apply(s, SendResync);
    if s.sending.Some? && s.sending.value.pc.Popped? {
      var c := s.sending.value.pc.c;
      MarkerAnnounces(s.chans[c], s.clock);
      LaterKeeps(t.chans[c], s.clock);
      PutKeeps(s, t, c);
    } else {
      ReshapeKeeps(s, t);
    }
  }

  lemma DrainStepKeeps(s: State, c: nat)
    requires Inv(s)
    ensures Inv(Apply(s, Drain(c)))
  {
    hide Announced;
    var t := Apply(s, Drain(c));
    if c < |s.chans| && s.chans[c].queue != [] {
      DrainKeeps(s.chans[c], s.clock);
      LaterKeeps(t.chans[c], s.clock);
      PutKeeps(s, t, c);
    } else {
      ReshapeKeeps(s, t);
    }
  }

  lemma QuietKeeps(s: State, step: Step)
    requires Inv(s) && (step.Register? || step.Leave? || step.Shutdown? || step.Broadcast? || step.EndBroadcast?)
    ensures Inv(Apply(s, step))
  {
    hide Announced;
    ReshapeKeeps(s, Apply(s, step));
  }

  lemma StepKeepsInv(s: State, step: Step)
    requires Inv(s)
    ensures Inv(Apply(s, step))
  {
    hide Inv, Apply;
    match step
    case TrySend(c) => TrySendKeeps(s, c);
    case PopOne => PopKeeps(s);
    case SendResync => ResyncKeeps(s);
    case Drain(c) => DrainStepKeeps(s, c);
    case _ => QuietKeeps(s, step);
  }

  lemma {:induction false} RunKeepsInv(steps: seq<Step>)
    ensures Inv(Run(Empty(), steps))
  {
    hide Inv, Apply;
    if steps == [] {
      assert Inv(Empty()) by { EmptyIsFine(); }
    } else {
      RunKeepsInv(steps[..|steps| - 1]);
      StepKeepsInv(Run(Empty(), steps[..|steps| - 1]), steps[|steps| - 1]);
    }
  }

  lemma EmptyIsFine()
    ensures Inv(Empty())
  {
  }

  // ---------------------------------------------------------------- theorems

  /** The marker's send never finds the queue full, and no broadcast, leave or
      shutdown ever touches a closed channel. */
  lemma MarkerAlwaysFits(steps: seq<Step>)
    ensures !Run(Empty(), steps).dropped && !Run(Empty(), steps).crashed
  {
    hide Run;
    RunKeepsInv(steps);
  }

  /** Whatever was lost for a client, once the broadcast is past that client a marker
      enqueued after the loss has been received or is still in the queue; and a client
      that lost nothing has, received or queued, all it was offered, in order. */
  lemma LossIsAnnounced(steps: seq<Step>, c: nat)
    requires c < |Run(Empty(), steps).chans|
    ensures
      var s := Run(Empty(), steps);
      && (Owes(s, c) || Announced(s.chans[c]))
      && (s.chans[c].lastLoss.None? ==> s.chans[c].received + s.chans[c].queue == s.chans[c].offered)
  {
    hide Run, Announced, Owes;
    RunKeepsInv(steps);
    assert ClientOk(Run(Empty(), steps).chans[c], Run(Empty(), steps).clock);
  }

  /** A marker is owed only inside a broadcast; its next two steps send it. */
  lemma OwedMarkerComes(s: State, c: nat)
    requires Inv(s) && Owes(s, c)
    ensures
      var t := Apply(Apply(s, PopOne), SendResync);
      c < |t.chans| && !Owes(t, c) && Announced(t.chans[c])
  {
    StepKeepsInv(s, PopOne);
    StepKeepsInv(Apply(s, PopOne), SendResync);
    hide Announced, ClientsOk;
  }

  // ------------------------------------------------------------- the server

  /** A client's channel after a broadcast that no client interrupted. */
  function AfterBroadcast(client: Client, event: nat, now: nat): Client {
    var offered := client.(offered := client.offered + [Event(event, now)]);
    if |client.queue| < CAPACITY then Enqueue(offered, Event(event, now))
    else Enqueue(offered.(queue := client.queue[1..], lastLoss := Some(now)), Resync(now + 1))
  }

  /** A full queue keeps its length and everything but its oldest entry, and ends
      in a marker. */
  lemma FullQueueEndsInMarker(client: Client, event: nat, now: nat)
    requires |client.queue| == CAPACITY
    ensures
      var t := AfterBroadcast(client, event, now);
      |t.queue| == CAPACITY && t.queue[..CAPACITY - 1] == client.queue[1..] && t.queue[CAPACITY - 1].Resync? && Announced(t)
  {
    var t := AfterBroadcast(client, event, now);
    var k := |t.received| + CAPACITY - 1;
    assert (t.received + t.queue)[k] == Resync(now + 1);
    assert Marks((t.received + t.queue)[k], now);
  }

  /** The steps of a broadcast that no client interrupts do the same to a queue. */
  lemma StepsAreBroadcast(s: State, event: nat, c: nat)
    requires Inv(s) && s.sending.None? && c in s.clients
    ensures
      var t := Apply(Apply(s, Step.Broadcast(event)), TrySend(c));
      var u := Apply(Apply(t, PopOne), SendResync);
      var before := s.chans[c].queue;
      && (|before| < 128 ==>
            t.chans[c].queue == before + [Event(event, s.clock + 1)] && t.chans[c].received == s.chans[c].received)
      && (|before| >= 128 ==>
            u.chans[c].queue == before[1..] + [Resync(s.clock + 3)] && u.chans[c].received == s.chans[c].received)
  {
    assert ClientOk(s.chans[c], s.clock);
    hide ClientsOk, AllAnnounced;
  }

  class Server {
    var clients: set<nat>
    var chans: seq<Client>
    var clock: nat

    ghost predicate Valid()
      reads this
    {
      && (forall c: nat :: c in clients <==> c < |chans| && !chans[c].closed)
      && (forall c :: 0 <= c < |chans| ==> |chans[c].queue| <= CAPACITY)
    }

    constructor ()
      ensures Valid() && clients == {}
    {
      clients, chans, clock := {}, [], 0;
    }

    method Register() returns (c: nat)
      requires Valid()
      modifies this
      ensures Valid() && clock == old(clock)
      ensures c == |old(chans)| && clients == old(clients) + {c} && chans == old(chans) + [Client([], false, [], [], None)]
    {
      c := |chans|;
      chans := chans + [Client([], false, [], [], None)];
      clients := clients + {c};
    }

    /** The handler's deferred exit: Shutdown may have closed the channel already. */
    method Leave(c: nat)
      requires Valid()
      modifies this
      ensures Valid() && clock == old(clock)
      ensures clients == old(clients) - {c} && chans == Closed(old(chans), {c} * old(clients))
    {
      if c in clients {
        clients := clients - {c};
        chans := chans[c := chans[c].(closed := true)];
      }
    }

    method Broadcast(event: nat)
      requires Valid()
      modifies this
      ensures Valid() && clients == old(clients) && |chans| == |old(chans)|
      ensures forall c :: 0 <= c < |chans| ==>
        chans[c] == if c in clients then AfterBroadcast(old(chans)[c], event, old(clock)) else old(chans)[c]
      ensures forall c :: c in clients ==>
        var before, after := old(chans)[c].queue, chans[c].queue;
        && chans[c].received == old(chans)[c].received
        && if |before| < 128 then after == before + [Event(event, old(clock))]
           else |after| == 128 && after[..127] == before[1..] && after[127].Resync?
    {
      var left, now := clients, clock;
      ghost var before := chans;
      while left != {}
        invariant left <= clients == old(clients) && |chans| == |before| && Valid()
        invariant forall c :: 0 <= c < |chans| ==>
          chans[c] == if c in clients - left then AfterBroadcast(before[c], event, now) else before[c]
        decreases left
      {
        var c :| c in left;
        left := left - {c};
        var client := chans[c].(offered := chans[c].offered + [Event(event, now)]);
        if |client.queue| < CAPACITY {
          client := Enqueue(client, Event(event, now));
        } else {
          client := client.(lastLoss := Some(now));
          if client.queue != [] {
            client := client.(queue := client.queue[1..]);
          }
          if |client.queue| < CAPACITY {
            client := Enqueue(client, Resync(now + 1));
          }
        }
        chans := chans[c := client];
      }
      clock := now + 2;
    }

    method Shutdown()
      requires Valid()
      modifies this
      ensures Valid() && clients == {} && clock == old(clock)
      ensures chans == Closed(old(chans), old(clients)) && forall c :: 0 <= c < |chans| ==> chans[c].closed
    {
      ghost var before, all := chans, clients;
      while clients != {}
        invariant clients <= all && chans == Closed(before, all - clients) && Valid() && clock == old(clock)
        decreases clients
      {
        var c :| c in clients;
        clients := clients - {c};
        chans := chans[c := chans[c].(closed := true)];
        assert chans == Closed(before, all - clients);
      }
    }
  }
}
