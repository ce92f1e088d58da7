/** The broker's fields and its critical sections, each under the lock from start to
    end: Publish's loop over the subscribers and Shutdown's loop that closes them. */
module BrokerService {
  import opened Broker

  /** The channels of the given subscribers closed. */
  ghost predicate ClosedExactly(before: seq<Chan>, after: seq<Chan>, subs: set<nat>) {
    && |after| == |before|
    && forall c :: 0 <= c < |before| ==>
         after[c] == if c in subs then before[c].(closed := true) else before[c]
  }

  ghost predicate SentExactly(before: seq<Chan>, after: seq<Chan>, subs: set<nat>, event: nat) {
    && |after| == |before|
    && forall c :: 0 <= c < |before| ==>
         after[c] == if c in subs then TrySend(before[c], event) else before[c]
  }

  class Service {
    var subs: set<nat>
    var chans: seq<Chan>
    var done: bool
    var subCount: int

    /** Subscribers are exactly the open channels, and they are counted. */
    ghost predicate Valid()
      reads this
    {
      && (forall c :: c in subs ==> c < |chans|)
      && (forall c :: 0 <= c < |chans| ==> (c in subs <==> !chans[c].closed))
      && subCount == |subs| && (done ==> subs == {})
    }

    constructor ()
      ensures Valid() && subs == {} && !done
    {
      subs, chans, done, subCount := {}, [], false, 0;
    }

    /** After Shutdown a subscriber gets a channel that is already closed. */
    method Subscribe() returns (c: nat)
      requires Valid()
      modifies this
      ensures Valid() && done == old(done)
      ensures c == old(|chans|) && chans == old(chans) + [Fresh(old(done))]
      ensures subs == if old(done) then old(subs) else old(subs) + {c}
    {
      c := |chans|;
      if done {
        chans := chans + [Fresh(true)];
        return;
      }
      chans := chans + [Fresh(false)];
      subs := subs + {c};
      subCount := subCount + 1;
    }

    /** The watcher's turn. It runs once for each subscription, so unless Shutdown has
        been there first the channel is still open. */
    method Cancel(c: nat)
      requires Valid() && (done || c in subs)
      modifies this
      ensures Valid() && done == old(done)
      ensures if done then subs == old(subs) && chans == old(chans)
              else subs == old(subs) - {c} && ClosedExactly(old(chans), chans, {c})
    {
      if done {
        return;
      }
      subs := subs - {c};
      chans := chans[c := chans[c].(closed := true)];
      subCount := subCount - 1;
    }

    /** No subscriber is skipped or reached twice, and no closed channel is. */
    method Publish(event: nat)
      requires Valid()
      modifies this`chans
      ensures Valid()
      ensures SentExactly(old(chans), chans, if done then {} else subs, event)
      ensures forall c :: c in subs && !done ==>
        && chans[c].received == old(chans)[c].received
        && chans[c].buf == if |old(chans)[c].buf| < 64 then old(chans)[c].buf + [event] else old(chans)[c].buf
    {
      if done {
        return;
      }
      var left := subs;
      ghost var before := chans;
      while left != {}
        invariant left <= subs && SentExactly(before, chans, subs - left, event)
        decreases left
      {
        var c :| c in left;
        left := left - {c};
        chans := chans[c := TrySend(chans[c], event)];
      }
    }

    /** The second of two calls in a row does nothing. */
    method Shutdown()
      requires Valid()
      modifies this
      ensures Valid() && done && subs == {} && subCount == 0
      ensures ClosedExactly(old(chans), chans, old(subs))
      ensures forall c :: 0 <= c < |chans| ==> chans[c].closed
    {
      if done {
        return;
      }
      done := true;
      ghost var before, all := chans, subs;
      while subs != {}
        invariant done && subs <= all && ClosedExactly(before, chans, all - subs)
        decreases subs
      {
        var c :| c in subs;
        subs := subs - {c};
        chans := chans[c := chans[c].(closed := true)];
      }
      subCount := 0;
    }
  }
}
