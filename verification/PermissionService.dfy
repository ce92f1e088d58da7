/** The permission service: its fields, and the critical sections of its methods. The
    callers' progress is ghost state; it ties every section to a step of the protocol,
    so that what holds of every run holds of the service. */
module PermissionService {
  import opened Basics
  import opened SessionModes
  import opened Permissions

  /** Each full channel holds what its reply says. */
  ghost predicate Holds(channels: map<nat, bool>, mail: map<nat, nat>, replies: seq<Reply>) {
    && (forall i :: i in channels <==> i in mail)
    && (forall i :: i in mail ==> mail[i] < |replies| && channels[i] == ReplyAllows(replies[mail[i]].kind))
  }

  lemma HoldsAfterTaking(channels: map<nat, bool>, mail: map<nat, nat>, replies: seq<Reply>, i: nat)
    requires Holds(channels, mail, replies) && i in mail
    ensures mail[i] < |replies| && i in channels && channels[i] == ReplyAllows(replies[mail[i]].kind)
    ensures Holds(channels - {i}, mail - {i}, replies)
  {
  }

  class Service {
    var sessionPermissions: seq<Key>
    var autoApproveSessions: seq<string>
    var denyAllSessions: seq<string>
    var parents: map<string, string>
    var denied: map<string, seq<nat>>
    var pendingRequests: set<nat>
    var channels: map<nat, bool> // the one-place channels that are full
    var promptMu: bool           // the prompt lock is held
    var nextId: nat

    ghost var calls: seq<Call>
    ghost var replies: seq<Reply>
    ghost var holder: Option<nat>
    ghost var mail: map<nat, nat>
    ghost var published: seq<nat>

    ghost function Tables(): Modes
      reads this
    {
      Modes(autoApproveSessions, denyAllSessions, parents)
    }

    ghost function Now(): State
      reads this
    {
      State(Tables(), sessionPermissions, denied, calls, replies, holder, pendingRequests, mail, published)
    }

    /** The lock, the channels and the next id are those of the protocol's state. */
    ghost predicate Coupled()
      reads this
    {
      promptMu == holder.Some? && nextId == |calls| && Holds(channels, mail, replies)
    }

    ghost predicate Valid()
      reads this
    {
      Inv(Now()) && Coupled()
    }

    constructor ()
      ensures Valid() && Now() == Empty()
    {
      sessionPermissions, autoApproveSessions, denyAllSessions, parents := [], [], [], map[];
      denied, calls, replies, promptMu, holder := map[], [], [], false, None;
      pendingRequests, channels, mail, published, nextId := {}, map[], map[], [], 0;
      new;
      EmptyIsFine();
    }

    // --------------------------------------------------------------- queries

    /** The walk from a session up through linked parents, guarded against cycles. */
    method SessionModeLocked(sessionId: string) returns (mode: Mode)
      ensures mode == SessionMode(Tables(), sessionId)
    {
      var seen: set<string> := {};
      var id := sessionId;
      while id != "" && id !in seen
        invariant Walk(Tables(), id, seen) == SessionMode(Tables(), sessionId)
        decreases |parents.Keys - seen|, if id == "" then 0 else 1
      {
        if id in autoApproveSessions {
          return AutoApproved(id);
        }
        if id in denyAllSessions {
          return DeniedBy(id);
        }
        if id in parents {
          Smaller(parents.Keys, seen, id);
        } else {
          assert parents.Keys - (seen + {id}) == parents.Keys - seen;
        }
        seen := seen + {id};
        id := if id in parents then parents[id] else "";
      }
      mode := NoMode;
    }

    method HasSessionGrant(key: Key) returns (found: bool)
      ensures found <==> key in sessionPermissions
    {
      var k := 0;
      while k < |sessionPermissions|
        invariant k <= |sessionPermissions| && key !in sessionPermissions[..k]
      {
        var p := sessionPermissions[k];
        if p.tool == key.tool && p.action == key.action && p.session == key.session
           && p.path == key.path && p.fingerprint == key.fingerprint {
          return true;
        }
        k := k + 1;
      }
      found := false;
    }

    /** The requests the session refused, each once, and no other. */
    method Denied(sessionId: string) returns (list: seq<nat>)
      requires Valid()
      ensures list == Refusals(denied, sessionId)
      ensures Distinct(list) && forall i :: i in list <==> RefusedBy(Now(), i, sessionId)
    {
      list := if sessionId in denied then denied[sessionId] else [];
      forall i | RefusedBy(Now(), i, sessionId) ensures i in list {
        assert i in Refusals(denied, sessionId);
      }
    }

    // ----------------------------------------------------------------- modes

    method AutoApproveSession(sessionId: string)
      requires Valid()
      modifies this
      ensures Valid() && Now() == Act(old(Now()), Step.AutoApproveSession(sessionId))
      ensures autoApproveSessions == old(autoApproveSessions) + [sessionId]
    {
      hide Inv;
      StepKeepsInv(Now(), Step.AutoApproveSession(sessionId));
      autoApproveSessions := autoApproveSessions + [sessionId];
    }

    method DenyAllSession(sessionId: string)
      requires Valid()
      modifies this
      ensures Valid() && Now() == Act(old(Now()), Step.DenyAllSession(sessionId))
      ensures denyAllSessions == old(denyAllSessions) + [sessionId]
    {
      hide Inv;
      StepKeepsInv(Now(), Step.DenyAllSession(sessionId));
      denyAllSessions := denyAllSessions + [sessionId];
    }

    method LinkSession(childId: string, parentId: string)
      requires Valid()
      modifies this
      ensures Valid() && Now() == Act(old(Now()), Step.LinkSession(childId, parentId))
      ensures parents ==
        if childId == "" || parentId == "" || childId == parentId then old(parents) else old(parents)[childId := parentId]
    {
      hide Inv;
      StepKeepsInv(Now(), Step.LinkSession(childId, parentId));
      if childId == "" || parentId == "" || childId == parentId {
        return;
      }
      parents := parents[childId := parentId];
    }

    // -------------------------------------------------------------- requests

    ghost method Move(i: nat, pc: Pc)
      requires i < |calls|
      modifies this`calls
      ensures Now() == Go(old(Now()), i, pc) && |calls| == |old(calls)|
    {
      calls := calls[i := calls[i].(pc := pc)];
    }

    /** Request up to its prompt, while nobody else is at work. It is answered at once
        exactly when a mode decides or its key is granted; otherwise it is the one
        pending request. */
    method RequestUntilPrompt(key: Key) returns (id: nat, answer: Option<bool>)
      requires Valid() && !promptMu
      modifies this
      ensures Valid() && id == |old(calls)| && |calls| == id + 1
      ensures
        match SessionMode(old(Tables()), key.session)
        case AutoApproved(_) => answer == Some(true)
        case DeniedBy(root) => answer == Some(false) && denied == old(denied)[root := Refusals(old(denied), root) + [id]]
        case NoMode => if key in old(sessionPermissions) then answer == Some(true) else answer == None
      ensures answer.None? ==> pendingRequests == {id} && At(Now(), id, Waiting) && published == old(published) + [id]
      ensures answer.Some? ==> !promptMu && published == old(published) && pendingRequests == old(pendingRequests)
    {
      hide Inv, SessionMode, Act;
      id := Enter(key);
      var mode := ReadMode(id, key.session);
      match mode {
        case AutoApproved(_) =>
          answer := Some(true);
        case DeniedBy(root) =>
          RecordRefusal(id, root);
          answer := Some(false);
        case NoMode =>
          answer := PromptUnlessGranted(id, key);
      }
    }

    /** The part of Request under the prompt lock, up to the prompt. */
    method PromptUnlessGranted(id: nat, key: Key) returns (answer: Option<bool>)
      requires Valid() && At(Now(), id, Queued) && calls[id].key == key && !promptMu
      modifies this`promptMu, this`holder, this`calls, this`pendingRequests, this`published
      ensures Valid() && |calls| == |old(calls)| && answer == if key in sessionPermissions then Some(true) else None
      ensures answer.None? ==> pendingRequests == {id} && At(Now(), id, Waiting) && published == old(published) + [id]
      ensures answer.Some? ==> !promptMu && published == old(published) && pendingRequests == old(pendingRequests)
    {
      hide Inv, Act;
      Lock(id);
      var granted := CheckGrants(id, key);
      if granted {
        Unlock(id, true, ByGrant);
        answer := Some(true);
      } else {
        Store(id);
        Publish(id);
        answer := None;
      }
    }

    /** Request from its answer on: the answer, which is one sent to this request. */
    method TakeAnswer(i: nat) returns (allowed: bool)
      requires Valid() && At(Now(), i, Waiting) && i in channels
      modifies this
      ensures Valid() && allowed == old(channels)[i] && !promptMu && i !in pendingRequests && i !in channels
      ensures i < |calls| && calls[i].pc.Finished? && calls[i].pc.allow == allowed
      ensures exists u :: 0 <= u < |replies| && replies[u].id == i && allowed == ReplyAllows(replies[u].kind)
    {
      hide Inv, Act, Holds;
      allowed := Receive(i);
      ghost var u := old(mail)[i];
      Forget(i, u);
      Unlock(i, allowed, ByReply(u));
    }

    /** A caller enters Request with a fresh id. */
    method Enter(key: Key) returns (i: nat)
      requires Valid()
      modifies this`calls, this`nextId
      ensures Valid() && Now() == Act(old(Now()), Step.Request(key)) && At(Now(), i, Arrived) && i == |old(calls)|
      ensures |calls| == i + 1 && calls[i].key == key
    {
      hide Inv;
      StepKeepsInv(Now(), Step.Request(key));
      i := nextId;
      nextId := nextId + 1;
      calls := calls + [Call(key, Arrived)];
    }

    method ReadMode(i: nat, session: string) returns (mode: Mode)
      requires Valid() && At(Now(), i, Arrived) && calls[i].key.session == session
      modifies this`calls
      ensures Valid() && Now() == Act(old(Now()), Step.ReadMode(i)) && mode == SessionMode(Tables(), session)
      ensures calls == old(calls)[i := old(calls)[i].(pc := AfterMode(mode))]
    {
      hide Inv, SessionMode;
      StepKeepsInv(Now(), Step.ReadMode(i));
      mode := SessionModeLocked(session);
      Move(i, AfterMode(mode));
    }

    method RecordRefusal(i: nat, root: string)
      requires Valid() && At(Now(), i, Refused(root))
      modifies this`denied, this`calls
      ensures Valid() && Now() == Act(old(Now()), Step.RecordRefusal(i)) && |calls| == |old(calls)|
      ensures denied == old(denied)[root := Refusals(old(denied), root) + [i]]
    {
      hide Inv;
      StepKeepsInv(Now(), Step.RecordRefusal(i));
      denied := denied[root := (if root in denied then denied[root] else []) + [i]];
      Move(i, Finished(false, ByMode(root)));
    }

    method Lock(i: nat)
      requires Valid() && At(Now(), i, Queued) && !promptMu
      modifies this`promptMu, this`holder, this`calls
      ensures Valid() && Now() == Act(old(Now()), Step.Lock(i)) && promptMu
      ensures calls == old(calls)[i := old(calls)[i].(pc := Admitted)]
    {
      hide Inv;
      StepKeepsInv(Now(), Step.Lock(i));
      promptMu, holder := true, Some(i);
      Move(i, Admitted);
    }

    method CheckGrants(i: nat, key: Key) returns (granted: bool)
      requires Valid() && At(Now(), i, Admitted) && calls[i].key == key
      modifies this`calls
      ensures Valid() && Now() == Act(old(Now()), Step.CheckGrants(i)) && (granted <==> key in sessionPermissions)
      ensures At(Now(), i, if granted then Leaving(true, ByGrant) else Unmatched) && |calls| == |old(calls)|
    {
      hide Inv;
      StepKeepsInv(Now(), Step.CheckGrants(i));
      granted := HasSessionGrant(key);
      Move(i, if granted then Leaving(true, ByGrant) else Unmatched);
    }

    method Store(i: nat)
      requires Valid() && At(Now(), i, Unmatched)
      modifies this`pendingRequests, this`calls
      ensures Valid() && Now() == Act(old(Now()), Step.Store(i)) && At(Now(), i, Stored) && |calls| == |old(calls)|
    {
      hide Inv;
      StepKeepsInv(Now(), Step.Store(i));
      pendingRequests := pendingRequests + {i};
      Move(i, Stored);
    }

    /** Whoever publishes is the only pending request. */
    method Publish(i: nat)
      requires Valid() && At(Now(), i, Stored)
      modifies this`published, this`calls
      ensures Valid() && Now() == Act(old(Now()), Step.Publish(i)) && pendingRequests == {i}
      ensures At(Now(), i, Waiting) && published == old(published) + [i] && |calls| == |old(calls)|
    {
      OnlyPending(Now(), i);
      hide Inv;
      StepKeepsInv(Now(), Step.Publish(i));
      published := published + [i];
      Move(i, Waiting);
    }

    /** The answer received is one that was sent to this request. */
    method Receive(i: nat) returns (allowed: bool)
      requires Valid() && At(Now(), i, Waiting) && i in channels
      modifies this`channels, this`mail, this`calls
      ensures Valid() && Now() == Act(old(Now()), Step.Receive(i)) && allowed == old(channels)[i]
      ensures i in old(mail) && At(Now(), i, Woken(old(mail)[i])) && channels == old(channels) - {i}
      ensures old(mail)[i] < |replies| && replies[old(mail)[i]].id == i && allowed == ReplyAllows(replies[old(mail)[i]].kind)
    {
      assert i in mail;
      MailIsFor(Now(), i);
      ReceiveIs(Now(), i);
      StepKeepsInv(Now(), Step.Receive(i));
      HoldsAfterTaking(channels, mail, replies, i);
      hide Inv, Act, Holds, ReplyAllows;
      allowed := channels[i];
      ghost var u := mail[i];
      channels, mail := channels - {i}, mail - {i};
      Move(i, Woken(u));
    }

    method Forget(i: nat, ghost u: nat)
      requires Valid() && At(Now(), i, Woken(u)) && u < |replies|
      modifies this`pendingRequests, this`calls
      ensures Valid() && Now() == Act(old(Now()), Step.Forget(i)) && pendingRequests == old(pendingRequests) - {i}
      ensures At(Now(), i, Leaving(ReplyAllows(replies[u].kind), ByReply(u)))
    {
      hide Inv;
      StepKeepsInv(Now(), Step.Forget(i));
      pendingRequests := pendingRequests - {i};
      Move(i, Leaving(ReplyAllows(replies[u].kind), ByReply(u)));
    }

    /** What a request returns is warranted: by a recorded grant with its key, or by
        an answer to its own id. */
    method Unlock(i: nat, allowed: bool, ghost cause: Cause)
      requires Valid() && At(Now(), i, Leaving(allowed, cause))
      modifies this`promptMu, this`holder, this`calls
      ensures Valid() && Now() == Act(old(Now()), Step.Unlock(i)) && !promptMu && |calls| == |old(calls)|
      ensures At(Now(), i, Finished(allowed, cause)) && !cause.ByMode? && Warranted(Now(), calls[i].key, i, allowed, cause)
    {
      LeavingIsWarranted(Now(), i);
      hide Inv, Warranted, Act;
      UnlockIs(Now(), i);
      StepKeepsInv(Now(), Step.Unlock(i));
      promptMu, holder := false, None;
      Move(i, Finished(allowed, cause));
      SameWarrant(old(Now()), Now(), calls[i].key, i, allowed, cause);
    }

    // --------------------------------------------------------------- answers

    /** A whole GrantPersistant, Grant or Deny with nobody else at work: the grant is
        recorded if it is persistent, and the request, if it is pending, has an answer. */
    method Reply(kind: Kind, id: nat, key: Key)
      requires Valid() && id !in channels
      modifies this`sessionPermissions, this`replies, this`channels, this`mail
      ensures Valid()
      ensures sessionPermissions == if kind == Persist then old(sessionPermissions) + [key] else old(sessionPermissions)
      ensures channels == if id in old(pendingRequests) then old(channels)[id := ReplyAllows(kind)] else old(channels)
    {
      hide Inv, Act;
      ghost var u := Answer(kind, id, key);
      var found := Load(u, id);
      if found {
        Send(u, id, kind != Deny);
      }
    }

    /** A persistent grant is recorded before its answer looks for the channel. */
    method Answer(kind: Kind, id: nat, key: Key) returns (ghost u: nat)
      requires Valid()
      modifies this`sessionPermissions, this`replies
      ensures Valid() && Now() == Act(old(Now()), Step.Answer(kind, id, key)) && u == |old(replies)|
      ensures replies == old(replies) + [Permissions.Reply(kind, id, key, Loading)]
      ensures sessionPermissions == if kind == Persist then old(sessionPermissions) + [key] else old(sessionPermissions)
    {
      hide Inv;
      StepKeepsInv(Now(), Step.Answer(kind, id, key));
      if kind == Persist {
        sessionPermissions := sessionPermissions + [key];
      }
      u := |replies|;
      replies := replies + [Permissions.Reply(kind, id, key, Loading)];
    }

    method Load(ghost u: nat, id: nat) returns (found: bool)
      requires Valid() && u < |replies| && replies[u].pc == Loading && replies[u].id == id
      modifies this`replies
      ensures Valid() && Now() == Act(old(Now()), Step.Load(u)) && (found <==> id in pendingRequests)
      ensures replies == old(replies)[u := old(replies)[u].(pc := if found then Sending else Dropped)]
    {
      hide Inv;
      StepKeepsInv(Now(), Step.Load(u));
      found := id in pendingRequests;
      replies := replies[u := replies[u].(pc := if found then Sending else Dropped)];
    }

    /** A send waits for the one-place channel to be empty. */
    method Send(ghost u: nat, id: nat, allow: bool)
      requires Valid() && u < |replies| && replies[u].pc == Sending && replies[u].id == id
      requires allow == ReplyAllows(replies[u].kind) && id !in channels
      modifies this`channels, this`mail, this`replies
      ensures Valid() && Now() == Act(old(Now()), Step.Send(u)) && channels == old(channels)[id := allow]
    {
      hide Inv, Act;
      SendIs(Now(), u);
      StepKeepsInv(Now(), Step.Send(u));
      channels := channels[id := allow];
      mail := mail[id := u];
      replies := replies[u := replies[u].(pc := Sent)];
    }
  }

  lemma ReceiveIs(s: State, i: nat)
    requires At(s, i, Waiting) && i in s.mail
    ensures Act(s, Step.Receive(i)) == Go(s, i, Woken(s.mail[i])).(mail := s.mail - {i})
  {
  }

  lemma UnlockIs(s: State, i: nat)
    requires i < |s.calls| && s.calls[i].pc.Leaving?
    ensures Act(s, Step.Unlock(i)) == Go(s, i, Finished(s.calls[i].pc.allow, s.calls[i].pc.cause)).(holder := None)
  {
  }

  lemma SendIs(s: State, u: nat)
    requires u < |s.replies| && s.replies[u].pc == Sending && s.replies[u].id !in s.mail
    ensures Act(s, Step.Send(u)) ==
      s.(replies := s.replies[u := s.replies[u].(pc := Sent)], mail := s.mail[s.replies[u].id := u])
  {
  }

  lemma MailIsFor(s: State, i: nat)
    requires Inv(s) && i in s.mail
    ensures s.mail[i] < |s.replies| && s.replies[s.mail[i]].id == i
  {
    assert Addressed(s);
  }

  lemma LeavingIsWarranted(s: State, i: nat)
    requires Inv(s) && i < |s.calls| && s.calls[i].pc.Leaving?
    ensures !s.calls[i].pc.cause.ByMode? && Warranted(s, s.calls[i].key, i, s.calls[i].pc.allow, s.calls[i].pc.cause)
  {
    assert Justified(s, s.calls[i], i);
  }

  lemma SameWarrant(s: State, t: State, key: Key, i: nat, allow: bool, cause: Cause)
    requires Warranted(s, key, i, allow, cause) && s.modes == t.modes && s.grants == t.grants && s.replies == t.replies
    ensures Warranted(t, key, i, allow, cause)
  {
  }

  /** A request that asks is the only one pending. */
  lemma OnlyPending(s: State, i: nat)
    requires Inv(s) && i < |s.calls| && Asking(s.calls[i].pc)
    ensures s.pending == {i}
  {
    assert s.holder == Some(i);
    forall j ensures j in s.pending <==> j == i {
      if j in s.pending {
        assert Inside(s.calls[j].pc);
      }
    }
  }
}
