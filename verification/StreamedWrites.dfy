/** Coalesced durable writes of streamed messages. Every operation holds the
    writer's lock from start to end, so a run is a sequence of whole operations;
    timers fire at any time between them, and a fired timer's callback waits for
    the lock like everyone else. */
module StreamedWrites {

  /** A durable row, and the step that produced its content. */
  datatype Row = Row(parts: string, version: nat)

  datatype Pending = Pending(row: Row, timer: nat)

  datatype State = State(
    rows: map<string, Row>,        // the message table
    pending: map<string, Pending>, // coalesced writes
    armed: map<nat, string>,       // timers counting down, by their message
    fired: multiset<string>,       // callbacks started but not yet run
    nextTimer: nat,
    used: set<string>,             // ids mentioned so far; a new id is none of them
    clock: nat)                    // steps taken so far

  datatype Step =
    | Create(id: string, parts: string)
    | Delete(id: string)
    | UpdateStreamed(id: string, parts: string)
    | Update(id: string, parts: string)
    | FlushStreamed(id: string)
    | FlushAll
    | TimerFires(timer: nat)
    | CallbackRuns(id: string)

  /** An UPDATE statement changes a row that exists. */
  function Put(rows: map<string, Row>, id: string, row: Row): map<string, Row> {
    if id in rows then rows[id := row] else rows
  }

  function Schedule(s: State, id: string, row: Row): State {
    if id in s.pending then s.(pending := s.pending[id := s.pending[id].(row := row)])
    else
      s.(pending := s.pending[id := Pending(row, s.nextTimer)],
         armed := s.armed[s.nextTimer := id],
         nextTimer := s.nextTimer + 1)
  }

  /** Dropping a pending write; stopping its timer has no effect once it has fired. */
  function Discard(s: State, id: string): State {
    if id in s.pending then s.(pending := s.pending - {id}, armed := s.armed - {s.pending[id].timer}) else s
  }

  function Flush(s: State, id: string): State {
    if id in s.pending then Discard(s, id).(rows := Put(s.rows, id, s.pending[id].row)) else s
  }

  function Timers(pending: map<string, Pending>): set<nat> {
    set id | id in pending :: pending[id].timer
  }

  /** Pending content over the rows that exist. */
  function Overlay(rows: map<string, Row>, pending: map<string, Pending>): (r: map<string, Row>)
    ensures r.Keys == rows.Keys
  {
    map id | id in rows :: if id in pending then pending[id].row else rows[id]
  }

  function FlushEverything(s: State): State {
    s.(rows := Overlay(s.rows, s.pending), pending := map[], armed := s.armed - Timers(s.pending))
  }

  function Mentions(step: Step): set<string> {
    if step.TimerFires? || step.FlushAll? then {} else {step.id}
  }

  function Fire(s: State, timer: nat): State {
    if timer in s.armed then s.(armed := s.armed - {timer}, fired := s.fired + multiset{s.armed[timer]}) else s
  }

  function Callback(s: State, id: string): State {
    if id in s.fired then Flush(s.(fired := s.fired - multiset{id}), id) else s
  }

  function Act(s: State, step: Step): State {
    match step
    case Create(id, parts) => if id in s.used then s else s.(rows := s.rows[id := Row(parts, s.clock)])
    case Delete(id) => s.(rows := s.rows - {id})
    case UpdateStreamed(id, parts) => Schedule(s, id, Row(parts, s.clock))
    case Update(id, parts) => Discard(s, id).(rows := Put(s.rows, id, Row(parts, s.clock)))
    case FlushStreamed(id) => Flush(s, id)
    case FlushAll => FlushEverything(s)
    case TimerFires(timer) => Fire(s, timer)
    case CallbackRuns(id) => Callback(s, id)
  }

  /** One operation or one timer event. */
  function Apply(s: State, step: Step): State {
    Act(s, step).(clock := s.clock + 1, used := s.used + Mentions(step))
  }

  /** A service that writes every update at once. */
  datatype Eager = Eager(rows: map<string, Row>, used: set<string>, clock: nat)

  function ApplyEager(e: Eager, step: Step): Eager {
    var rows := match step
      case Create(id, parts) => if id in e.used then e.rows else e.rows[id := Row(parts, e.clock)]
      case Delete(id) => e.rows - {id}
      case UpdateStreamed(id, parts) => Put(e.rows, id, Row(parts, e.clock))
      case Update(id, parts) => Put(e.rows, id, Row(parts, e.clock))
      case _ => e.rows;
    Eager(rows, e.used + Mentions(step), e.clock + 1)
  }

  function Run(s: State, steps: seq<Step>): State {
    if steps == [] then s else Apply(Run(s, steps[..|steps| - 1]), steps[|steps| - 1])
  }

  function RunEager(e: Eager, steps: seq<Step>): Eager {
    if steps == [] then e else ApplyEager(RunEager(e, steps[..|steps| - 1]), steps[|steps| - 1])
  }

  /** What a reader of the table and of the pending writes sees. */
  function Seen(s: State): Eager {
    Eager(Overlay(s.rows, s.pending), s.used, s.clock)
  }

  // -------------------------------------------------------------- invariants

  /** Every pending write will be flushed: its own timer is armed, or a callback
      for its message has been started. */
  ghost predicate Driven(s: State) {
    forall id :: id in s.pending ==>
      (s.pending[id].timer in s.armed && s.armed[s.pending[id].timer] == id) || id in s.fired
  }

  ghost predicate Fresh(s: State) {
    && (forall t :: t in s.armed ==> t < s.nextTimer)
    && (forall id :: id in s.pending ==> s.pending[id].timer < s.nextTimer)
    && (forall i, j :: i in s.pending && j in s.pending && i != j ==> s.pending[i].timer != s.pending[j].timer)
  }

  /** Pending content is newer than the row it will replace; nothing is newer than now. */
  ghost predicate Newer(s: State, now: nat) {
    && (forall id :: id in s.rows ==> s.rows[id].version < now)
    && (forall id :: id in s.pending ==> s.pending[id].row.version < now)
    && (forall id :: id in s.rows && id in s.pending ==> s.rows[id].version < s.pending[id].row.version)
  }

  ghost predicate Inv(s: State) {
    Driven(s) && Fresh(s) && Newer(s, s.clock) && s.rows.Keys + s.pending.Keys <= s.used
  }

  lemma DiscardKeeps(s: State, id: string, now: nat)
    requires Driven(s) && Fresh(s) && Newer(s, now)
    ensures Driven(Discard(s, id)) && Fresh(Discard(s, id)) && Newer(Discard(s, id), now)
  {
  }

  lemma FlushKeeps(s: State, id: string, now: nat)
    requires Driven(s) && Fresh(s) && Newer(s, now)
    ensures Driven(Flush(s, id)) && Fresh(Flush(s, id)) && Newer(Flush(s, id), now)
  {
  }

  lemma ScheduleKeeps(s: State, id: string, row: Row, now: nat)
    requires Driven(s) && Fresh(s) && Newer(s, now) && row.version == now
    ensures
      var t := Schedule(s, id, row);
      Driven(t) && Fresh(t) && Newer(t, now + 1)
  {
    hide *;
    ScheduleKeepsTimers(s, id, row);
    ScheduleKeepsNewer(s, id, row, now);
  }

  lemma ReplaceKeepsTimers(s: State, id: string, row: Row)
    requires Driven(s) && Fresh(s) && id in s.pending
    ensures
      var t := s.(pending := s.pending[id := s.pending[id].(row := row)]);
      Driven(t) && Fresh(t)
  {
  }

  lemma ArmKeepsTimers(s: State, id: string, row: Row)
    requires Driven(s) && Fresh(s) && id !in s.pending
    ensures
      var t := s.(pending := s.pending[id := Pending(row, s.nextTimer)],
                  armed := s.armed[s.nextTimer := id], nextTimer := s.nextTimer + 1);
      Driven(t) && Fresh(t)
  {
  }

  lemma ScheduleKeepsTimers(s: State, id: string, row: Row)
    requires Driven(s) && Fresh(s)
    ensures Driven(Schedule(s, id, row)) && Fresh(Schedule(s, id, row))
  {
    hide Driven, Fresh;
    if id in s.pending {
      ReplaceKeepsTimers(s, id, row);
    } else {
      ArmKeepsTimers(s, id, row);
    }
  }

  lemma ScheduleKeepsNewer(s: State, id: string, row: Row, now: nat)
    requires Newer(s, now) && row.version == now
    ensures Newer(Schedule(s, id, row), now + 1)
  {
  }

  lemma FireKeeps(s: State, timer: nat, now: nat)
    requires Driven(s) && Fresh(s) && Newer(s, now)
    ensures Driven(Fire(s, timer)) && Fresh(Fire(s, timer)) && Newer(Fire(s, timer), now)
  {
  }

  /** A callback that finds another pending write than the one it was started for
      flushes it early; no pending write is left without a timer. */
  lemma CallbackKeeps(s: State, id: string, now: nat)
    requires Driven(s) && Fresh(s) && Newer(s, now)
    ensures Driven(Callback(s, id)) && Fresh(Callback(s, id)) && Newer(Callback(s, id), now)
  {
  }

  lemma FlushEverythingKeeps(s: State, now: nat)
    requires Driven(s) && Fresh(s) && Newer(s, now)
    ensures
      var t := FlushEverything(s);
      Driven(t) && Fresh(t) && Newer(t, now)
  {
  }

  /** A new row or a direct write, once nothing is pending for it. */
  lemma WriteKeeps(s: State, id: string, row: Row, now: nat)
    requires Driven(s) && Fresh(s) && Newer(s, now) && row.version == now && id !in s.pending
    ensures
      var t := s.(rows := s.rows[id := row]);
      Driven(t) && Fresh(t) && Newer(t, now + 1)
  {
  }

  lemma DeleteKeeps(s: State, id: string, now: nat)
    requires Driven(s) && Fresh(s) && Newer(s, now)
    ensures
      var t := s.(rows := s.rows - {id});
      Driven(t) && Fresh(t) && Newer(t, now)
  {
  }

  lemma UpdateKeeps(s: State, id: string, row: Row, now: nat)
    requires Driven(s) && Fresh(s) && Newer(s, now) && row.version == now
    ensures
      var t := Discard(s, id).(rows := Put(s.rows, id, row));
      Driven(t) && Fresh(t) && Newer(t, now + 1)
  {
    var d := Discard(s, id);
    assert d.rows == s.rows && id !in d.pending;
    assert d.(rows := s.rows) == d;
    hide Driven, Fresh, Newer, Discard;
    DiscardKeeps(s, id, now);
    LaterKeeps(d, now);
    if id in s.rows {
      WriteKeeps(d, id, row, now);
    }
  }

  lemma LaterKeeps(s: State, now: nat)
    requires Newer(s, now)
    ensures Newer(s, now + 1)
  {
  }

  lemma ActKeeps(s: State, step: Step)
    requires Inv(s)
    ensures Driven(Act(s, step)) && Fresh(Act(s, step)) && Newer(Act(s, step), s.clock + 1)
  {
    hide Flush, FlushEverything, Fire, Callback, Schedule, Discard, Put, Driven, Fresh, Newer;
    LaterKeeps(s, s.clock);
    match step
    case Create(id, parts) =>
      if id !in s.used {
        WriteKeeps(s, id, Row(parts, s.clock), s.clock);
      }
    case Delete(id) => DeleteKeeps(s, id, s.clock + 1);
    case UpdateStreamed(id, parts) => ScheduleKeeps(s, id, Row(parts, s.clock), s.clock);
    case Update(id, parts) => UpdateKeeps(s, id, Row(parts, s.clock), s.clock);
    case FlushStreamed(id) => FlushKeeps(s, id, s.clock + 1);
    case FlushAll => FlushEverythingKeeps(s, s.clock + 1);
    case TimerFires(timer) => FireKeeps(s, timer, s.clock + 1);
    case CallbackRuns(id) => CallbackKeeps(s, id, s.clock + 1);
  }

  lemma TickKeeps(s: State, now: nat, used: set<string>)
    requires Driven(s) && Fresh(s) && Newer(s, now) && s.rows.Keys + s.pending.Keys <= used
    ensures Inv(s.(clock := now, used := used))
  {
  }

  lemma ActMentions(s: State, step: Step)
    ensures
      var t := Act(s, step);
      t.rows.Keys + t.pending.Keys <= s.rows.Keys + s.pending.Keys + Mentions(step)
  {
    hide Timers;
  }

  lemma StepKeepsInv(s: State, step: Step)
    requires Inv(s)
    ensures Inv(Apply(s, step))
  {
    hide Act, Driven, Fresh, Newer, Mentions;
    ActKeeps(s, step);
    ActMentions(s, step);
    TickKeeps(Act(s, step), s.clock + 1, s.used + Mentions(step));
  }

  lemma {:induction false} RunKeepsInv(s: State, steps: seq<Step>)
    requires Inv(s)
    ensures Inv(Run(s, steps)) && Run(s, steps).clock == s.clock + |steps|
  {
    if steps != [] {
      RunKeepsInv(s, steps[..|steps| - 1]);
      StepKeepsInv(Run(s, steps[..|steps| - 1]), steps[|steps| - 1]);
    }
  }

  // -------------------------------------------------------------- refinement

  lemma FlushIsInvisible(s: State, id: string)
    ensures Overlay(Flush(s, id).rows, Flush(s, id).pending) == Overlay(s.rows, s.pending)
  {
  }

  lemma FlushAllIsInvisible(s: State)
    ensures Overlay(FlushEverything(s).rows, map[]) == Overlay(s.rows, s.pending)
  {
  }

  lemma ScheduleShows(s: State, id: string, row: Row)
    ensures Overlay(s.rows, Schedule(s, id, row).pending) == Put(Overlay(s.rows, s.pending), id, row)
  {
  }

  lemma UpdateShows(s: State, id: string, row: Row)
    ensures Overlay(Put(s.rows, id, row), Discard(s, id).pending) == Put(Overlay(s.rows, s.pending), id, row)
  {
  }

  lemma CreateShows(s: State, id: string, row: Row)
    requires id !in s.pending
    ensures Overlay(s.rows[id := row], s.pending) == Overlay(s.rows, s.pending)[id := row]
  {
  }

  lemma DeleteShows(s: State, id: string)
    ensures Overlay(s.rows - {id}, s.pending) == Overlay(s.rows, s.pending) - {id}
  {
  }

  lemma StepRefines(s: State, step: Step)
    requires Inv(s)
    ensures Seen(Apply(s, step)) == ApplyEager(Seen(s), step)
  {
    hide Overlay, Flush, Put, Mentions, Driven, Fresh, Newer;
    match step
    case Create(id, parts) =>
      if id !in s.used {
        CreateShows(s, id, Row(parts, s.clock));
      }
    case Delete(id) => DeleteShows(s, id);
    case UpdateStreamed(id, parts) => ScheduleShows(s, id, Row(parts, s.clock));
    case Update(id, parts) => UpdateShows(s, id, Row(parts, s.clock));
    case FlushStreamed(id) => FlushIsInvisible(s, id);
    case FlushAll => FlushAllIsInvisible(s);
    case TimerFires(_) =>
    case CallbackRuns(id) => FlushIsInvisible(s.(fired := s.fired - multiset{id}), id);
  }

  /** In every interleaving of operations, timer firings and late callbacks, the
      table overlaid with the pending writes is the table that writes every update
      at once. */
  lemma {:induction false} CoalescingRefinesEager(s: State, steps: seq<Step>)
    requires Inv(s)
    ensures Seen(Run(s, steps)) == RunEager(Seen(s), steps)
  {
    if steps != [] {
      hide Seen, Apply, ApplyEager, Inv;
      var init := steps[..|steps| - 1];
      CoalescingRefinesEager(s, init);
      RunKeepsInv(s, init);
      StepRefines(Run(s, init), steps[|steps| - 1]);
    }
  }

  /** Once no timer is armed and no callback is waiting, everything is durable. */
  lemma QuietIsDurable(s: State, steps: seq<Step>)
    requires Inv(s) && Run(s, steps).armed == map[] && Run(s, steps).fired == multiset{}
    ensures Run(s, steps).rows == RunEager(Seen(s), steps).rows
  {
    hide Run, RunEager;
    CoalescingRefinesEager(s, steps);
    RunKeepsInv(s, steps);
    assert Run(s, steps).pending == map[];
  }

  // -------------------------------------------------------------- coalescing

  /** Every armed timer is the one of a pending write of its message. */
  ghost predicate Owned(s: State) {
    forall t :: t in s.armed ==> s.armed[t] in s.pending && s.pending[s.armed[t]].timer == t
  }

  lemma FlushOwned(s: State, id: string)
    requires Owned(s)
    ensures Owned(Flush(s, id)) && Owned(Discard(s, id))
  {
  }

  lemma FlushAllOwned(s: State)
    requires Owned(s)
    ensures Owned(FlushEverything(s))
  {
    forall t | t in s.armed ensures t in Timers(s.pending) {
      assert s.armed[t] in s.pending;
    }
  }

  lemma ScheduleOwned(s: State, id: string, row: Row)
    requires Owned(s) && Fresh(s)
    ensures Owned(Schedule(s, id, row))
  {
  }

  lemma StepKeepsOwned(s: State, step: Step)
    requires Owned(s) && Inv(s)
    ensures Owned(Apply(s, step))
  {
    match step
    case UpdateStreamed(id, parts) => ScheduleOwned(s, id, Row(parts, s.clock));
    case Update(id, parts) => FlushOwned(s, id);
    case FlushStreamed(id) => FlushOwned(s, id);
    case FlushAll => FlushAllOwned(s);
    case CallbackRuns(id) => FlushOwned(s.(fired := s.fired - multiset{id}), id);
    case _ =>
  }

  /** In every run a message has at most one timer armed, and none without a pending
      write: what is flushed or replaced by a direct write takes its timer along. */
  lemma {:induction false} RunKeepsOwned(s: State, steps: seq<Step>)
    requires Owned(s) && Inv(s)
    ensures Owned(Run(s, steps))
  {
    if steps != [] {
      hide Apply, Owned, Inv;
      RunKeepsOwned(s, steps[..|steps| - 1]);
      RunKeepsInv(s, steps[..|steps| - 1]);
      StepKeepsOwned(Run(s, steps[..|steps| - 1]), steps[|steps| - 1]);
    }
  }

  function Deltas(id: string, parts: seq<string>): seq<Step> {
    seq(|parts|, i requires 0 <= i < |parts| => UpdateStreamed(id, parts[i]))
  }

  /** Nothing is written since s; the message's newest content is pending, on the timer
      it had or on the one timer armed since. */
  ghost predicate OnlyPending(s: State, t: State, id: string, row: Row) {
    var timer := if id in s.pending then s.pending[id].timer else s.nextTimer;
    && t.rows == s.rows && t.fired == s.fired && t.pending == s.pending[id := Pending(row, timer)]
    && t.armed == (if id in s.pending then s.armed else s.armed[timer := id])
  }

  lemma FirstDelta(s: State, id: string, parts: string)
    ensures
      var t := Apply(s, UpdateStreamed(id, parts));
      OnlyPending(s, t, id, Row(parts, s.clock)) && t.clock == s.clock + 1
  {
  }

  lemma NextDelta(s: State, t: State, id: string, row: Row, parts: string)
    requires OnlyPending(s, t, id, row)
    ensures
      var u := Apply(t, UpdateStreamed(id, parts));
      OnlyPending(s, u, id, Row(parts, t.clock)) && u.clock == t.clock + 1
  {
  }

  lemma RunNext(s: State, id: string, init: seq<string>, last: string)
    ensures Run(s, Deltas(id, init + [last])) == Apply(Run(s, Deltas(id, init)), UpdateStreamed(id, last))
  {
    hide Apply;
    assert Deltas(id, init + [last])[..|init|] == Deltas(id, init);
  }

  /** Any number of streamed updates of a message in a row write nothing, arm one timer
      at most, and leave the last content pending; a timer already armed stays. */
  lemma {:induction false} DeltasCoalesce(s: State, id: string, parts: seq<string>)
    requires parts != []
    ensures
      var t := Run(s, Deltas(id, parts));
      OnlyPending(s, t, id, Row(parts[|parts| - 1], s.clock + |parts| - 1)) && t.clock == s.clock + |parts|
  {
    var init, last := parts[..|parts| - 1], parts[|parts| - 1];
    assert parts == init + [last];
    RunNext(s, id, init, last);
    if init == [] {
      assert Run(s, Deltas(id, init)) == s;
      FirstDelta(s, id, last);
    } else {
      DeltasCoalesce(s, id, init);
      hide Apply, OnlyPending, Run, Deltas;
      NextDelta(s, Run(s, Deltas(id, init)), id, Row(init[|init| - 1], s.clock + |init| - 1), last);
    }
  }

  // ---------------------------------------------------------------- ordering

  lemma StepNeverReverts(s: State, step: Step, id: string)
    requires Inv(s) && id in s.rows && step != Delete(id)
    ensures id in Apply(s, step).rows && Apply(s, step).rows[id].version >= s.rows[id].version
  {
  }

  predicate Deletes(steps: seq<Step>, id: string) {
    Delete(id) in steps
  }

  /** A row never goes back to older content. */
  lemma {:induction false} RowsNeverRevert(s: State, steps: seq<Step>, id: string)
    requires Inv(s) && id in s.rows && !Deletes(steps, id)
    ensures id in Run(s, steps).rows && Run(s, steps).rows[id].version >= s.rows[id].version
  {
    if steps != [] {
      var init, last := steps[..|steps| - 1], steps[|steps| - 1];
      assert steps == init + [last];
      RowsNeverRevert(s, init, id);
      RunKeepsInv(s, init);
      assert last != Delete(id);
      hide Apply, Inv;
      StepNeverReverts(Run(s, init), last, id);
    }
  }

  /** After a direct update, whatever happens next, the row never holds anything
      that was buffered before it. */
  lemma NothingLandsAfterUpdate(s: State, id: string, parts: string, later: seq<Step>)
    requires Inv(s) && id in s.rows && !Deletes(later, id)
    ensures
      var t := Apply(s, Update(id, parts));
      && t.rows[id] == Row(parts, s.clock) && id !in t.pending
      && id in Run(t, later).rows && Run(t, later).rows[id].version >= s.clock
  {
    var t := Apply(s, Update(id, parts));
    StepKeepsInv(s, Update(id, parts));
    RowsNeverRevert(t, later, id);
  }

  /** The pending entry is dropped before it is written. If that write fails, the
      update is lost exactly when the row exists and held something else. */
  lemma FailedFlushLosesIff(s: State, id: string)
    ensures Overlay(s.rows, Discard(s, id).pending) == Overlay(s.rows, s.pending) <==>
      (id in s.pending && id in s.rows ==> s.pending[id].row == s.rows[id])
  {
    var after, before := Overlay(s.rows, Discard(s, id).pending), Overlay(s.rows, s.pending);
    if id in s.pending && id in s.rows {
      assert after[id] == s.rows[id] && before[id] == s.pending[id].row;
    }
    if id in s.pending && id in s.rows ==> s.pending[id].row == s.rows[id] {
      assert forall k :: k in s.rows ==> after[k] == before[k];
    }
  }

  // ------------------------------------------------------------ the service

  class Service {
    var rows: map<string, Row>
    var pending: map<string, Pending>
    var armed: map<nat, string>
    var fired: multiset<string>
    var nextTimer: nat
    var clock: nat
    ghost var used: set<string>

    ghost function Now(): State
      reads this
    {
      State(rows, pending, armed, fired, nextTimer, used, clock)
    }

    constructor ()
      ensures Inv(Now()) && Owned(Now()) && rows == map[] && pending == map[]
    {
      rows, pending, armed, fired, nextTimer, clock, used := map[], map[], map[], multiset{}, 0, 0, {};
    }

    /** Start a timer for the message, or keep the one that is running. */
    method ScheduleWrite(id: string, row: Row)
      modifies this
      ensures Now() == Schedule(old(Now()), id, row)
    {
      if id in pending {
        pending := pending[id := pending[id].(row := row)];
        return;
      }
      var timer := nextTimer;
      nextTimer := nextTimer + 1;
      armed := armed[timer := id];
      pending := pending[id := Pending(row, timer)];
    }

    method DiscardLocked(id: string)
      modifies this
      ensures Now() == Discard(old(Now()), id)
    {
      if id in pending {
        armed := armed - {pending[id].timer};
        pending := pending - {id};
      }
    }

    method Persist(id: string, row: Row)
      modifies this`rows
      ensures rows == Put(old(rows), id, row)
    {
      if id in rows {
        rows := rows[id := row];
      }
    }

    method FlushLocked(id: string)
      modifies this
      ensures Now() == Flush(old(Now()), id)
    {
      if id !in pending {
        return;
      }
      var p := pending[id];
      pending := pending - {id};
      armed := armed - {p.timer};
      Persist(id, p.row);
    }

    method FlushPending()
      modifies this
      ensures Now() == FlushEverything(old(Now()))
    {
      var left := pending.Keys;
      ghost var s := Now();
      FlushNone(s);
      while left != {}
        invariant left == pending.Keys <= s.pending.Keys
        invariant Now() == FlushSome(s, s.pending.Keys - left)
        decreases left
      {
        var id :| id in left;
        ghost var done := s.pending.Keys - left;
        FlushOneMore(s, done, id);
        FlushLocked(id);
        left := left - {id};
        assert s.pending.Keys - left == done + {id};
      }
      FlushTheRest(s);
      assert s.pending.Keys - left == s.pending.Keys;
    }

    method Create(id: string, parts: string)
      requires id !in used
      modifies this
      ensures Now() == Apply(old(Now()), Step.Create(id, parts))
    {
      rows := rows[id := Row(parts, clock)];
      clock, used := clock + 1, used + {id};
    }

    method Delete(id: string)
      modifies this
      ensures Now() == Apply(old(Now()), Step.Delete(id))
    {
      rows := rows - {id};
      clock, used := clock + 1, used + {id};
    }

    method UpdateStreamed(id: string, parts: string)
      modifies this
      ensures Now() == Apply(old(Now()), Step.UpdateStreamed(id, parts))
    {
      ScheduleWrite(id, Row(parts, clock));
      clock, used := clock + 1, used + {id};
    }

    method Update(id: string, parts: string)
      modifies this
      ensures Now() == Apply(old(Now()), Step.Update(id, parts))
    {
      DiscardLocked(id);
      Persist(id, Row(parts, clock));
      clock, used := clock + 1, used + {id};
    }

    method FlushStreamed(id: string)
      modifies this
      ensures Now() == Apply(old(Now()), Step.FlushStreamed(id))
    {
      FlushLocked(id);
      clock, used := clock + 1, used + {id};
    }

    method FlushAll()
      modifies this
      ensures Now() == Apply(old(Now()), Step.FlushAll)
    {
      FlushPending();
      clock := clock + 1;
    }

    /** The runtime starts the callback of an armed timer. */
    method TimerFires(timer: nat)
      modifies this
      ensures Now() == Apply(old(Now()), Step.TimerFires(timer))
    {
      if timer in armed {
        fired := fired + multiset{armed[timer]};
        armed := armed - {timer};
      }
      clock := clock + 1;
    }

    method RunCallback(id: string)
      modifies this
      ensures Now() == Callback(old(Now()), id) && clock == old(clock) && used == old(used)
    {
      if id in fired {
        fired := fired - multiset{id};
        FlushLocked(id);
      }
    }

    /** A started callback gets the lock. */
    method CallbackRuns(id: string)
      modifies this
      ensures Now() == Apply(old(Now()), Step.CallbackRuns(id))
    {
      hide Callback;
      RunCallback(id);
      clock, used := clock + 1, used + {id};
    }
  }

  /** The pending writes of some ids flushed. */
  ghost function FlushSome(s: State, ids: set<string>): State {
    s.(rows := map id | id in s.rows :: if id in ids && id in s.pending then s.pending[id].row else s.rows[id],
       pending := s.pending - ids,
       armed := s.armed - (set id | id in ids && id in s.pending :: s.pending[id].timer))
  }

  lemma FlushNone(s: State)
    ensures FlushSome(s, s.pending.Keys - s.pending.Keys) == s
  {
  }

  lemma FlushOneMore(s: State, ids: set<string>, id: string)
    requires id in s.pending && id !in ids
    ensures Flush(FlushSome(s, ids), id) == FlushSome(s, ids + {id})
  {
    var a, b := Flush(FlushSome(s, ids), id), FlushSome(s, ids + {id});
    assert a.pending == b.pending;
    assert a.rows == b.rows;
    assert a.armed == b.armed;
  }

  lemma FlushTheRest(s: State)
    ensures FlushSome(s, s.pending.Keys) == FlushEverything(s)
  {
    var a, b := FlushSome(s, s.pending.Keys), FlushEverything(s);
    assert a.pending == b.pending;
    assert a.rows == b.rows;
    assert a.armed == b.armed;
  }
}
