/** A batch on a whole run: spawned once, and collected before its task can be left. */
module Batches {
  import opened Common
  import opened ProcessTree
  import opened TreeSteps
  import E = Advance
  import P = AdvanceProofs
  import V = Visits

  // The row stands at the task whose batch it has spawned: while it runs it waits or collects, and
  // a running copy of it was claimed to collect.
  ghost predicate Held(s: State, p: Id, task: string) {
    && p in s.rows && s.rows[p].task == task && task != ""
    && (exists k :: ChildOf(s.rows, k, p) && s.rows[k].spawnTask == task)
    && (s.rows[p].status.Running? ==> s.rows[p].wait.Waiting? || s.rows[p].wait.Collecting?)
    && (p in s.live && s.live[p].inst.status.Running? ==> s.live[p].inst.wait.Collecting?)
  }

  // An advance of the row's own that leaves it where it stands can only be a terminal one.
  predicate Leaves(e: Event, p: Id, task: string) {
    e.EvReturn? && e.id == p && !(e.o.Finish? && e.o.v.task == task)
  }

  lemma HeldFramed(s: State, s': State, p: Id, task: string)
    requires Held(s, p, task) && Framed(s.rows, s'.rows)
    requires s'.rows[p].task == task && (s'.rows[p].status.Running? ==> s'.rows[p].wait.Waiting? || s'.rows[p].wait.Collecting?)
    requires p in s'.live && s'.live[p].inst.status.Running? ==> s'.live[p].inst.wait.Collecting?
    ensures Held(s', p, task)
  {
    var k :| ChildOf(s.rows, k, p) && s.rows[k].spawnTask == task;
    assert ChildOf(s'.rows, k, p);
  }

  lemma ReturnFrames(s: State, id: Id, o: Outcome, s': State)
    requires Inv(s) && Step(s, EvReturn(id, o), s')
    ensures Framed(s.rows, s'.rows) && s'.live == s.live - {id}
    ensures !o.Finish? ==> forall j :: j in s.rows && j != id ==> s'.rows[j] == s.rows[j]
  {
    assert LiveAgrees(s, id);
    if o.Finish? { SettledFramed(s, id, o.v, s'); }
  }

  // Whatever ends elsewhere leaves a held batch held: the last member to end has it collected.
  lemma ReturnElsewhereHolds(s: State, id: Id, o: Outcome, s': State, p: Id, task: string)
    requires Inv(s) && Step(s, EvReturn(id, o), s') && Held(s, p, task) && id != p
    ensures Held(s', p, task)
  {
    ReturnFrames(s, id, o, s');
    if o.Finish? {
      SettledOther(s, id, o.v, s', p);
      assert LiveAgrees(s, id);
      if p == s.rows[id].parent { WakesToCollect(s, id, o.v, s', p); }
    }
    HeldFramed(s, s', p, task);
  }

  lemma WakesToCollect(s: State, id: Id, v: Row, s': State, p: Id)
    requires Inv(s) && Settle(s, id, v, s') && id in s.rows && p == s.rows[id].parent && p in s.rows && p in s'.rows
    ensures s'.rows[p].status.Running? ==> s'.rows[p].wait.Waiting? || s'.rows[p].wait.Collecting?
  {
    assert RowHolds(s, id);
    assert LiveAgrees(s, id);
  }

  // The row's own advance, when it stays at the task, has ended the instance.
  lemma OwnEndHolds(s: State, p: Id, v: Row, s': State, task: string)
    requires Inv(s) && Step(s, EvReturn(p, Finish(v)), s') && Held(s, p, task) && v.task == task
    ensures Held(s', p, task)
  {
    ReturnFrames(s, p, Finish(v), s');
    assert LiveAgrees(s, p);
    HeldFramed(s, s', p, task);
  }

  lemma RetryHolds(s: State, root: Id, s': State, p: Id, task: string)
    requires Inv(s) && Step(s, EvRetry(root), s') && Held(s, p, task)
    ensures Held(s', p, task)
  {
    forall j | j in s.rows ensures SameIdentity(s.rows[j], s'.rows[j]) { RetriedStatus(s, root, s', j); }
    RetriedStatus(s, root, s', p);
    if InTree(s.rows, root, p) && Stopped(s.rows[p]) {
      assert HasBatch(s.rows, p);
      RevivedBatch(s, root, s', p);
    }
    HeldFramed(s, s', p, task);
  }

  lemma LeasesHold(s: State, e: Event, s': State, p: Id, task: string)
    requires Inv(s) && Step(s, e, s') && Held(s, p, task) && (e.EvClaim? || e.EvRenew? || e.EvTick? || e.EvCrash?)
    ensures Held(s', p, task)
  {
    HeldFramed(s, s', p, task);
  }

  lemma OtherHolds(s: State, e: Event, s': State, p: Id, task: string)
    requires Inv(s) && Step(s, e, s') && Held(s, p, task) && (e.EvCreate? || e.EvUnpark? || e.EvCancel?)
    ensures Held(s', p, task)
  {
    assert Framed(s.rows, s'.rows);
    assert p in s.live ==> LiveAgrees(s, p);
    HeldFramed(s, s', p, task);
  }

  lemma HeldStep(s: State, e: Event, s': State, p: Id, task: string)
    requires Inv(s) && Step(s, e, s') && Held(s, p, task) && !Leaves(e, p, task)
    ensures Held(s', p, task)
  {
    hide Inv, Held, Step;
    match e
    case EvReturn(id, o) =>
      if id == p { OwnEndHolds(s, p, o.v, s', task); } else { ReturnElsewhereHolds(s, id, o, s', p, task); }
    case EvRetry(root) => RetryHolds(s, root, s', p, task);
    case EvClaim(_, _, _) => LeasesHold(s, e, s', p, task);
    case EvRenew(_, _) => LeasesHold(s, e, s', p, task);
    case EvTick => LeasesHold(s, e, s', p, task);
    case EvCrash(_) => LeasesHold(s, e, s', p, task);
    case EvCreate(_, _) => OtherHolds(s, e, s', p, task);
    case EvUnpark(_) => OtherHolds(s, e, s', p, task);
    case EvCancel(_) => OtherHolds(s, e, s', p, task);
  }

  lemma SpawnHolds(s: State, p: Id, v: Row, children: map<Id, string>, s': State)
    requires Inv(s) && Step(s, EvReturn(p, Spawn(v, children)), s') && children != map[]
    ensures Held(s', p, v.task)
  {
    assert LiveAgrees(s, p) && RowHolds(s, p);
    var k :| k in children;
    assert ChildOf(s'.rows, k, p);
  }

  lemma {:induction false} HeldUntilLeft(states: seq<State>, events: seq<Event>, i: nat, n: nat, p: Id, v: Row, children: map<Id, string>)
    requires Run(states, events) && i < n < |states| && events[i] == EvReturn(p, Spawn(v, children)) && children != map[]
    requires forall k :: i < k < n ==> !Leaves(events[k], p, v.task)
    ensures Held(states[n], p, v.task)
    decreases n
  {
    hide Inv, Held, Step;
    RunHolds(states, events, n - 1);
    assert Step(states[n - 1], events[n - 1], states[n]);
    if n == i + 1 {
      SpawnHolds(states[i], p, v, children, states[n]);
    } else {
      HeldUntilLeft(states, events, i, n - 1, p, v, children);
      HeldStep(states[n - 1], events[n - 1], states[n], p, v.task);
    }
  }

  // On every run, from the spawn of a batch until an advance of its own takes the row off the task,
  // a running row waits or collects, and a worker that advances it while it runs was given it to
  // collect: cancels, failures, takeovers and revivals in between change nothing about that.
  lemma BatchIsCollected(states: seq<State>, events: seq<Event>, i: nat, n: nat, p: Id, v: Row, children: map<Id, string>)
    requires Run(states, events) && i < n < |states| && events[i] == EvReturn(p, Spawn(v, children)) && children != map[]
    requires forall k :: i < k < n && events[k].EvReturn? && events[k].id == p ==> events[k].o.Finish? && events[k].o.v.task == v.task
    ensures p in states[n].rows && states[n].rows[p].task == v.task
    ensures states[n].rows[p].status.Running? ==> (states[n].rows[p].wait.Waiting? <==> HasActiveChild(states[n].rows, p))
    ensures states[n].rows[p].status.Running? ==> (states[n].rows[p].wait.Collecting? <==> !HasActiveChild(states[n].rows, p))
    ensures p in states[n].live && states[n].live[p].inst.status.Running? ==> states[n].live[p].inst.wait.Collecting?
  {
    hide Inv, Step;
    HeldUntilLeft(states, events, i, n, p, v, children);
    RunHolds(states, events, n);
    WaitingIffActiveChild(states[n], p);
  }

  // --- the engine's advances on such a run ---

  // The advance x, of a task that spawns, is the one that returns at step n of the run.
  ghost predicate Returns(p: E.Process, x: V.Turn, states: seq<State>, events: seq<Event>, n: nat, id: Id)
    requires |states| == |events| + 1
  {
    && n < |events| && id in states[n].live
    && var c := states[n].live[id];
    && x.from == P.FromRow(c.inst, x.from.data) && x.reclaimed == c.reclaimed
    && events[n] == EvReturn(id, P.ToOutcome(E.AdvanceEnd(Ok(p), x.w, x.from, x.reclaimed, x.limit), c.inst))
  }

  // The advances of one visit to the spawn task at idx, each at its step of the run, and no other
  // return of the row among them; none but the last moves the row on, and no batch is empty.
  ghost predicate OnRun(p: E.Process, idx: int, turns: seq<V.Turn>, states: seq<State>, events: seq<Event>, at: seq<nat>, id: Id)
    requires |states| == |events| + 1
  {
    && |at| == |turns|
    && (forall k :: 0 <= k < |turns| ==> V.At(p, idx, turns[k].from) && Returns(p, turns[k], states, events, at[k], id))
    && (forall j, k :: 0 <= j < k < |at| ==> at[j] < at[k])
    && (forall n, k :: 0 <= k < |at| - 1 && at[k] < n < at[k + 1] ==> !(events[n].EvReturn? && events[n].id == id))
    && (forall k :: 0 <= k < |turns| - 1 ==> !events[at[k]].o.Progress?)
    && (forall k :: 0 <= k < |turns| && events[at[k]].o.Spawn? ==> events[at[k]].o.children != map[])
  }

  // At a task that spawns an advance ends there, unless it goes on to the next one.
  lemma SpawnTurnEnds(p: E.Process, idx: int, x: V.Turn)
    requires V.At(p, idx, x.from) && P.IsSpawnAction(p.tasks[idx].action)
    ensures var e := E.AdvanceEnd(Ok(p), x.w, x.from, x.reclaimed, x.limit);
            e.kind.Progress? || ((e.kind.Spawned? || e.kind.Terminal?) && e.inst.task == x.from.task)
  {
    var t, s := p.tasks[idx], x.from;
    assert s.(task := t.id) == s;
    hide E.Leave;
    var e := E.AdvanceEnd(Ok(p), x.w, s, x.reclaimed, x.limit);
    if e == E.Loop(p, x.w, s, idx, x.limit) {
      match E.Act(p, x.w, s, t)
      case Halt(_) =>
      case Acted(a, result) =>
        V.LeavesCleanly(p, a, idx, result, E.Previous(s, t));
    }
  }

  // The steps between two turns at which the row returns are those of the turns between them.
  lemma {:induction false} StepsAreTurns(events: seq<Event>, at: seq<nat>, id: Id, i: nat, j: nat, n: nat) returns (m: nat)
    requires i < j < |at| && at[i] < n < at[j] < |events| && events[n].EvReturn? && events[n].id == id
    requires forall n, k :: 0 <= k < |at| - 1 && at[k] < n < at[k + 1] && n < |events| ==> !(events[n].EvReturn? && events[n].id == id)
    ensures i < m < j && at[m] == n
    decreases j - i
  {
    if n == at[i + 1] {
      m := i + 1;
    } else {
      assert !(at[i] < n < at[i + 1]);
      m := StepsAreTurns(events, at, id, i + 1, j, n);
    }
  }

  // The row is claimed at its task only to collect, once the batch is there.
  lemma {:induction false} TurnCollects(p: E.Process, idx: int, turns: seq<V.Turn>, states: seq<State>, events: seq<Event>, at: seq<nat>,
                                        id: Id, i: nat, j: nat)
    requires Run(states, events) && OnRun(p, idx, turns, states, events, at, id)
    requires E.InList(p, idx) && P.IsSpawnAction(p.tasks[idx].action) && i < j < |turns| && V.Spawns(p, idx, turns[i])
    ensures turns[j].from.wait.Collecting?
    decreases j
  {
    hide Inv, Step, V.Spawns, E.AdvanceEnd;
    assert Returns(p, turns[i], states, events, at[i], id) && Returns(p, turns[j], states, events, at[j], id);
    SpawnTurnEnds(p, idx, turns[i]);
    assert E.AdvanceEnd(Ok(p), turns[i].w, turns[i].from, turns[i].reclaimed, turns[i].limit).kind.Spawned? by { SpawnsKind(p, idx, turns[i]); }
    var v, children := events[at[i]].o.v, events[at[i]].o.children;
    forall n | at[i] < n < at[j] ensures !Leaves(events[n], id, v.task) {
      if events[n].EvReturn? && events[n].id == id {
        var m := StepsAreTurns(events, at, id, i, j, n);
        assert Returns(p, turns[m], states, events, at[m], id);
        TurnCollects(p, idx, turns, states, events, at, id, i, m);
        SpawnTurnEnds(p, idx, turns[m]);
        V.CollectingNeverSpawns(p, idx, turns[m]);
        NotSpawned(p, idx, turns[m]);
        assert turns[m].from.task == turns[i].from.task;
      }
    }
    HeldUntilLeft(states, events, at[i], at[j], id, v, children);
  }

  lemma SpawnsKind(p: E.Process, idx: int, x: V.Turn)
    requires V.Spawns(p, idx, x)
    ensures E.AdvanceEnd(Ok(p), x.w, x.from, x.reclaimed, x.limit).kind.Spawned?
  {
    hide E.AdvanceEnd;
  }

  lemma NotSpawned(p: E.Process, idx: int, x: V.Turn)
    requires V.At(p, idx, x.from) && !V.Spawns(p, idx, x)
    ensures !E.AdvanceEnd(Ok(p), x.w, x.from, x.reclaimed, x.limit).kind.Spawned?
  {
    hide E.AdvanceEnd;
  }

  // However a run of the tree interleaves with it, one visit to a spawn task spawns one batch.
  lemma OneBatchPerVisit(p: E.Process, idx: int, turns: seq<V.Turn>, states: seq<State>, events: seq<Event>, at: seq<nat>, id: Id)
    requires Run(states, events) && OnRun(p, idx, turns, states, events, at, id)
    requires E.InList(p, idx) && P.IsSpawnAction(p.tasks[idx].action)
    ensures V.CollectsAfter(p, idx, turns)
    ensures forall i, j :: 0 <= i < |turns| && 0 <= j < |turns| && V.Spawns(p, idx, turns[i]) && V.Spawns(p, idx, turns[j]) ==> i == j
  {
    hide Inv, Step, V.Spawns, Run, OnRun, E.AdvanceEnd;
    forall i, j | 0 <= i < j < |turns| && V.Spawns(p, idx, turns[i]) ensures turns[j].from.wait.Collecting? {
      TurnCollects(p, idx, turns, states, events, at, id, i, j);
    }
    forall i, j | 0 <= i < |turns| && 0 <= j < |turns| && V.Spawns(p, idx, turns[i]) && V.Spawns(p, idx, turns[j]) ensures i == j {
      V.SpawnedOnce(p, idx, turns, i, j);
    }
  }
}
