/** What one task of an advance comes to: where the switch leads, what is stored, how it ends. */
module AdvanceLaws {
  import opened Common
  import opened ProcessTree
  import opened ErrorRules
  import opened Advance
  import opened Visits
  import P = AdvanceProofs
  import TreeSteps
  import S = Schema

  // --- the switch ---

  lemma {:induction false} RouteAnswers(p: Process, cases: seq<Case>, d: Data, self: Self)
    ensures SwitchAnswers(p, cases, d, self, Route(p, cases, d, self))
  {
    if cases != [] {
      var answer := p.test(cases[0].cond, d, self);
      if cases[0].cond == "" || (answer.Ok? && answer.value) {
        assert Takes(p, cases, d, self, 0);
      } else if answer.Err? {
        assert Breaks(p, cases, d, self, 0);
      } else {
        assert answer == Ok(false);
        RouteAnswers(p, cases[1..], d, self);
        OnePassedOver(p, cases, d, self);
      }
    }
  }

  lemma OnePassedOver(p: Process, cases: seq<Case>, d: Data, self: Self)
    requires cases != [] && cases[0].cond != "" && p.test(cases[0].cond, d, self) == Ok(false)
    ensures forall r :: SwitchAnswers(p, cases[1..], d, self, r) ==> SwitchAnswers(p, cases, d, self, r)
  {
    var rest := cases[1..];
    forall i: nat | i <= |rest| && PassedOver(p, rest, d, self, i) ensures PassedOver(p, cases, d, self, i + 1) {
      forall j | 0 <= j < i + 1 ensures cases[j].cond != "" && p.test(cases[j].cond, d, self) == Ok(false) {
        if j > 0 { assert rest[j - 1] == cases[j]; }
      }
    }
    forall r | SwitchAnswers(p, rest, d, self, r) ensures SwitchAnswers(p, cases, d, self, r) {
      if i: nat :| Takes(p, rest, d, self, i) && r == Ok(rest[i].goto) {
        assert Takes(p, cases, d, self, i + 1);
      } else if i: nat :| Breaks(p, rest, d, self, i) && r == Err(p.test(rest[i].cond, d, self).error) {
        assert Breaks(p, cases, d, self, i + 1);
      }
    }
  }

  // The case that is taken, and the test that breaks off, are the first of their kind: a switch has
  // one answer.
  lemma OneAnswer(p: Process, cases: seq<Case>, d: Data, self: Self, r: Result<string>, r': Result<string>)
    requires SwitchAnswers(p, cases, d, self, r) && SwitchAnswers(p, cases, d, self, r')
    ensures r == r'
  {
    forall i: nat, j: nat | (Takes(p, cases, d, self, i) || Breaks(p, cases, d, self, i))
                            && (Takes(p, cases, d, self, j) || Breaks(p, cases, d, self, j))
      ensures i == j
    {
    }
  }

  // The switch leads to the target of the i-th case exactly when that is the first whose condition
  // is empty or true and every test before it was false; it fails with the first test that fails
  // before one is true; it leads nowhere exactly when every condition is there and false.
  lemma SwitchTakesFirst(p: Process, cases: seq<Case>, d: Data, self: Self, i: nat)
    ensures Takes(p, cases, d, self, i) ==> Route(p, cases, d, self) == Ok(cases[i].goto)
    ensures Breaks(p, cases, d, self, i) ==> Route(p, cases, d, self) == Err(p.test(cases[i].cond, d, self).error)
    ensures PassedOver(p, cases, d, self, |cases|) ==> Route(p, cases, d, self) == Ok("")
    ensures Route(p, cases, d, self).Ok? ==> PassedOver(p, cases, d, self, |cases|) || exists k: nat :: Takes(p, cases, d, self, k)
    ensures Route(p, cases, d, self).Err? ==> exists k: nat :: Breaks(p, cases, d, self, k)
  {
    RouteAnswers(p, cases, d, self);
    var r := Route(p, cases, d, self);
    if Takes(p, cases, d, self, i) { OneAnswer(p, cases, d, self, r, Ok(cases[i].goto)); }
    if Breaks(p, cases, d, self, i) { OneAnswer(p, cases, d, self, r, Err(p.test(cases[i].cond, d, self).error)); }
    if PassedOver(p, cases, d, self, |cases|) { OneAnswer(p, cases, d, self, r, Ok("")); }
  }

  // --- from one task to the next ---

  // The data with the task's own output, listed once.
  ghost predicate StoresOwn(p: Process, s: Inst, t: TaskDef, self: Self, d: Data) {
    if !t.projects then d == s.data
    else
      && p.project(t.id, s.data, self).Ok?
      && d.outputs == s.data.outputs[t.id := p.project(t.id, s.data, self).value]
      && (t.id in s.data.outputs ==> d.order == s.data.order) && (t.id !in s.data.outputs ==> d.order == s.data.order + [t.id])
      && d == s.data.(outputs := d.outputs, order := d.order)
  }

  // A task is left with its output stored and by what its switch answers on the data with it, the
  // result, the previous and the new output in scope: on to the task after it, to the first of a
  // name, or to the end of the process; nowhere if the switch is silent or the name unknown.
  lemma LeavesByTheSwitch(p: Process, s: Inst, idx: nat, result: S.Value, previous: S.Value, d: Data, goto: string)
    requires InList(p, idx) && StoresOwn(p, s, p.tasks[idx], Self(result, previous, None), d)
    requires var output := if p.tasks[idx].projects then Some(d.outputs[p.tasks[idx].id]) else None;
             SwitchAnswers(p, p.tasks[idx].switch, d, Self(result, previous, output), Ok(goto))
    ensures match Leave(p, s, idx, result, previous)
            case Go(e, next) =>
              && goto != "" && goto != END
              && (goto == NEXT ==> next == idx + 1)
              && (goto != NEXT ==> InList(p, next) && p.tasks[next].id == goto[1..] && FirstNamed(p, next))
              && e == s.(task := (if InList(p, next) then p.tasks[next].id else ""), data := d, retryCount := 0, wakeAt := None)
            case Stop(e) =>
              || (goto == END && (e.inst.status.Completed? || p.output(d).Err?))
              || (e.inst.status.Failed? && e.inst.data == d && (goto == "" || (goto != NEXT && TaskIndex(p.tasks, goto[1..]) < 0)))
  {
    var t := p.tasks[idx];
    var self := Self(result, previous, if t.projects then Some(d.outputs[t.id]) else None);
    RouteAnswers(p, t.switch, d, self);
    OneAnswer(p, t.switch, d, self, Ok(goto), Route(p, t.switch, d, self));
    if t.projects { assert Exported(s.data, t.id, p.project(t.id, s.data, Self(result, previous, None)).value) == d; }
  }

  // A task whose action has an answer is left with that answer; previous is what the task itself put out
  // the last time round, null the first time and for a task that puts out nothing.
  lemma LeavesWithItsAnswer(p: Process, w: World, s: Inst, idx: nat, e: Inst, result: S.Value)
    requires InList(p, idx) && Act(p, w, s.(task := p.tasks[idx].id), p.tasks[idx]) == Acted(e, result)
    ensures var t := p.tasks[idx];
            Iterate(p, w, s, idx) == Leave(p, e, idx, result, if t.projects && t.id in s.data.outputs then s.data.outputs[t.id] else S.Null)
  {
    hide Act, Leave;
  }

  // --- positions ---

  // A name leads to the first task that has it, and to none exactly when no task does.
  lemma {:induction false} FirstPosition(tasks: seq<TaskDef>, id: string)
    ensures TaskIndex(tasks, id) >= 0 ==>
              && TaskIndex(tasks, id) < |tasks| && tasks[TaskIndex(tasks, id)].id == id
              && forall k :: 0 <= k < TaskIndex(tasks, id) ==> tasks[k].id != id
    ensures TaskIndex(tasks, id) < 0 <==> id == "" || forall k :: 0 <= k < |tasks| ==> tasks[k].id != id
  {
    if tasks != [] && tasks[0].id != id {
      FirstPosition(tasks[1..], id);
      assert forall k :: 0 < k < |tasks| ==> tasks[k] == tasks[1..][k - 1];
      assert forall k :: 0 <= k < |tasks[1..]| ==> tasks[1..][k] == tasks[k + 1];
    }
  }

  // An advance runs at most one action: claimed at a task with an action of whatever kind, it ends where
  // the action halts, or with the task left behind it and checkpointed, however far it might go on.
  lemma OneActionPerAdvance(p: Process, w: World, s: Inst, idx: nat, limit: nat)
    requires InList(p, idx) && !p.tasks[idx].action.NoAction? && s.status.Running? && s.task == p.tasks[idx].id && TaskIndex(p.tasks, s.task) == idx
    ensures match Act(p, w, s, p.tasks[idx])
            case Halt(end) => AdvanceEnd(Ok(p), w, s, false, limit) == end
            case Acted(e, result) =>
              match Leave(p, e, idx, result, Previous(s, p.tasks[idx]))
              case Stop(end) => AdvanceEnd(Ok(p), w, s, false, limit) == end
              case Go(next, _) => AdvanceEnd(Ok(p), w, s, false, limit) == End(Progress, next)
  {
    hide Act, Leave;
    assert s.(task := p.tasks[idx].id) == s;
    assert AdvanceEnd(Ok(p), w, s, false, limit) == Loop(p, w, s, idx, limit);
  }

  // --- actions without an answer of their own ---

  // A task without an action goes on with nothing; an arming that finds a buffered result goes on with
  // that, the row as it was; what cannot be armed, timed or spawned fails the instance, its outputs kept.
  lemma ActionsElse(p: Process, w: World, s: Inst, t: TaskDef)
    requires s.status.Running?
    ensures t.action.NoAction? ==> Act(p, w, s, t) == Acted(s, S.Null)
    ensures t.action.ExternalTask? && s.data.result.None? && !s.wait.External? && w.arm(t.id, s.data).Buffered? ==>
              Act(p, w, s, t) == Acted(s, w.arm(t.id, s.data).value)
    ensures t.action.ExternalTask? && s.data.result.None? && !s.wait.External? && w.arm(t.id, s.data).Refused? ==>
              FailsWith(Act(p, w, s, t), s, w.arm(t.id, s.data).reason)
    ensures t.action.Delay? && s.wakeAt.None? && w.delay(t.id, s.data).Err? ==> FailsWith(Act(p, w, s, t), s, w.delay(t.id, s.data).error)
    ensures t.action in {Child, ChildParallel} && !s.wait.Collecting? && w.children(t.id, s.data).Err? ==>
              FailsWith(Act(p, w, s, t), s, w.children(t.id, s.data).error)
    ensures t.action in {Child, ChildParallel} && !s.wait.Collecting? && w.children(t.id, s.data).Ok? && w.spawn.Some? ==>
              FailsWith(Act(p, w, s, t), s, w.spawn.value)
  {
    hide HandleCallError;
  }

  predicate FailsWith(a: Acted, s: Inst, reason: string) {
    && a.Halt? && a.end.kind.Terminal? && a.end.inst.status.Failed? && a.end.inst.error == reason && a.end.inst.task == s.task
    && a.end.inst.wait.NoWait? && a.end.inst.wakeAt.None? && a.end.inst.data.outputs == s.data.outputs && a.end.inst.data.error == s.data.error
  }

  // --- the end of the process ---

  // A process that completes by its switch or off the list stores what its output expression gives
  // on the final data, if there is one; completed by an error rule it stores none.
  ghost predicate OutputStored(p: Process, before: Option<S.Value>, e: Inst) {
    var out := p.output(e.data.(output := before));
    out.Ok? && e.data.output == if out.value.Some? then out.value else before
  }

  ghost predicate WellCompleted(p: Process, before: Inst, e: End) {
    e.kind.Terminal? && e.inst.status.Completed? ==>
      (OutputStored(p, before.data.output, e.inst) && e.inst.retryCount == 0) || (e.inst.data.error.Some? && e.inst.data.output == before.data.output)
  }

  lemma ActKeepsOutput(p: Process, w: World, s: Inst, t: TaskDef)
    requires s.status.Running?
    ensures match Act(p, w, s, t)
            case Acted(e, _) => e.data.output == s.data.output && e.status.Running?
            case Halt(e) => e.inst.data.output == s.data.output && (e.kind.Terminal? && e.inst.status.Completed? ==> e.inst.data.error.Some?)
  {
    hide Found;
  }

  lemma IterateCompletes(p: Process, w: World, s: Inst, idx: int)
    requires s.status.Running? && (InList(p, idx) || s.retryCount == 0)
    ensures match Iterate(p, w, s, idx)
            case Stop(e) => WellCompleted(p, s, e)
            case Go(e, next) => e.status.Running? && e.data.output == s.data.output && e.retryCount == 0
  {
    hide Act, Route;
    if InList(p, idx) {
      var t, here := p.tasks[idx], s.(task := p.tasks[idx].id);
      ActKeepsOutput(p, w, here, t);
    }
  }

  lemma {:induction false} CompletesWithOutput(p: Process, w: World, s: Inst, idx: int, left: nat)
    requires s.status.Running? && (InList(p, idx) || s.retryCount == 0)
    ensures WellCompleted(p, s, Loop(p, w, s, idx, left))
    decreases left
  {
    hide Iterate, OutputStored;
    IterateCompletes(p, w, s, idx);
    var m := Iterate(p, w, s, idx);
    if m.Go? && !HasCall(p, idx) && left > 0 { CompletesWithOutput(p, w, m.inst, m.idx, left - 1); }
  }

  // --- doomed instances ---

  // Whatever the definition and the world: a failing instance settles as failed with the error it
  // had, a cancelling one as cancelled, its delay timer kept and its retry timer dropped.
  lemma DoomedSettle(loaded: Result<Process>, w: World, s: Inst, reclaimed: bool, limit: nat)
    requires Draining(s.status)
    ensures var e := AdvanceEnd(loaded, w, s, reclaimed, limit);
            && e.kind.Terminal? && e.inst == s.(status := e.inst.status, wait := NoWait, wakeAt := e.inst.wakeAt)
            && (s.status.Failing? ==> e.inst.status.Failed? && e.inst.wakeAt.None?)
            && (s.status.Cancelling? ==> e.inst.status.Cancelled? && e.inst.wakeAt == if s.retryCount == 0 then s.wakeAt else None)
  {
  }

  // A claim that cannot go on fails the row where it stands: without its definition, with a task
  // that is not in it, or taken over from a worker lost in an only_once task.
  lemma StuckFails(loaded: Result<Process>, w: World, s: Inst, reclaimed: bool, limit: nat)
    requires s.status.Running?
    requires loaded.Err? ||
             (var p, idx := loaded.value, TaskIndex(loaded.value.tasks, s.task);
              (s.task != "" && idx < 0) || (reclaimed && HasCall(p, idx) && p.tasks[idx].onlyOnce))
    ensures var e := AdvanceEnd(loaded, w, s, reclaimed, limit);
            e.kind.Terminal? && e.inst == s.(status := Failed, wait := NoWait, wakeAt := None, error := e.inst.error)
  {
  }

  // A cancelled instance without a batch, once its advance has settled it and its root is retried,
  // is where it was: at its task, with its attempts, and with its timer unless that was a retry's.
  lemma RetryUndoesCancel(s: State, id: Id, loaded: Result<Process>, w: World, d: Data, limit: nat, s': State, root: Id, s'': State)
    requires Inv(s) && id in s.live && id in s.rows && s.rows[id].status.Cancelling? && s.live[id].inst.status.Cancelling?
    requires s.live[id].inst.(worker := None, lease := None) == s.rows[id].(worker := None, lease := None)
    requires var c := s.live[id];
             TreeSteps.Step(s, TreeSteps.EvReturn(id, P.ToOutcome(AdvanceEnd(loaded, w, P.FromRow(c.inst, d), c.reclaimed, limit), c.inst)), s')
    requires TreeSteps.Step(s', TreeSteps.EvRetry(root), s'') && InTree(s'.rows, root, id)
    requires forall k :: ChildOf(s.rows, k, id) ==> s.rows[k].spawnTask != s.rows[id].task
    ensures id in s''.rows
    ensures s''.rows[id] == s.rows[id].(status := Running, wait := NoWait, error := "", worker := None, lease := None,
                                        wakeAt := if s.rows[id].retryCount == 0 then s.rows[id].wakeAt else None)
  {
    var c := s.live[id];
    var e := AdvanceEnd(loaded, w, P.FromRow(c.inst, d), c.reclaimed, limit);
    var v := P.ToOutcome(e, c.inst).v;
    TreeSteps.SettledFramed(s, id, v, s');
    forall k | ChildOf(s'.rows, k, id) ensures s'.rows[k].spawnTask != s'.rows[id].task { assert ChildOf(s.rows, k, id); }
  }
}
