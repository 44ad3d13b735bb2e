/** What an advance guarantees: allowed outcomes, inlining that changes nothing, takeovers. */
module AdvanceProofs {
  import opened Common
  import opened ProcessTree
  import opened ErrorRules
  import opened Advance
  import TreeSteps

  // --- definitions ---

  // Ids are documented to be unique but never checked; every look-up takes the first task of an id.
  predicate FirstOfId(p: Process, i: int) {
    InList(p, i) && TaskIndex(p.tasks, p.tasks[i].id) == i
  }

  // --- one row, its columns and its outcome ---

  function FromRow(r: Row, d: Data): Inst {
    Inst(r.task, r.status, r.wait, r.retryCount, r.wakeAt, r.error, d)
  }

  function ToRow(r: Row, s: Inst): Row {
    r.(task := s.task, status := s.status, wait := s.wait, retryCount := s.retryCount, wakeAt := s.wakeAt, error := s.error)
  }

  function ToOutcome(e: End, base: Row): TreeSteps.Outcome {
    var v := ToRow(base, e.inst);
    match e.kind
    case Progress => TreeSteps.Progress(v)
    case Update => TreeSteps.Update(v)
    case Terminal => TreeSteps.Finish(v)
    case Spawned(children) => TreeSteps.Spawn(v, children)
    case Parked => TreeSteps.Park(v)
  }

  function Plain(t: TaskDef): Task {
    Task(t.id, t.action, t.onlyOnce)
  }

  // The tree's definitions list the process's tasks under name.
  ghost predicate Lists(defs: Definitions, name: string, p: Process) {
    name in defs && defs[name] == seq(|p.tasks|, i requires 0 <= i < |p.tasks| => Plain(p.tasks[i]))
  }

  // The tree's look-up by id finds the task the engine's finds.
  lemma {:induction false} ActionAt(tasks: seq<Task>, of: seq<TaskDef>, id: string)
    requires tasks == seq(|of|, i requires 0 <= i < |of| => Plain(of[i]))
    ensures ActionOf(tasks, id) == if Position(of, id) < 0 then None else Some(Plain(of[Position(of, id)]))
  {
    if of != [] {
      assert tasks[1..] == seq(|of[1..]|, i requires 0 <= i < |of[1..]| => Plain(of[1..][i]));
      ActionAt(tasks[1..], of[1..], id);
    }
  }

  lemma TaskListed(defs: Definitions, name: string, p: Process, id: string)
    requires Lists(defs, name, p)
    ensures var i := TaskIndex(p.tasks, id); TaskOf(defs, name, id) == if i < 0 then None else Some(Plain(p.tasks[i]))
  {
    ActionAt(defs[name], p.tasks, id);
  }

  ghost predicate ChildrenKnown(defs: Definitions, w: World) {
    forall t, d :: w.children(t, d).Ok? ==>
      forall k :: k in w.children(t, d).value ==> w.children(t, d).value[k] in defs && defs[w.children(t, d).value[k]] != []
  }

  // --- the link to the tree protocol ---

  predicate IsSpawnAction(a: Action) {
    a.Child? || a.ChildParallel?
  }

  // The wait state suits the task about to run, and no result is pending on a parked row.
  predicate WaitSuits(p: Process, s: Inst, idx: int) {
    && !s.wait.Waiting?
    && (s.wait.Collecting? ==> InList(p, idx) && IsSpawnAction(p.tasks[idx].action))
    && (s.wait.External? ==> InList(p, idx) && p.tasks[idx].action.ExternalTask? && s.data.result.None?)
  }

  ghost predicate EndAllowed(defs: Definitions, p: Process, s: Inst, idx: int, e: End) {
    match e.kind
    case Progress => e.inst.status.Running? && e.inst.wait.NoWait?
    case Update => e.inst.status.Running? && e.inst.wait.NoWait? && e.inst.error == s.error
    case Terminal => (e.inst.status.Completed? || e.inst.status.Failed?) && e.inst.wait.NoWait?
    case Spawned(kids) =>
      && e.inst.status.Running? && e.inst.wait.NoWait? && s.wait.NoWait?
      && InList(p, idx) && IsSpawnAction(p.tasks[idx].action) && e.inst.task == p.tasks[idx].id
      && forall k :: k in kids ==> kids[k] in defs && defs[kids[k]] != []
    case Parked =>
      && e.inst.status.Running? && e.inst.wait.External?
      && InList(p, idx) && p.tasks[idx].action.ExternalTask? && e.inst.task == p.tasks[idx].id
  }

  lemma ErrorAllowed(defs: Definitions, p: Process, w: World, s: Inst, idx: int, t: TaskDef, m: string, code: string)
    requires s.status.Running? && s.wait.NoWait?
    ensures EndAllowed(defs, p, s, idx, HandleCallError(p, w, s, t, m, code))
  {
  }

  lemma ActAllowed(defs: Definitions, p: Process, w: World, s: Inst, idx: int)
    requires s.status.Running? && InList(p, idx) && WaitSuits(p, s, idx) && s.task == p.tasks[idx].id && ChildrenKnown(defs, w)
    ensures match Act(p, w, s, p.tasks[idx])
            case Halt(e) => EndAllowed(defs, p, s, idx, e)
            case Acted(e, _) => e.status.Running? && e.wait.NoWait? && e.error == s.error
  {
    hide HandleCallError;
    var t := p.tasks[idx];
    if t.action.ExternalTask? && s.data.result.None? && s.wait.External? {
      var e := s.(wait := NoWait, data := s.data.(token := None));
      ErrorAllowed(defs, p, w, e, idx, t, "external task timed out", "external.timeout");
    } else if t.action.Call? && w.call(t.id, s.data).Errored? {
      var r := w.call(t.id, s.data);
      ErrorAllowed(defs, p, w, s, idx, t, r.message, r.code);
    }
  }

  lemma IterateAllowed(defs: Definitions, p: Process, w: World, s: Inst, idx: int)
    requires s.status.Running? && WaitSuits(p, s, idx) && ChildrenKnown(defs, w)
    ensures match Iterate(p, w, s, idx)
            case Stop(e) => EndAllowed(defs, p, s, idx, e)
            case Go(e, next) => e.status.Running? && e.wait.NoWait? && e.error == s.error
  {
    hide Act;
    if InList(p, idx) { ActAllowed(defs, p, w, s.(task := p.tasks[idx].id), idx); }
  }

  lemma {:induction false} LoopAllowed(defs: Definitions, p: Process, w: World, s: Inst, idx: int, left: nat) returns (at: int)
    requires s.status.Running? && WaitSuits(p, s, idx) && ChildrenKnown(defs, w)
    ensures EndAllowed(defs, p, s, at, Loop(p, w, s, idx, left))
    decreases left
  {
    hide Iterate, EndAllowed, WaitSuits;
    IterateAllowed(defs, p, w, s, idx);
    at := idx;
    match Iterate(p, w, s, idx)
    case Stop(_) =>
    case Go(e, next) =>
      if HasCall(p, idx) || left == 0 {
        YieldAllowed(defs, p, s, idx, e);
      } else {
        NoCallNoWait(p, s, idx);
        NoWaitSuits(p, e, next);
        at := LoopAllowed(defs, p, w, e, next, left - 1);
        SameStart(defs, p, s, e, at, Loop(p, w, e, next, left - 1));
      }
  }

  lemma YieldAllowed(defs: Definitions, p: Process, s: Inst, idx: int, e: Inst)
    requires e.status.Running? && e.wait.NoWait?
    ensures EndAllowed(defs, p, s, idx, End(Progress, e))
  {
  }

  lemma NoCallNoWait(p: Process, s: Inst, idx: int)
    requires WaitSuits(p, s, idx) && !HasCall(p, idx)
    ensures s.wait.NoWait?
  {
  }

  lemma NoWaitSuits(p: Process, s: Inst, idx: int)
    requires s.wait.NoWait?
    ensures WaitSuits(p, s, idx)
  {
  }

  lemma SameStart(defs: Definitions, p: Process, s: Inst, e: Inst, at: int, end: End)
    requires EndAllowed(defs, p, e, at, end) && s.wait.NoWait? && e.error == s.error
    ensures EndAllowed(defs, p, s, at, end)
  {
  }

  // A running claim starts in a wait state that suits its task.
  lemma ClaimSuits(s: State, id: Id, p: Process, d: Data)
    requires Inv(s) && id in s.live && s.live[id].inst.status.Running?
    requires Lists(s.defs, s.live[id].inst.def, p)
    requires d.result.Some? ==> !s.live[id].inst.wait.External?
    ensures WaitSuits(p, FromRow(s.live[id].inst, d), TaskIndex(p.tasks, s.live[id].inst.task))
  {
    assert LiveAgrees(s, id);
    assert RowHolds(s, id);
    var r := s.live[id].inst;
    TaskListed(s.defs, r.def, p, r.task);
  }

  // The first task named id, which is the one the tree protocol knows.
  predicate FirstSpawns(p: Process, id: string) {
    var i := TaskIndex(p.tasks, id);
    i >= 0 && IsSpawnAction(p.tasks[i].action)
  }

  predicate FirstWaits(p: Process, id: string) {
    var i := TaskIndex(p.tasks, id);
    i >= 0 && p.tasks[i].action.ExternalTask?
  }

  // A spawn or a park is at a task whose id names, first, a task of that kind.
  predicate EndsInKind(p: Process, e: End) {
    (e.kind.Spawned? ==> FirstSpawns(p, e.inst.task)) && (e.kind.Parked? ==> FirstWaits(p, e.inst.task))
  }

  lemma EndIsOutcome(defs: Definitions, c: Claimed, p: Process, d: Data, at: int, e: End)
    requires c.inst.status.Running? && Lists(defs, c.inst.def, p)
    requires EndAllowed(defs, p, FromRow(c.inst, d), at, e)
    ensures TreeSteps.MayReturn(defs, c, ToOutcome(e, c.inst)) <==> EndsInKind(p, e)
  {
    hide Lists;
    TaskListed(defs, c.inst.def, p, e.inst.task);
  }

  // No id of a spawn or a wait belongs, earlier, to a task of another kind. Distinct ids are more
  // than enough.
  predicate KindsAgree(p: Process) {
    forall i :: 0 <= i < |p.tasks| ==>
      && (IsSpawnAction(p.tasks[i].action) ==> FirstSpawns(p, p.tasks[i].id))
      && (p.tasks[i].action.ExternalTask? ==> FirstWaits(p, p.tasks[i].id))
  }

  lemma AgreeingKinds(defs: Definitions, p: Process, w: World, s: Inst, reclaimed: bool, limit: nat)
    requires KindsAgree(p) && s.status.Running? && WaitSuits(p, s, TaskIndex(p.tasks, s.task)) && ChildrenKnown(defs, w)
    ensures EndsInKind(p, AdvanceEnd(Ok(p), w, s, reclaimed, limit))
  {
    hide Loop, WaitSuits, ChildrenKnown, FirstSpawns, FirstWaits;
    var at := LoopAllowed(defs, p, w, s, TaskIndex(p.tasks, s.task), limit);
  }

  // Whatever the world answers, the advance of a claimed instance ends in one of the outcomes
  // every tree theorem quantifies over: exactly when the id of a task it spawns or parks at is
  // not that of an earlier task of another kind.
  lemma AdvanceMayReturn(s: State, id: Id, loaded: Result<Process>, w: World, d: Data, limit: nat)
    requires Inv(s) && id in s.live
    requires loaded.Ok? ==> Lists(s.defs, s.live[id].inst.def, loaded.value)
    requires ChildrenKnown(s.defs, w)
    requires d.result.Some? ==> !s.live[id].inst.wait.External?
    ensures var c := s.live[id];
            var e := AdvanceEnd(loaded, w, FromRow(c.inst, d), c.reclaimed, limit);
            TreeSteps.MayReturn(s.defs, c, ToOutcome(e, c.inst)) <==> (loaded.Ok? ==> EndsInKind(loaded.value, e))
    ensures var c := s.live[id];
            loaded.Ok? && KindsAgree(loaded.value) ==>
              TreeSteps.MayReturn(s.defs, c, ToOutcome(AdvanceEnd(loaded, w, FromRow(c.inst, d), c.reclaimed, limit), c.inst))
  {
    hide Loop, KindsAgree, Lists, ChildrenKnown, EndAllowed, WaitSuits, RowHolds, Inv, FirstSpawns, FirstWaits;
    var c := s.live[id];
    var start := FromRow(c.inst, d);
    assert LiveAgrees(s, id) by { LiveHolds(s, id); }
    if c.inst.status.Running? && loaded.Ok? {
      var p := loaded.value;
      var idx := TaskIndex(p.tasks, start.task);
      var e := AdvanceEnd(loaded, w, start, c.reclaimed, limit);
      if e == Loop(p, w, start, idx, limit) {
        ClaimSuits(s, id, p, d);
        var at := LoopAllowed(s.defs, p, w, start, idx, limit);
        EndIsOutcome(s.defs, c, p, d, at, e);
        if KindsAgree(p) { AgreeingKinds(s.defs, p, w, start, c.reclaimed, limit); }
      }
    }
  }

  // A routing task and a spawn task of one id: the batch is spawned at the second, and the row
  // left standing, for the tree and for the next claim, at the first.
  lemma MixedKindsStray(p: Process, w: World, s: Inst)
    requires p.tasks == [TaskDef("a", NoAction, false, false, [Case("", NEXT)], [], 0), TaskDef("a", Child, false, false, [Case("", END)], [], 0)]
    requires s.status.Running? && s.wait.NoWait? && s.task == "a"
    requires w.children("a", s.data).Ok? && w.spawn.None?
    ensures AdvanceEnd(Ok(p), w, s, false, 1).kind.Spawned? && !EndsInKind(p, AdvanceEnd(Ok(p), w, s, false, 1))
  {
    var e := s.(task := "a", retryCount := 0, wakeAt := None);
    assert Iterate(p, w, s, 0) == Go(e, 1) by { RouteCatchAll(p, s.data, NEXT, p.tasks[0].switch); }
    assert Loop(p, w, e, 1, 0) == Iterate(p, w, e, 1).end;
  }

  lemma LiveHolds(s: State, id: Id)
    requires Inv(s) && id in s.live
    ensures LiveAgrees(s, id)
  {
  }

  // --- inline tasks are one task per claim ---

  // What is stored, and read back by the next claim, after a checkpoint nobody interfered
  // with: the checkpoint leaves status and error to the row.
  function Reloaded(row: Inst, v: Inst): Inst {
    v.(status := row.status, error := row.error)
  }

  // k advances of one call-less task each, with a reload after each.
  ghost function Steps(p: Process, w: World, s: Inst, k: nat): Option<Inst>
    decreases k
  {
    if k == 0 then Some(s)
    else
      var e := AdvanceEnd(Ok(p), w, s, false, 0);
      if e.kind.Progress? && !HasCall(p, TaskIndex(p.tasks, s.task)) then Steps(p, w, Reloaded(s, e.inst), k - 1) else None
  }

  lemma CallessKeeps(p: Process, w: World, s: Inst, idx: int)
    requires InList(p, idx) && !HasCall(p, idx) && Iterate(p, w, s, idx).Go?
    ensures var e := Iterate(p, w, s, idx).inst;
            && e.status == s.status && e.error == s.error && e.wait == s.wait && e.retryCount == 0 && e.wakeAt == None
            && e.task == TaskIdAt(p.tasks, Iterate(p, w, s, idx).idx)
  {
  }

  // The same place: one position, or both off the list.
  predicate SamePlace(p: Process, i: int, j: int) {
    i == j || (!InList(p, i) && !InList(p, j))
  }

  // A reload lands where the in-memory advance stands exactly when the task moved to is the
  // first of its id.
  lemma ReloadLands(p: Process, w: World, s: Inst, idx: int)
    requires InList(p, idx) && !HasCall(p, idx) && Iterate(p, w, s, idx).Go?
    ensures var m := Iterate(p, w, s, idx);
            SamePlace(p, TaskIndex(p.tasks, m.inst.task), m.idx) <==> (InList(p, m.idx) ==> FirstOfId(p, m.idx))
  {
    hide Iterate;
    CallessKeeps(p, w, s, idx);
  }

  // Every task the advance moves to in memory is the first of its id.
  ghost predicate OnFirsts(p: Process, w: World, s: Inst, idx: int, left: nat)
    decreases left
  {
    match Iterate(p, w, s, idx)
    case Stop(_) => true
    case Go(e, next) => HasCall(p, idx) || left == 0 || ((InList(p, next) ==> FirstOfId(p, next)) && OnFirsts(p, w, e, next, left - 1))
  }

  // One advance through k call-less tasks ends as k single-task advances and one more; k is as
  // large as the limit, and the tasks, allow.
  lemma {:induction false} InlineIsStepwise(p: Process, w: World, s: Inst, limit: nat) returns (k: nat)
    requires s.status.Running? && OnFirsts(p, w, s, TaskIndex(p.tasks, s.task), limit)
    ensures k <= limit && Steps(p, w, s, k).Some? && (k < limit ==> Steps(p, w, s, k + 1).None?)
    ensures AdvanceEnd(Ok(p), w, s, false, limit) == AdvanceEnd(Ok(p), w, Steps(p, w, s, k).value, false, 0)
    decreases limit
  {
    hide Iterate;
    k := 0;
    var idx := TaskIndex(p.tasks, s.task);
    if limit > 0 && (s.task == "" || idx >= 0) && Iterate(p, w, s, idx).Go? && !HasCall(p, idx) {
      InListWhenGoing(p, w, s, idx);
      CallessKeeps(p, w, s, idx);
      var e, next := Iterate(p, w, s, idx).inst, Iterate(p, w, s, idx).idx;
      assert AdvanceEnd(Ok(p), w, s, false, 0) == End(Progress, e);
      assert Reloaded(s, e) == e;
      if !InList(p, next) {
        OffTheList(p, w, e, next, -1, limit - 1);
        assert OnFirsts(p, w, e, -1, limit - 1) by { OffIsFirst(p, w, e, -1, limit - 1); }
      }
      assert AdvanceEnd(Ok(p), w, e, false, limit - 1) == Loop(p, w, e, next, limit - 1);
      var j := InlineIsStepwise(p, w, e, limit - 1);
      k := j + 1;
    } else if limit > 0 && (s.task == "" || idx >= 0) && !HasCall(p, idx) {
      CallessStops(p, w, s, idx);
    }
  }

  lemma CallessStops(p: Process, w: World, s: Inst, idx: int)
    requires !HasCall(p, idx) && Iterate(p, w, s, idx).Stop?
    ensures Iterate(p, w, s, idx).end.kind.Terminal?
  {
  }

  lemma OffIsFirst(p: Process, w: World, s: Inst, idx: int, left: nat)
    requires !InList(p, idx)
    ensures OnFirsts(p, w, s, idx, left)
  {
  }

  // A goto by name leads to the first of that name; so it is enough that every task a call-less
  // task can fall through to is the first of its id.
  predicate FallsToFirsts(p: Process) {
    forall i, c :: 0 <= i < |p.tasks| - 1 && p.tasks[i].action.NoAction? && c in p.tasks[i].switch && c.goto == NEXT ==> FirstOfId(p, i + 1)
  }

  lemma {:induction false} FallingToFirsts(p: Process, w: World, s: Inst, idx: int, left: nat)
    requires FallsToFirsts(p)
    ensures OnFirsts(p, w, s, idx, left)
    decreases left
  {
    hide Iterate, FallsToFirsts;
    var m := Iterate(p, w, s, idx);
    if m.Go? && !HasCall(p, idx) && left > 0 {
      InListWhenGoing(p, w, s, idx);
      MovesToFirst(p, w, s, idx);
      FallingToFirsts(p, w, m.inst, m.idx, left - 1);
    }
  }

  lemma MovesToFirst(p: Process, w: World, s: Inst, idx: int)
    requires FallsToFirsts(p) && InList(p, idx) && !HasCall(p, idx) && Iterate(p, w, s, idx).Go?
    ensures InList(p, Iterate(p, w, s, idx).idx) ==> FirstOfId(p, Iterate(p, w, s, idx).idx)
  {
    var t, here := p.tasks[idx], s.(task := p.tasks[idx].id);
    var previous := Previous(here, t);
    var out := if t.projects then p.project(t.id, here.data, Self(S.Null, previous, None)) else Ok(S.Null);
    var d := if t.projects then Exported(here.data, t.id, out.value) else here.data;
    var self := Self(S.Null, previous, if t.projects then Some(out.value) else None);
    RouteIsACase(p, t.switch, d, self);
  }

  lemma {:induction false} RouteIsACase(p: Process, cases: seq<Case>, d: Data, self: Self)
    ensures Route(p, cases, d, self).Ok? && Route(p, cases, d, self).value != "" ==>
              exists c :: c in cases && c.goto == Route(p, cases, d, self).value
  {
    if cases != [] {
      assert cases[0] in cases;
      RouteIsACase(p, cases[1..], d, self);
    }
  }

  lemma InListWhenGoing(p: Process, w: World, s: Inst, idx: int)
    requires Iterate(p, w, s, idx).Go?
    ensures InList(p, idx)
  {
  }

  lemma OffTheList(p: Process, w: World, s: Inst, i: int, j: int, left: nat)
    requires !InList(p, i) && !InList(p, j)
    ensures Loop(p, w, s, i, left) == Loop(p, w, s, j, left)
  {
  }

  // With two tasks of one id, the reload goes back to the first.
  lemma DuplicateIdsDiverge(p: Process, w: World, s: Inst)
    requires p.tasks == [TaskDef("a", NoAction, false, false, [Case("", NEXT)], [], 0), TaskDef("a", NoAction, false, false, [Case("", END)], [], 0)]
    requires s.status.Running? && s.task == "a"
    ensures AdvanceEnd(Ok(p), w, s, false, 1).kind.Terminal?
    ensures forall k: nat :: Steps(p, w, s, k).Some? ==> AdvanceEnd(Ok(p), w, Steps(p, w, s, k).value, false, 0).kind.Progress?
  {
    assert p.tasks[1..][0].id == "a";
    var e := s.(task := "a", retryCount := 0, wakeAt := None);
    assert Iterate(p, w, s, 0) == Go(e, 1) by { RouteCatchAll(p, s.data, NEXT, p.tasks[0].switch); }
    assert Iterate(p, w, e, 1).Stop? by { RouteCatchAll(p, s.data, END, p.tasks[1].switch); }
    forall k: nat | Steps(p, w, s, k).Some?
      ensures AdvanceEnd(Ok(p), w, Steps(p, w, s, k).value, false, 0).kind.Progress?
    {
      StaysAtFirst(p, w, s, k);
    }
  }

  lemma RouteCatchAll(p: Process, d: Data, goto: string, cases: seq<Case>)
    requires cases == [Case("", goto)]
    ensures forall d, self :: Route(p, cases, d, self) == Ok(goto)
  {
  }

  lemma {:induction false} StaysAtFirst(p: Process, w: World, s: Inst, k: nat)
    requires p.tasks == [TaskDef("a", NoAction, false, false, [Case("", NEXT)], [], 0), TaskDef("a", NoAction, false, false, [Case("", END)], [], 0)]
    requires s.status.Running? && s.task == "a" && Steps(p, w, s, k).Some?
    ensures AdvanceEnd(Ok(p), w, Steps(p, w, s, k).value, false, 0).kind.Progress?
    decreases k
  {
    var e := s.(task := "a", retryCount := 0, wakeAt := None);
    assert Iterate(p, w, s, 0) == Go(e, 1) by { RouteCatchAll(p, s.data, NEXT, p.tasks[0].switch); }
    if k > 0 { StaysAtFirst(p, w, e, k - 1); }
  }

  // --- lease takeover ---

  // The position of the task whose remote call an advance makes, if it makes one.
  ghost function CallIn(p: Process, w: World, s: Inst, idx: int, left: nat): Option<int>
    decreases left
  {
    if !InList(p, idx) then None
    else if p.tasks[idx].action.Call? then Some(idx)
    else match Iterate(p, w, s, idx)
      case Stop(_) => None
      case Go(e, next) => if HasCall(p, idx) || left == 0 then None else CallIn(p, w, e, next, left - 1)
  }

  ghost function AdvanceCalls(p: Process, w: World, s: Inst, reclaimed: bool, limit: nat): Option<int> {
    var idx := TaskIndex(p.tasks, s.task);
    if !s.status.Running? || (reclaimed && HasCall(p, idx) && p.tasks[idx].onlyOnce) then None
    else CallIn(p, w, s, idx, limit)
  }

  lemma {:induction false} CallIsATask(p: Process, w: World, s: Inst, idx: int, left: nat)
    requires CallIn(p, w, s, idx, left).Some?
    ensures var i := CallIn(p, w, s, idx, left).value;
            0 <= i < |p.tasks| && p.tasks[i].action.Call? && (HasCall(p, idx) ==> i == idx)
    decreases left
  {
    if !p.tasks[idx].action.Call? {
      var m := Iterate(p, w, s, idx);
      CallIsATask(p, w, m.inst, m.idx, left - 1);
    }
  }

  // After a crash, the advance that takes the lease over makes an only_once call again exactly
  // when the row was not standing at the task that makes it.
  lemma TakeoverRepeatsCall(p: Process, w: World, s: Inst, limit: nat, i: int)
    requires AdvanceCalls(p, w, s, false, limit) == Some(i)
    ensures 0 <= i < |p.tasks|
    ensures p.tasks[i].onlyOnce ==>
              (AdvanceCalls(p, w, s, true, limit) == Some(i) <==> TaskIndex(p.tasks, s.task) != i)
    ensures p.tasks[i].onlyOnce && TaskIndex(p.tasks, s.task) == i ==>
              AdvanceCalls(p, w, s, true, limit) == None && TakeoverFailsRow(p, w, s, limit)
  {
    hide Iterate, CallIn;
    var idx := TaskIndex(p.tasks, s.task);
    CallStarts(p, w, s, idx, limit);
    CallIsATask(p, w, s, idx, limit);
  }

  // The takeover fails the row where it stands, its data untouched.
  ghost predicate TakeoverFailsRow(p: Process, w: World, s: Inst, limit: nat) {
    var e := AdvanceEnd(Ok(p), w, s, true, limit);
    e.kind.Terminal? && e.inst.status.Failed? && e.inst.task == s.task && e.inst.data == s.data
  }

  lemma CallStarts(p: Process, w: World, s: Inst, idx: int, limit: nat)
    requires CallIn(p, w, s, idx, limit).Some?
    ensures InList(p, idx)
  {
  }
}
