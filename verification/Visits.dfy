/** What the advances of one visit to a task add up to: retries, timers, results. */
module Visits {
  import opened Common
  import opened ProcessTree
  import opened ErrorRules
  import opened Advance
  import S = Schema

  // --- one error ---

  // The code is one after which the remote was not reached, or the rule says so.
  ghost predicate NotReached(t: TaskDef, code: string) {
    (|code| >= 4 && code[..4] == "pre.") || (Found(t.rules, code).Some? && Found(t.rules, code).value.notReached)
  }

  // One more attempt: within the budget of the rule, after the backoff of the new count, and
  // everything else as it was.
  ghost predicate Reattempt(w: World, s: Inst, t: TaskDef, code: string, v: Inst) {
    && Found(t.rules, code).Some? && v.retryCount == s.retryCount + 1 <= Found(t.rules, code).value.retries
    && (t.onlyOnce ==> NotReached(t, code))
    && v.wakeAt == Some(w.now + w.backoff(v.retryCount)) && v == s.(retryCount := v.retryCount, wakeAt := v.wakeAt)
  }

  // An error route: to the task the rule names, one of the definition; counters reset, the error
  // recorded as this task's.
  ghost predicate Rerouted(p: Process, s: Inst, t: TaskDef, message: string, code: string, v: Inst) {
    && Found(t.rules, code).Some? && Found(t.rules, code).value.goto == v.task && TaskIndex(p.tasks, v.task) >= 0
    && v.retryCount == 0 && v.wakeAt.None? && v.data.error == Some(ErrorInfo(t.id, message, code))
    && v == s.(task := v.task, retryCount := 0, wakeAt := None, data := s.data.(error := v.data.error))
  }

  // The end of the process, with the error recorded: by a rule that says so, or failed with the
  // code because no rule routes it, or because the target of the rule is not there.
  ghost predicate EndedBy(p: Process, s: Inst, t: TaskDef, message: string, code: string, v: Inst) {
    var goto := if Found(t.rules, code).Some? then Found(t.rules, code).value.goto else "";
    && v.data == s.data.(error := Some(ErrorInfo(t.id, message, code))) && v.task == s.task && v.wakeAt.None?
    && (v.status.Completed? <==> goto == END) && (v.status.Failed? <==> goto != END)
    && (v.status.Failed? ==> goto == "" || TaskIndex(p.tasks, goto) < 0)
    && (v.status.Failed? && goto == "" ==> v.error == code)
  }

  // An error is retried exactly when a rule catches it whose budget is not used up and which may
  // be used on this task; it ends in a terminal state unless it is retried or routed.
  lemma ErrorEnds(p: Process, w: World, s: Inst, t: TaskDef, message: string, code: string)
    requires s.status.Running?
    ensures var e := HandleCallError(p, w, s, t, message, code);
            && (e.kind.Terminal? || e.kind.Update?)
            && (e.kind.Update? ==> if e.inst.retryCount > 0 then Reattempt(w, s, t, code, e.inst) else Rerouted(p, s, t, message, code, e.inst))
            && (e.kind.Update? && e.inst.retryCount > 0 <==>
                  Found(t.rules, code).Some? && s.retryCount < Found(t.rules, code).value.retries && (t.onlyOnce ==> NotReached(t, code)))
            && (e.kind.Terminal? ==> EndedBy(p, s, t, message, code, e.inst))
  {
  }

  // --- the attempts of one visit ---

  function MaxRetries(rules: seq<ErrorCase>): nat {
    if rules == [] then 0
    else if rules[0].retries > MaxRetries(rules[1..]) then rules[0].retries else MaxRetries(rules[1..])
  }

  lemma {:induction false} WithinMax(rules: seq<ErrorCase>, c: ErrorCase)
    requires c in rules
    ensures c.retries <= MaxRetries(rules)
  {
    if c != rules[0] {
      assert rules == [rules[0]] + rules[1..];
      WithinMax(rules[1..], c);
    }
  }

  // One advance of a visit: what it started from, what the world answered, what it wrote.
  datatype Turn = Turn(from: Inst, w: World, reclaimed: bool, limit: nat, to: Inst)

  ghost predicate At(p: Process, idx: int, s: Inst) {
    s.status.Running? && TaskIndex(p.tasks, s.task) == idx && HasCall(p, idx)
  }

  // The advance ends in another attempt at the task the row stands at.
  ghost predicate Retried(p: Process, idx: int, t: Turn) {
    At(p, idx, t.from) && t.to.retryCount > 0 && AdvanceEnd(Ok(p), t.w, t.from, t.reclaimed, t.limit) == End(Update, t.to)
  }

  // The advance parks the row at that task.
  ghost predicate Waits(p: Process, idx: int, t: Turn) {
    At(p, idx, t.from) && AdvanceEnd(Ok(p), t.w, t.from, t.reclaimed, t.limit) == End(Parked, t.to)
  }

  // The error the world answered with, a timed-out wait included.
  function ErrorCode(w: World, s: Inst, t: TaskDef): Option<string> {
    if t.action.Call? then
      if w.call(t.id, s.data).Errored? then Some(w.call(t.id, s.data).code) else None
    else if t.action.ExternalTask? && s.data.result.None? && s.wait.External? then Some("external.timeout")
    else None
  }

  // The wait over, the token given up.
  function WaitOver(s: Inst, t: TaskDef): Inst {
    if t.action.ExternalTask? then s.(wait := NoWait, data := s.data.(token := None)) else s
  }

  lemma LeaveNeverUpdates(p: Process, s: Inst, idx: int, result: S.Value, previous: S.Value)
    requires InList(p, idx) && Leave(p, s, idx, result, previous).Stop?
    ensures Leave(p, s, idx, result, previous).end.kind.Terminal?
  {
  }

  lemma ActRetries(p: Process, w: World, s: Inst, t: TaskDef)
    requires s.status.Running? && Act(p, w, s, t).Halt? && Act(p, w, s, t).end.kind.Update? && Act(p, w, s, t).end.inst.retryCount > 0
    ensures ErrorCode(w, s, t).Some? && Reattempt(w, WaitOver(s, t), t, ErrorCode(w, s, t).value, Act(p, w, s, t).end.inst)
  {
    hide HandleCallError, Reattempt, Rerouted, EndedBy;
    if t.action.Call? {
      var r := w.call(t.id, s.data);
      if r.Errored? { ErrorEnds(p, w, s, t, r.message, r.code); }
    } else if t.action.ExternalTask? && s.data.result.None? && s.wait.External? {
      ErrorEnds(p, w, WaitOver(s, t), t, "external task timed out", "external.timeout");
    }
  }

  // Another attempt stands at the same task, its count one higher and within a rule's budget.
  lemma RetriedOnce(p: Process, idx: int, x: Turn)
    requires Retried(p, idx, x)
    ensures var t, s := p.tasks[idx], x.from;
            && ErrorCode(x.w, s, t).Some? && Reattempt(x.w, WaitOver(s, t), t, ErrorCode(x.w, s, t).value, x.to)
            && x.to.task == s.task && x.to.retryCount == s.retryCount + 1 <= MaxRetries(t.rules)
  {
    hide Act, Leave, Found;
    var t, s := p.tasks[idx], x.from;
    HaltsThere(p, idx, x);
    ActRetries(p, x.w, s, t);
    var code := ErrorCode(x.w, s, t).value;
    FoundIsARule(t.rules, code);
    WithinMax(t.rules, Found(t.rules, code).value);
  }

  // An advance that ends in an update or a park at a task with an action ends inside that action.
  lemma HaltsThere(p: Process, idx: int, x: Turn)
    requires Retried(p, idx, x) || Waits(p, idx, x)
    ensures InList(p, idx) && Act(p, x.w, x.from, p.tasks[idx]) == Halt(AdvanceEnd(Ok(p), x.w, x.from, x.reclaimed, x.limit))
  {
    hide Act, Leave;
    var t, s := p.tasks[idx], x.from;
    assert s.(task := t.id) == s;
    assert AdvanceEnd(Ok(p), x.w, s, x.reclaimed, x.limit) == Loop(p, x.w, s, idx, x.limit);
    var a := Act(p, x.w, s, t);
    if a.Acted? {
      var m := Leave(p, a.inst, idx, a.result, Previous(s, t));
      if m.Stop? { LeaveNeverUpdates(p, a.inst, idx, a.result, Previous(s, t)); }
    }
  }

  lemma WaitsThere(p: Process, idx: int, x: Turn)
    requires Waits(p, idx, x)
    ensures InList(p, idx) && x.to.task == x.from.task && x.to.retryCount == x.from.retryCount
  {
    hide HandleCallError;
    HaltsThere(p, idx, x);
    var t, s := p.tasks[idx], x.from;
    if t.action.Call? && x.w.call(t.id, s.data).Errored? {
      ErrorEnds(p, x.w, s, t, x.w.call(t.id, s.data).message, x.w.call(t.id, s.data).code);
    } else if t.action.ExternalTask? && s.data.result.None? && s.wait.External? {
      ErrorEnds(p, x.w, WaitOver(s, t), t, "external task timed out", "external.timeout");
    }
  }

  lemma FoundIsARule(rules: seq<ErrorCase>, code: string)
    requires Found(rules, code).Some?
    ensures Found(rules, code).value in rules
  {
  }

  // The advances of one visit that do not end it, in a row. In between the outside may answer an
  // external task, run out a timer or cancel, but leaves the task and the count alone.
  ghost predicate Visit(p: Process, idx: int, turns: seq<Turn>) {
    && (forall i :: 0 <= i < |turns| ==> Retried(p, idx, turns[i]) || Waits(p, idx, turns[i]))
    && forall i :: 0 < i < |turns| ==> turns[i].from.task == turns[i - 1].to.task && turns[i].from.retryCount == turns[i - 1].to.retryCount
  }

  ghost function Attempts(p: Process, idx: int, turns: seq<Turn>): nat {
    if turns == [] then 0
    else Attempts(p, idx, turns[..|turns| - 1]) + if Retried(p, idx, turns[|turns| - 1]) then 1 else 0
  }

  // However often the world errs, one visit makes at most as many further attempts as the most
  // generous rule of the task allows.
  lemma {:induction false} RetryBudget(p: Process, idx: int, turns: seq<Turn>)
    requires Visit(p, idx, turns) && turns != []
    ensures InList(p, idx) && turns[|turns| - 1].to.task == turns[0].from.task
    ensures turns[|turns| - 1].to.retryCount == turns[0].from.retryCount + Attempts(p, idx, turns)
    ensures Attempts(p, idx, turns) > 0 ==> turns[0].from.retryCount + Attempts(p, idx, turns) <= MaxRetries(p.tasks[idx].rules)
    decreases |turns|
  {
    hide Retried, Waits, MaxRetries;
    var n := |turns| - 1;
    assert Retried(p, idx, turns[n]) || Waits(p, idx, turns[n]);
    if Retried(p, idx, turns[n]) {
      HaltsThere(p, idx, turns[n]);
      RetriedOnce(p, idx, turns[n]);
    } else {
      WaitsThere(p, idx, turns[n]);
    }
    if n > 0 {
      assert Visit(p, idx, turns[..n]);
      RetryBudget(p, idx, turns[..n]);
    } else {
      assert turns[..n] == [];
    }
  }

  // On an only_once task every attempt that another follows failed before the remote was reached,
  // or under a rule that says so.
  lemma OnlyOnceNotRepeated(p: Process, idx: int, turns: seq<Turn>, i: nat)
    requires Visit(p, idx, turns) && i < |turns| && Retried(p, idx, turns[i]) && p.tasks[idx].onlyOnce
    ensures var t, x := p.tasks[idx], turns[i];
            ErrorCode(x.w, x.from, t).Some? && NotReached(t, ErrorCode(x.w, x.from, t).value)
  {
    hide NotReached, ErrorCode;
    RetriedOnce(p, idx, turns[i]);
  }

  // On a validated task the budget of the rule that is found is all that counts.
  lemma ValidatedRetries(p: Process, w: World, s: Inst, t: TaskDef, known: set<string>, message: string, code: string)
    requires s.status.Running? && forall j: nat :: j < |t.rules| ==> RuleOk(t.rules[j], j, |t.rules|, t.onlyOnce, known)
    ensures var e := HandleCallError(p, w, s, t, message, code);
            e.kind.Update? && e.inst.retryCount > 0 <==> Found(t.rules, code).Some? && s.retryCount < Found(t.rules, code).value.retries
  {
    hide RuleOk, Found;
    if Found(t.rules, code).Some? && Found(t.rules, code).value.retries > 0 { RetriesAreAllowed(t.rules, t.onlyOnce, known, code); }
  }

  // On a validated task an error route is never refused.
  lemma ValidatedRoutes(p: Process, w: World, s: Inst, t: TaskDef, known: set<string>, message: string, code: string)
    requires s.status.Running? && (forall j: nat :: j < |t.rules| ==> RuleOk(t.rules[j], j, |t.rules|, t.onlyOnce, known))
    requires (forall id :: id in known ==> TaskIndex(p.tasks, id) >= 0) && Found(t.rules, code).Some? && Found(t.rules, code).value.goto != ""
    ensures !HandleCallError(p, w, s, t, message, code).inst.status.Failed?
  {
    var m := Found(t.rules, code).value;
    var i: nat :| FirstCatch(t.rules, code, i) && m == t.rules[i];
    assert RuleOk(t.rules[i], i, |t.rules|, t.onlyOnce, known);
  }

  // --- leaving a task ---

  // The next task is the one after, or one of the definition; counters are reset, so every task
  // is entered without a timer; nothing but the task's own output is written.
  lemma LeavesCleanly(p: Process, s: Inst, idx: int, result: S.Value, previous: S.Value)
    requires InList(p, idx)
    ensures match Leave(p, s, idx, result, previous)
            case Go(e, next) =>
              && (next == idx + 1 || (InList(p, next) && FirstNamed(p, next)))
              && e.task == TaskIdAt(p.tasks, next) && e.retryCount == 0 && e.wakeAt.None?
              && e.status == s.status && e.wait == s.wait && e.error == s.error
              && OnlyOwnOutput(s.data, e.data, p.tasks[idx]) && Projected(p, s.data, Self(result, previous, None), e.data, p.tasks[idx])
            case Stop(e) =>
              && e.kind.Terminal? && (e.inst.status.Completed? || e.inst.status.Failed?) && e.inst.task == s.task
              && OnlyOwnOutput(s.data, e.inst.data.(output := s.data.output), p.tasks[idx])
              && (e.inst.status.Completed? ==> Projected(p, s.data, Self(result, previous, None), e.inst.data, p.tasks[idx]))
  {
    hide Route;
  }

  predicate FirstNamed(p: Process, i: int)
    requires InList(p, i)
  {
    TaskIndex(p.tasks, p.tasks[i].id) == i
  }

  predicate OnlyOwnOutput(d: Data, d': Data, t: TaskDef) {
    && (forall k :: k in d.outputs && k != t.id ==> k in d'.outputs && d'.outputs[k] == d.outputs[k])
    && (forall k :: k in d'.outputs && k != t.id ==> k in d.outputs)
    && (!t.projects ==> d' == d)
    && d' == d.(outputs := d'.outputs, order := d'.order) && (d'.order == d.order || d'.order == d.order + [t.id])
  }

  // A task that projects leaves what its projection gives on the data before it.
  predicate Projected(p: Process, d: Data, self: Self, d': Data, t: TaskDef) {
    t.projects ==> p.project(t.id, d, self).Ok? && t.id in d'.outputs && d'.outputs[t.id] == p.project(t.id, d, self).value
  }

  // What validation wants of the switch of the task at position idx.
  predicate SwitchOk(p: Process, idx: int)
    requires InList(p, idx)
  {
    var cases := p.tasks[idx].switch;
    && cases != [] && cases[|cases| - 1].cond == ""
    && forall c :: c in cases ==>
        c.goto == END || (c.goto == NEXT && idx < |p.tasks| - 1) || (c.goto != "" && c.goto[0] == '$' && TaskIndex(p.tasks, c.goto[1..]) >= 0)
  }

  lemma {:induction false} CatchAllRoutes(p: Process, cases: seq<Case>, d: Data, self: Self)
    requires cases != [] && cases[|cases| - 1].cond == "" && Route(p, cases, d, self).Ok?
    ensures exists c :: c in cases && c.goto == Route(p, cases, d, self).value
    decreases |cases|
  {
    assert cases[0] in cases;
    if cases[0].cond != "" && !p.test(cases[0].cond, d, self).value {
      CatchAllRoutes(p, cases[1..], d, self);
    }
  }

  // Some expression of the task, or of the process output, fails on some data.
  ghost predicate SomeFailure(p: Process, t: TaskDef) {
    || (exists d, self :: p.project(t.id, d, self).Err?)
    || (exists c, d, self :: c in t.switch && p.test(c.cond, d, self).Err?)
    || exists d :: p.output(d).Err?
  }

  // A validated switch routes: unless an expression fails, a task is left for a listed one or
  // completes the process.
  lemma ValidatedLeaves(p: Process, s: Inst, idx: int, result: S.Value, previous: S.Value)
    requires InList(p, idx) && SwitchOk(p, idx)
    ensures match Leave(p, s, idx, result, previous)
            case Go(_, next) => InList(p, next)
            case Stop(e) => e.inst.status.Completed? || SomeFailure(p, p.tasks[idx])
  {
    var t := p.tasks[idx];
    if !SomeFailure(p, t) {
      var out := if t.projects then p.project(t.id, s.data, Self(result, previous, None)) else Ok(S.Null);
      var d := if t.projects then Exported(s.data, t.id, out.value) else s.data;
      var self := Self(result, previous, if t.projects then Some(out.value) else None);
      RoutesWithoutError(p, t.switch, d, self);
      CatchAllRoutes(p, t.switch, d, self);
    } else if Leave(p, s, idx, result, previous).Go? {
      RoutesInList(p, s, idx, result, previous);
    }
  }

  lemma RoutesInList(p: Process, s: Inst, idx: int, result: S.Value, previous: S.Value)
    requires InList(p, idx) && SwitchOk(p, idx) && Leave(p, s, idx, result, previous).Go?
    ensures InList(p, Leave(p, s, idx, result, previous).idx)
  {
    var t := p.tasks[idx];
    var out := if t.projects then p.project(t.id, s.data, Self(result, previous, None)) else Ok(S.Null);
    var d := if t.projects then Exported(s.data, t.id, out.value) else s.data;
    CatchAllRoutes(p, t.switch, d, Self(result, previous, if t.projects then Some(out.value) else None));
  }

  lemma {:induction false} RoutesWithoutError(p: Process, cases: seq<Case>, d: Data, self: Self)
    requires forall c :: c in cases ==> p.test(c.cond, d, self).Ok?
    ensures Route(p, cases, d, self).Ok?
  {
    if cases != [] { RoutesWithoutError(p, cases[1..], d, self); }
  }

  // --- timers ---

  // A delay is stamped once: the advance that enters it checkpoints a deadline, and every later
  // one that finds the deadline goes on with nothing, whatever the clock and the expression say.
  lemma DelayStampsOnce(p: Process, w: World, w': World, s: Inst, idx: int, limit: nat)
    requires InList(p, idx) && p.tasks[idx].action.Delay? && s.status.Running? && TaskIndex(p.tasks, s.task) == idx
    requires s.wakeAt.None? && w.delay(s.task, s.data).Ok?
    ensures var e := AdvanceEnd(Ok(p), w, s, false, limit);
            && e.kind.Progress? && e.inst == s.(wakeAt := Some(w.now + w.delay(s.task, s.data).value))
            && Iterate(p, w', e.inst, idx) == Leave(p, e.inst, idx, S.Null, Previous(s, p.tasks[idx]))
  {
    assert s.(task := p.tasks[idx].id) == s;
    assert AdvanceEnd(Ok(p), w, s, false, limit) == Loop(p, w, s, idx, limit);
  }

  // --- external tasks ---

  // The row as a resolver or a delivery leaves it.
  function Resumed(s: Inst, v: S.Value): Inst {
    s.(wait := NoWait, wakeAt := None, data := s.data.(result := Some(v)))
  }

  // One arming, one result: a task is parked under the token it was armed with and no other; the
  // advance that finds a result goes on with that very result and keeps neither it nor the token;
  // the one that finds none has timed out, and gives the token up before the rules are asked.
  lemma OneResultPerArming(p: Process, w: World, w': World, s: Inst, t: TaskDef, v: S.Value)
    requires t.action.ExternalTask? && s.status.Running? && s.wait.NoWait? && s.data.result.None?
    requires Act(p, w, s, t).Halt? && Act(p, w, s, t).end.kind.Parked?
    ensures var parked := Act(p, w, s, t).end.inst;
            && w.arm(t.id, s.data) == Armed(parked.data.token.value)
            && parked.wakeAt == (if t.timeoutMs == 0 then None else Some(w.now + t.timeoutMs))
            && Act(p, w', Resumed(parked, v), t) == Acted(Resumed(parked, v).(data := s.data.(token := None)), v)
            && Act(p, w', parked, t).Halt? && Act(p, w', parked, t).end.inst.data.token.None? && !Act(p, w', parked, t).end.inst.wait.External?
  {
    var parked := Act(p, w, s, t).end.inst;
    ErrorKeepsWait(p, w', WaitOver(parked, t), t, "external task timed out", "external.timeout");
  }

  lemma ErrorKeepsWait(p: Process, w: World, s: Inst, t: TaskDef, message: string, code: string)
    requires s.wait.NoWait?
    ensures var e := HandleCallError(p, w, s, t, message, code).inst; e.wait.NoWait? && e.data.token == s.data.token
  {
  }

  // --- children ---

  // A batch is spawned once and collected once: the advance that spawns leaves the row at its task
  // with counters reset; woken to collect, whatever is answered, no advance spawns there again
  // before the task has been left.
  lemma ChildrenOnce(p: Process, w: World, w': World, s: Inst, t: TaskDef)
    requires t.action.Child? || t.action.ChildParallel?
    requires Act(p, w, s, t).Halt? && Act(p, w, s, t).end.kind.Spawned?
    ensures var v := Act(p, w, s, t).end.inst;
            && !s.wait.Collecting? && v.task == s.task && v.status == s.status && v.wait == s.wait && v.retryCount == 0 && v.wakeAt.None?
            && v.data.(order := s.data.order) == s.data
            && match Act(p, w', v.(wait := Collecting), t)
               case Halt(e) => e.kind.Terminal? && e.inst.status.Failed? && w'.collect(t.id).Err?
               case Acted(e, result) => e == v.(wait := NoWait) && w'.collect(t.id) == Ok(result)
  {
  }

  // --- calls ---

  // An advance makes at most one call, and what it goes on with is what that call was answered
  // with; a request that could not be built fails without asking the rules.
  lemma CallAnswered(p: Process, w: World, s: Inst, idx: int, limit: nat)
    requires InList(p, idx) && p.tasks[idx].action.Call? && s.status.Running? && TaskIndex(p.tasks, s.task) == idx
    ensures var e, reply := AdvanceEnd(Ok(p), w, s, false, limit), w.call(s.task, s.data);
            match reply
            case Answered(v) =>
              (match Leave(p, s.(retryCount := 0), idx, v, Previous(s, p.tasks[idx]))
               case Stop(end) => e == end
               case Go(next, _) => e == End(Progress, next))
            case Errored(_, _) => e.kind.Update? || e.kind.Terminal?
            case Unsent(_) => e.kind.Terminal? && e.inst.status.Failed? && e.inst.data == s.data
  {
    hide Leave, Found;
    assert s.(task := p.tasks[idx].id) == s;
    assert AdvanceEnd(Ok(p), w, s, false, limit) == Loop(p, w, s, idx, limit);
  }

  // --- armings and batches over a visit ---

  // Between two advances at an external task the outside puts a result on the row, or leaves its
  // wait and its result alone.
  predicate Answering(a: Turn, b: Turn) {
    b.from.data.result.Some? || (b.from.wait == a.to.wait && b.from.data.result == a.to.data.result)
  }

  ghost function Parks(p: Process, idx: int, turns: seq<Turn>): nat {
    if turns == [] then 0
    else Parks(p, idx, turns[..|turns| - 1]) + if Waits(p, idx, turns[|turns| - 1]) then 1 else 0
  }

  // An advance of a visit finds no result, which would end the visit; it parks an unparked row
  // under the token it was armed with, and a parked one has timed out.
  lemma ExternalTurn(p: Process, idx: int, x: Turn)
    requires (Retried(p, idx, x) || Waits(p, idx, x)) && p.tasks[idx].action.ExternalTask?
    ensures x.from.data.result.None? && x.to.data.result.None?
    ensures Waits(p, idx, x) <==> !x.from.wait.External?
    ensures if Waits(p, idx, x) then x.to.wait.External? && x.w.arm(p.tasks[idx].id, x.from.data) == Armed(x.to.data.token.value)
            else !x.to.wait.External? && x.to.data.token.None?
  {
    hide HandleCallError;
    HaltsThere(p, idx, x);
    var t, s := p.tasks[idx], x.from;
    if s.data.result.None? && s.wait.External? {
      ErrorEnds(p, x.w, WaitOver(s, t), t, "external task timed out", "external.timeout");
      ErrorKeepsResult(p, x.w, WaitOver(s, t), t, "external task timed out", "external.timeout");
    }
  }

  lemma ErrorKeepsResult(p: Process, w: World, s: Inst, t: TaskDef, message: string, code: string)
    ensures var e := HandleCallError(p, w, s, t, message, code).inst;
            e.data.result == s.data.result && e.data.token == s.data.token && (s.wait.NoWait? ==> e.wait.NoWait?)
  {
  }

  // In a visit armings and timeouts alternate: a task is armed at most once more than it is
  // attempted again, so no more often than its rules allow and once besides.
  lemma {:induction false} ArmedOncePerAttempt(p: Process, idx: int, turns: seq<Turn>)
    requires InList(p, idx) && p.tasks[idx].action.ExternalTask? && Visit(p, idx, turns) && turns != []
    requires forall i :: 0 < i < |turns| ==> Answering(turns[i - 1], turns[i])
    ensures Parks(p, idx, turns) + (if Waits(p, idx, turns[|turns| - 1]) then 0 else 1) <= Attempts(p, idx, turns) + 1
    ensures turns[0].from.retryCount == 0 ==> Parks(p, idx, turns) <= MaxRetries(p.tasks[idx].rules) + 1
    decreases |turns|
  {
    hide Retried, Waits, MaxRetries;
    var n := |turns| - 1;
    RetryBudget(p, idx, turns);
    assert Retried(p, idx, turns[n]) || Waits(p, idx, turns[n]);
    ExternalTurn(p, idx, turns[n]);
    RetriedNotWaiting(p, idx, turns[n]);
    if n > 0 {
      assert Visit(p, idx, turns[..n]);
      ArmedOncePerAttempt(p, idx, turns[..n]);
      assert Retried(p, idx, turns[n - 1]) || Waits(p, idx, turns[n - 1]);
      ExternalTurn(p, idx, turns[n - 1]);
      assert Answering(turns[n - 1], turns[n]);
    } else {
      assert turns[..n] == [];
    }
  }

  lemma RetriedNotWaiting(p: Process, idx: int, x: Turn)
    ensures !(Retried(p, idx, x) && Waits(p, idx, x))
  {
  }

  // The advance spawns the batch of the task the row stands at.
  ghost predicate Spawns(p: Process, idx: int, t: Turn) {
    At(p, idx, t.from) && AdvanceEnd(Ok(p), t.w, t.from, t.reclaimed, t.limit).kind.Spawned?
  }

  // Once its batch has been spawned the row is claimed at this task only to collect: the tree
  // protocol wakes and revives it so until the task is left.
  ghost predicate CollectsAfter(p: Process, idx: int, turns: seq<Turn>) {
    forall i, j :: 0 <= i < j < |turns| && Spawns(p, idx, turns[i]) ==> turns[j].from.wait.Collecting?
  }

  // However often the collection fails and is revived, a batch is spawned once.
  lemma SpawnedOnce(p: Process, idx: int, turns: seq<Turn>, i: nat, j: nat)
    requires CollectsAfter(p, idx, turns) && i < |turns| && j < |turns| && Spawns(p, idx, turns[i]) && Spawns(p, idx, turns[j])
    ensures i == j
  {
    hide Spawns;
    if i < j { CollectingNeverSpawns(p, idx, turns[j]); }
    if j < i { CollectingNeverSpawns(p, idx, turns[i]); }
  }

  lemma CollectingNeverSpawns(p: Process, idx: int, x: Turn)
    requires x.from.wait.Collecting?
    ensures !Spawns(p, idx, x)
  {
    hide Leave, HandleCallError;
    if Spawns(p, idx, x) {
      var t, s := p.tasks[idx], x.from;
      assert s.(task := t.id) == s;
      assert AdvanceEnd(Ok(p), x.w, s, x.reclaimed, x.limit) == Loop(p, x.w, s, idx, x.limit);
      var a := Act(p, x.w, s, t);
      if a.Acted? {
        var m := Leave(p, a.inst, idx, a.result, Previous(s, t));
        if m.Stop? { LeaveNeverUpdates(p, a.inst, idx, a.result, Previous(s, t)); }
      } else {
        NeverSpawned(p, x.w, s, t);
      }
    }
  }

  lemma NeverSpawned(p: Process, w: World, s: Inst, t: TaskDef)
    requires s.wait.Collecting? && Act(p, w, s, t).Halt?
    ensures !Act(p, w, s, t).end.kind.Spawned?
  {
  }
}
