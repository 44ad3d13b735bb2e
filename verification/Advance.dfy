/**
 One advance of one instance: the loop over the task list, the actions, error rules and
 terminal transitions. First what an advance does, as functions on the columns it may
 change; then the engine's code, which mutates the instance it claimed.
 */
module Advance {
  import opened Common
  import opened ProcessTree
  import opened ErrorRules
  import S = Schema

  type Json = S.Value

  datatype ErrorInfo = ErrorInfo(task: string, message: string, code: string)

  // context_data: token is the armed external task's, result the one submitted for it.
  datatype Data = Data(
    input: Json,
    outputs: map<string, Json>,
    order: seq<string>,
    error: Option<ErrorInfo>,
    output: Option<Json>,
    token: Option<string>,
    result: Option<Json>
  )

  datatype Case = Case(cond: string, goto: string)

  datatype TaskDef = TaskDef(id: string, action: Action, onlyOnce: bool, projects: bool, switch: seq<Case>, rules: seq<ErrorCase>, timeoutMs: nat)

  // What an expression sees as self.
  datatype Self = Self(result: Json, previous: Json, output: Option<Json>)

  // A definition with its expressions as functions of the data they read.
  datatype Process = Process(
    tasks: seq<TaskDef>,
    test: (string, Data, Self) -> Result<bool>,
    project: (string, Data, Self) -> Result<Json>,
    output: Data -> Result<Option<Json>>
  )

  datatype Reply = Unsent(reason: string) | Errored(message: string, code: string) | Answered(value: Json)

  datatype Arming = Refused(reason: string) | Buffered(value: Json) | Armed(token: string)

  // What the outside answers during one advance.
  datatype World = World(
    now: int,
    call: (string, Data) -> Reply,
    arm: (string, Data) -> Arming,
    delay: (string, Data) -> Result<nat>,
    backoff: nat -> nat,
    collect: string -> Result<Json>,
    children: (string, Data) -> Result<map<Id, string>>,
    spawn: Option<string>
  )

  // The columns an advance may change.
  datatype Inst = Inst(task: string, status: Status, wait: WaitState, retryCount: nat, wakeAt: Option<int>, error: string, data: Data)

  // How an advance ends: checkpoint, plain update, terminal save, or already persisted.
  datatype Kind = Progress | Update | Terminal | Spawned(children: map<Id, string>) | Parked

  datatype End = End(kind: Kind, inst: Inst)

  const END := "end"
  const NEXT := "next"

  // --- positions ---

  function Position(tasks: seq<TaskDef>, id: string): int
    ensures -1 <= Position(tasks, id) < |tasks|
    ensures Position(tasks, id) >= 0 ==> tasks[Position(tasks, id)].id == id
  {
    if tasks == [] then -1
    else if tasks[0].id == id then 0
    else var r := Position(tasks[1..], id); if r < 0 then -1 else r + 1
  }

  function TaskIndex(tasks: seq<TaskDef>, id: string): int {
    if id == "" then -1 else Position(tasks, id)
  }

  function TaskIdAt(tasks: seq<TaskDef>, idx: int): string {
    if 0 <= idx < |tasks| then tasks[idx].id else ""
  }

  // --- terminal transitions ---

  function Fail(s: Inst, reason: string): Inst {
    s.(status := Failed, wait := NoWait, error := reason, wakeAt := None)
  }

  function CancelNow(s: Inst): Inst {
    s.(status := Cancelled, wait := NoWait, wakeAt := if s.retryCount > 0 then None else s.wakeAt)
  }

  function SettleFailing(s: Inst): Inst {
    s.(status := Failed, wait := NoWait, wakeAt := None)
  }

  function GiveUp(s: Inst, reason: string): End {
    End(Terminal, Fail(s, reason))
  }

  // --- errors ---

  ghost predicate Retries(s: Inst, t: TaskDef, code: string) {
    var m := Found(t.rules, code);
    m.Some? && s.retryCount < m.value.retries && IsRetryAllowed(t.onlyOnce, code, m)
  }

  ghost function HandleCallError(p: Process, w: World, s: Inst, t: TaskDef, message: string, code: string): End {
    var m := Found(t.rules, code);
    if s.status.Cancelling? then
      if Retries(s, t, code) then End(Terminal, CancelNow(s)) else GiveUp(s, code)
    else if Retries(s, t, code) then
      End(Update, s.(retryCount := s.retryCount + 1, wakeAt := Some(w.now + w.backoff(s.retryCount + 1))))
    else
      var e := s.(data := s.data.(error := Some(ErrorInfo(t.id, message, code))));
      if m.Some? && m.value.goto != "" then
        if m.value.goto == END then End(Terminal, e.(status := Completed, wakeAt := None))
        else if TaskIndex(p.tasks, m.value.goto) < 0 then GiveUp(e, "goto task not found")
        else End(Update, e.(task := m.value.goto, retryCount := 0, wakeAt := None))
      else GiveUp(e, code)
  }

  // --- actions ---

  datatype Acted = Halt(end: End) | Acted(inst: Inst, result: Json)

  function Exported(d: Data, id: string, value: Json): Data {
    d.(outputs := d.outputs[id := value], order := if id in d.outputs then d.order else d.order + [id])
  }

  ghost function Act(p: Process, w: World, s: Inst, t: TaskDef): Acted {
    match t.action
    case NoAction => Acted(s, S.Null)
    case Child => RunChildren(w, s, t)
    case ChildParallel => RunChildren(w, s, t)
    case Delay =>
      if s.wakeAt.Some? then Acted(s, S.Null)
      else (match w.delay(t.id, s.data)
            case Err(m) => Halt(GiveUp(s, m))
            case Ok(ms) => Halt(End(Progress, s.(wakeAt := Some(w.now + ms)))))
    case ExternalTask =>
      if s.data.result.Some? then Acted(s.(data := s.data.(result := None, token := None)), s.data.result.value)
      else if s.wait.External? then
        Halt(HandleCallError(p, w, s.(wait := NoWait, data := s.data.(token := None)), t, "external task timed out", "external.timeout"))
      else (match w.arm(t.id, s.data)
            case Refused(m) => Halt(GiveUp(s, m))
            case Buffered(v) => Acted(s, v)
            case Armed(token) =>
              Halt(End(Parked, s.(wait := External, data := s.data.(token := Some(token), result := None),
                                  wakeAt := if t.timeoutMs > 0 then Some(w.now + t.timeoutMs) else None))))
    case Call =>
      (match w.call(t.id, s.data)
       case Unsent(m) => Halt(GiveUp(s, m))
       case Errored(m, code) => Halt(HandleCallError(p, w, s, t, m, code))
       case Answered(v) => Acted(s.(retryCount := 0), v))
  }

  function RunChildren(w: World, s: Inst, t: TaskDef): Acted {
    if s.wait.Collecting? then
      match w.collect(t.id)
      case Err(m) => Halt(GiveUp(s.(wait := NoWait), m))
      case Ok(v) => Acted(s.(wait := NoWait), v)
    else
      match w.children(t.id, s.data)
      case Err(m) => Halt(GiveUp(s, m))
      case Ok(kids) =>
        var ready := s.(retryCount := 0, wakeAt := None, data := s.data.(order := s.data.order + [t.id]));
        if w.spawn.Some? then Halt(GiveUp(ready, w.spawn.value)) else Halt(End(Spawned(kids), ready))
  }

  // --- routing ---

  // The target of the first case that holds; "" when none does.
  function Route(p: Process, cases: seq<Case>, d: Data, self: Self): Result<string> {
    if cases == [] then Ok("")
    else if cases[0].cond == "" then Ok(cases[0].goto)
    else match p.test(cases[0].cond, d, self)
      case Err(m) => Err(m)
      case Ok(holds) => if holds then Ok(cases[0].goto) else Route(p, cases[1..], d, self)
  }

  // Every case before the i-th has a condition, and it tests false.
  ghost predicate PassedOver(p: Process, cases: seq<Case>, d: Data, self: Self, i: nat)
    requires i <= |cases|
  {
    forall j :: 0 <= j < i ==> cases[j].cond != "" && p.test(cases[j].cond, d, self) == Ok(false)
  }

  // The i-th case is the one taken: its condition is empty or tests true.
  ghost predicate Takes(p: Process, cases: seq<Case>, d: Data, self: Self, i: nat) {
    i < |cases| && PassedOver(p, cases, d, self, i) && (cases[i].cond == "" || p.test(cases[i].cond, d, self) == Ok(true))
  }

  // The test of the i-th case fails before any case is taken.
  ghost predicate Breaks(p: Process, cases: seq<Case>, d: Data, self: Self, i: nat) {
    i < |cases| && PassedOver(p, cases, d, self, i) && cases[i].cond != "" && p.test(cases[i].cond, d, self).Err?
  }

  // What a switch answers: the target of the case taken, the error of the test that fails first,
  // or nothing when every condition tests false.
  ghost predicate SwitchAnswers(p: Process, cases: seq<Case>, d: Data, self: Self, r: Result<string>) {
    || (exists i: nat :: Takes(p, cases, d, self, i) && r == Ok(cases[i].goto))
    || (exists i: nat :: Breaks(p, cases, d, self, i) && r == Err(p.test(cases[i].cond, d, self).error))
    || (PassedOver(p, cases, d, self, |cases|) && r == Ok(""))
  }

  datatype Moved = Stop(end: End) | Go(inst: Inst, idx: int)

  function Complete(p: Process, s: Inst): End {
    var done := s.(status := Completed, wakeAt := None);
    match p.output(done.data)
    case Err(m) => GiveUp(done, m)
    case Ok(out) => End(Terminal, if out.Some? then done.(data := done.data.(output := out)) else done)
  }

  function Previous(s: Inst, t: TaskDef): Json {
    if t.projects && t.id in s.data.outputs then s.data.outputs[t.id] else S.Null
  }

  // From the action's result to the next position.
  function Leave(p: Process, s: Inst, idx: int, result: Json, previous: Json): Moved
    requires 0 <= idx < |p.tasks|
  {
    var t := p.tasks[idx];
    var projected := if t.projects then p.project(t.id, s.data, Self(result, previous, None)) else Ok(S.Null);
    match projected
    case Err(m) => Stop(GiveUp(s, m))
    case Ok(out) =>
      var e := if t.projects then s.(data := Exported(s.data, t.id, out)) else s;
      match Route(p, t.switch, e.data, Self(result, previous, if t.projects then Some(out) else None))
      case Err(m) => Stop(GiveUp(e, m))
      case Ok(goto) =>
        if goto == "" then Stop(GiveUp(e, "no case matched"))
        else if goto == END then Stop(Complete(p, e.(retryCount := 0)))
        else
          var next := if goto == NEXT then idx + 1 else TaskIndex(p.tasks, goto[1..]);
          if goto != NEXT && next < 0 then Stop(GiveUp(e, "goto task not found"))
          else Go(e.(task := TaskIdAt(p.tasks, next), retryCount := 0, wakeAt := None), next)
  }

  predicate InList(p: Process, idx: int) {
    0 <= idx < |p.tasks|
  }

  // One task. Off the list there is nothing left to do.
  ghost function Iterate(p: Process, w: World, s: Inst, idx: int): Moved {
    if !InList(p, idx) then Stop(Complete(p, s.(task := "")))
    else
      var t := p.tasks[idx];
      var here := s.(task := t.id);
      match Act(p, w, here, t)
      case Halt(end) => Stop(end)
      case Acted(e, result) => Leave(p, e, idx, result, Previous(here, t))
  }

  predicate HasCall(p: Process, idx: int) {
    InList(p, idx) && !p.tasks[idx].action.NoAction?
  }

  // Call-less tasks are run on in memory, at most `left` times more.
  ghost function Loop(p: Process, w: World, s: Inst, idx: int, left: nat): End
    decreases left
  {
    match Iterate(p, w, s, idx)
    case Stop(end) => end
    case Go(e, next) => if HasCall(p, idx) || left == 0 then End(Progress, e) else Loop(p, w, e, next, left - 1)
  }

  lemma LoopTurn(p: Process, w: World, s: Inst, idx: int, left: nat)
    ensures Loop(p, w, s, idx, left) ==
            match Iterate(p, w, s, idx)
            case Stop(end) => end
            case Go(e, next) => if HasCall(p, idx) || left == 0 then End(Progress, e) else Loop(p, w, e, next, left - 1)
  {
  }

  const MAX_INLINE_TASKS: nat := 1000

  // A whole advance; loaded is the definition with its configuration, or why there is none.
  ghost function AdvanceEnd(loaded: Result<Process>, w: World, s: Inst, reclaimed: bool, limit: nat): End {
    if s.status.Failing? then End(Terminal, SettleFailing(s))
    else if s.status.Cancelling? then End(Terminal, CancelNow(s))
    else match loaded
      case Err(m) => GiveUp(s, m)
      case Ok(p) =>
        var idx := TaskIndex(p.tasks, s.task);
        if s.task != "" && idx < 0 then GiveUp(s, "current task not found in definition")
        else if reclaimed && HasCall(p, idx) && p.tasks[idx].onlyOnce then GiveUp(s, "only_once task interrupted by a lease takeover")
        else Loop(p, w, s, idx, limit)
  }

  // --- the engine's code ---

  class Instance {
    var task: string
    var status: Status
    var wait: WaitState
    var retryCount: nat
    var wakeAt: Option<int>
    var error: string
    var data: Data

    ghost function Columns(): Inst
      reads this
    {
      Inst(task, status, wait, retryCount, wakeAt, error, data)
    }

    constructor (s: Inst)
      ensures Columns() == s
    {
      task, status, wait, retryCount, wakeAt, error, data := s.task, s.status, s.wait, s.retryCount, s.wakeAt, s.error, s.data;
    }

    method FailInstance(reason: string) returns (k: Kind)
      modifies this
      ensures End(k, Columns()) == GiveUp(old(Columns()), reason)
    {
      status := Failed;
      wait := NoWait;
      error := reason;
      wakeAt := None;
      return Terminal;
    }

    method CancelInstance() returns (k: Kind)
      modifies this
      ensures End(k, Columns()) == End(Terminal, CancelNow(old(Columns())))
    {
      status := Cancelled;
      wait := NoWait;
      if retryCount > 0 { wakeAt := None; }
      return Terminal;
    }

    method CallError(p: Process, w: World, t: TaskDef, message: string, code: string) returns (k: Kind)
      modifies this
      ensures End(k, Columns()) == HandleCallError(p, w, old(Columns()), t, message, code)
    {
      var matched := MatchOnError(t.rules, code);
      var retries := matched.Some? && retryCount < matched.value.retries && IsRetryAllowed(t.onlyOnce, code, matched);
      if status == Cancelling {
        if retries { k := CancelInstance(); } else { k := FailInstance(code); }
        return;
      }
      if retries {
        retryCount := retryCount + 1;
        wakeAt := Some(w.now + w.backoff(retryCount));
        return Update;
      }
      data := data.(error := Some(ErrorInfo(t.id, message, code)));
      if matched.Some? && matched.value.goto != "" {
        if matched.value.goto == END {
          status := Completed;
          wakeAt := None;
          return Terminal;
        }
        if TaskIndex(p.tasks, matched.value.goto) < 0 {
          k := FailInstance("goto task not found");
          return;
        }
        task := matched.value.goto;
        retryCount := 0;
        wakeAt := None;
        return Update;
      }
      k := FailInstance(code);
    }

    // None: carry on with the result.
    method RunChildProcesses(w: World, t: TaskDef) returns (done: Option<Kind>, result: Json)
      modifies this
      ensures RunChildren(w, old(Columns()), t) ==
              if done.Some? then Halt(End(done.value, Columns())) else Acted(Columns(), result)
    {
      result := S.Null;
      if wait == Collecting {
        var out := w.collect(t.id);
        wait := NoWait;
        if out.Err? {
          var k := FailInstance(out.error);
          return Some(k), S.Null;
        }
        return None, out.value;
      }
      var kids := w.children(t.id, data);
      if kids.Err? {
        var k := FailInstance(kids.error);
        return Some(k), S.Null;
      }
      data := data.(order := data.order + [t.id]);
      retryCount := 0;
      wakeAt := None;
      if w.spawn.Some? {
        var k := FailInstance(w.spawn.value);
        return Some(k), S.Null;
      }
      return Some(Spawned(kids.value)), S.Null;
    }

    method RunDelay(p: Process, w: World, t: TaskDef) returns (done: Option<Kind>)
      requires t.action.Delay?
      modifies this
      ensures Act(p, w, old(Columns()), t) ==
              if done.Some? then Halt(End(done.value, Columns())) else Acted(Columns(), S.Null)
    {
      if wakeAt.None? {
        var ms := w.delay(t.id, data);
        if ms.Err? {
          var k := FailInstance(ms.error);
          return Some(k);
        }
        wakeAt := Some(w.now + ms.value);
        return Some(Progress);
      }
      return None;
    }

    method RunExternal(p: Process, w: World, t: TaskDef) returns (done: Option<Kind>, result: Json)
      requires t.action.ExternalTask?
      modifies this
      ensures Act(p, w, old(Columns()), t) ==
              if done.Some? then Halt(End(done.value, Columns())) else Acted(Columns(), result)
    {
      if data.result.Some? {
        result := data.result.value;
        data := data.(result := None, token := None);
        return None, result;
      }
      if wait == External {
        wait := NoWait;
        data := data.(token := None);
        var k := CallError(p, w, t, "external task timed out", "external.timeout");
        return Some(k), S.Null;
      }
      var armed := w.arm(t.id, data);
      match armed {
        case Refused(m) =>
          var k := FailInstance(m);
          return Some(k), S.Null;
        case Buffered(v) => return None, v;
        case Armed(token) =>
          data := data.(token := Some(token), result := None);
          wait := External;
          wakeAt := if t.timeoutMs > 0 then Some(w.now + t.timeoutMs) else None;
          return Some(Parked), S.Null;
      }
    }

    method ExecuteAction(p: Process, w: World, t: TaskDef) returns (done: Option<Kind>, result: Json)
      requires t.action.Call?
      modifies this
      ensures Act(p, w, old(Columns()), t) ==
              if done.Some? then Halt(End(done.value, Columns())) else Acted(Columns(), result)
    {
      match w.call(t.id, data) {
        case Unsent(m) =>
          var k := FailInstance(m);
          return Some(k), S.Null;
        case Errored(m, code) =>
          var k := CallError(p, w, t, m, code);
          return Some(k), S.Null;
        case Answered(v) =>
          retryCount := 0;
          return None, v;
      }
    }

    method RunAction(p: Process, w: World, t: TaskDef) returns (done: Option<Kind>, result: Json)
      modifies this
      ensures Act(p, w, old(Columns()), t) ==
              if done.Some? then Halt(End(done.value, Columns())) else Acted(Columns(), result)
    {
      match t.action {
        case NoAction => return None, S.Null;
        case Child => done, result := RunChildProcesses(w, t);
        case ChildParallel => done, result := RunChildProcesses(w, t);
        case Delay =>
          done := RunDelay(p, w, t);
          result := S.Null;
        case ExternalTask => done, result := RunExternal(p, w, t);
        case Call => done, result := ExecuteAction(p, w, t);
      }
    }

    method EvalSwitch(p: Process, t: TaskDef, self: Self) returns (goto: Result<string>)
      ensures goto == Route(p, t.switch, data, self)
      ensures SwitchAnswers(p, t.switch, data, self, goto)
    {
      for i := 0 to |t.switch|
        invariant Route(p, t.switch, data, self) == Route(p, t.switch[i..], data, self)
        invariant PassedOver(p, t.switch, data, self, i)
      {
        var c := t.switch[i];
        assert t.switch[i..][0] == c && t.switch[i..][1..] == t.switch[i + 1..];
        if c.cond == "" {
          assert Takes(p, t.switch, data, self, i);
          return Ok(c.goto);
        }
        var ok := p.test(c.cond, data, self);
        if ok.Err? {
          assert Breaks(p, t.switch, data, self, i);
          return Err(ok.error);
        }
        if ok.value {
          assert Takes(p, t.switch, data, self, i);
          return Ok(c.goto);
        }
      }
      return Ok("");
    }

    method ComputeOutput(p: Process) returns (k: Kind)
      modifies this
      ensures End(k, Columns()) == Complete(p, old(Columns()))
    {
      status := Completed;
      wakeAt := None;
      var out := p.output(data);
      if out.Err? {
        k := FailInstance(out.error);
        return;
      }
      if out.value.Some? { data := data.(output := out.value); }
      return Terminal;
    }

    // The part of the loop body after the action: projection, switch, next position.
    method LeaveTask(p: Process, idx: nat, result: Json, previous: Json) returns (done: Option<Kind>, next: int)
      requires InList(p, idx)
      modifies this
      ensures Leave(p, old(Columns()), idx, result, previous) ==
              if done.Some? then Stop(End(done.value, Columns())) else Go(Columns(), next)
    {
      var t := p.tasks[idx];
      next := -1;
      var self := Self(result, previous, None);
      if t.projects {
        var remapped := p.project(t.id, data, self);
        if remapped.Err? {
          var k := FailInstance(remapped.error);
          return Some(k), -1;
        }
        data := Exported(data, t.id, remapped.value);
        self := self.(output := Some(remapped.value));
      }
      var goto := EvalSwitch(p, t, self);
      if goto.Err? {
        var k := FailInstance(goto.error);
        return Some(k), -1;
      }
      if goto.value == "" {
        var k := FailInstance("no case matched");
        return Some(k), -1;
      }
      if goto.value == END {
        retryCount := 0;
        var k := ComputeOutput(p);
        return Some(k), -1;
      }
      if goto.value == NEXT {
        next := idx + 1;
      } else {
        next := TaskIndex(p.tasks, goto.value[1..]);
        if next < 0 {
          var k := FailInstance("goto task not found");
          return Some(k), -1;
        }
      }
      task := TaskIdAt(p.tasks, next);
      retryCount := 0;
      wakeAt := None;
      return None, next;
    }

    // One pass of the loop: off the list the process is complete.
    method RunTask(p: Process, w: World, idx: int) returns (done: Option<Kind>, next: int)
      modifies this
      ensures Iterate(p, w, old(Columns()), idx) == if done.Some? then Stop(End(done.value, Columns())) else Go(Columns(), next)
    {
      hide Act, Leave, Complete;
      next := -1;
      if idx < 0 || idx >= |p.tasks| {
        task := "";
        var k := ComputeOutput(p);
        return Some(k), -1;
      }
      var t := p.tasks[idx];
      task := t.id;
      var prior: Json := S.Null;
      if t.projects && t.id in data.outputs { prior := data.outputs[t.id]; }
      var result: Json;
      done, result := RunAction(p, w, t);
      if done.Some? { return; }
      done, next := LeaveTask(p, idx, result, prior);
    }

    // Ends after at most MAX_INLINE_TASKS + 1 tasks, however the routing loops.
    method Advance(loaded: Result<Process>, w: World, reclaimed: bool) returns (k: Kind, ghost tasksRun: nat)
      modifies this
      ensures End(k, Columns()) == AdvanceEnd(loaded, w, old(Columns()), reclaimed, MAX_INLINE_TASKS)
      ensures tasksRun <= 1001
    {
      hide Act, Leave, Complete, Position, HandleCallError, Loop, Iterate;
      tasksRun := 0;
      if status == ProcessTree.Failing {
        status, wait, wakeAt := Failed, NoWait, None;
        return Terminal, 0;
      }
      if status == Cancelling {
        k := CancelInstance();
        return;
      }
      if loaded.Err? {
        k := FailInstance(loaded.error);
        return;
      }
      var p := loaded.value;
      var idx := TaskIndex(p.tasks, task);
      if task != "" && idx < 0 {
        k := FailInstance("current task not found in definition");
        return;
      }
      if reclaimed && idx >= 0 && p.tasks[idx].action != NoAction && p.tasks[idx].onlyOnce {
        k := FailInstance("only_once task interrupted by a lease takeover");
        return;
      }
      var i: nat := 0;
      ghost var start := idx;
      while true
        invariant i <= MAX_INLINE_TASKS && tasksRun == i
        invariant Loop(p, w, old(Columns()), start, MAX_INLINE_TASKS) == Loop(p, w, Columns(), idx, MAX_INLINE_TASKS - i)
        decreases MAX_INLINE_TASKS - i
      {
        tasksRun := tasksRun + 1;
        LoopTurn(p, w, Columns(), idx, MAX_INLINE_TASKS - i);
        var hasCall := idx >= 0 && idx < |p.tasks| && p.tasks[idx].action != NoAction;
        var done, next := RunTask(p, w, idx);
        if done.Some? { return done.value, tasksRun; }
        if hasCall || i >= MAX_INLINE_TASKS { return Progress, tasksRun; }
        idx := next;
        i := i + 1;
      }
    }
  }
}
