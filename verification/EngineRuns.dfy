/** What the availability analysis says of a task holds of every instance that enters it. */
module EngineRuns {
  import opened Common
  import opened ProcessTree
  import opened ErrorRules
  import opened Advance
  import opened Visits
  import A = Availability
  import L = AvailabilityLoops
  import F = AvailabilityEnd
  import S = Schema

  // --- a definition as the analysis reads it ---

  function GotoOf(goto: string): A.Goto {
    if goto == END then A.End
    else if goto == NEXT then A.Next
    else if goto != "" && goto[0] == '$' then A.ToTask(goto[1..])
    else A.Nowhere
  }

  function RuleGoto(goto: string): A.Goto {
    if goto == "" then A.Nowhere else if goto == END then A.End else A.ToTask(goto)
  }

  function TaskOf(t: TaskDef): A.Task {
    A.Task(t.id, t.projects, seq(|t.switch|, i requires 0 <= i < |t.switch| => GotoOf(t.switch[i].goto)),
           seq(|t.rules|, i requires 0 <= i < |t.rules| => RuleGoto(t.rules[i].goto)))
  }

  function Tasks(p: Process): (ts: seq<A.Task>)
    ensures |ts| == |p.tasks| && forall i :: 0 <= i < |ts| ==> ts[i] == TaskOf(p.tasks[i])
  {
    seq(|p.tasks|, i requires 0 <= i < |p.tasks| => TaskOf(p.tasks[i]))
  }

  ghost function Graph(p: Process): A.Preds {
    L.Graph(Tasks(p))
  }

  function Has(p: Process): seq<bool> {
    L.Outputs(Tasks(p))
  }

  // Validated, and with the distinct ids the tables are keyed by.
  ghost predicate Valid(p: Process) {
    && p.tasks != []
    && (forall i :: 0 <= i < |p.tasks| ==> p.tasks[i].id != "" && SwitchOk(p, i))
    && forall i, j :: 0 <= i < j < |p.tasks| ==> p.tasks[i].id != p.tasks[j].id
  }

  lemma ValidIsDistinct(p: Process)
    requires Valid(p)
    ensures L.DistinctIds(Tasks(p))
  {
  }

  // The analysis looks for the last task of an id, the engine for the first.
  lemma SameIndex(p: Process, id: string)
    requires Valid(p)
    ensures L.IndexOf(Tasks(p), id) == Position(p.tasks, id)
  {
    hide SwitchOk;
    L.IndexInRange(Tasks(p), id);
    NotThere(p.tasks, id);
  }

  lemma {:induction false} NotThere(tasks: seq<TaskDef>, id: string)
    ensures Position(tasks, id) < 0 ==> forall i :: 0 <= i < |tasks| ==> tasks[i].id != id
  {
    if tasks != [] {
      NotThere(tasks[1..], id);
      assert forall i :: 1 <= i < |tasks| ==> tasks[i] == tasks[1..][i - 1];
    }
  }

  lemma IndexOfTask(p: Process, i: nat)
    requires Valid(p) && i < |p.tasks|
    ensures TaskIndex(p.tasks, p.tasks[i].id) == i
  {
    hide SwitchOk;
    NotThere(p.tasks, p.tasks[i].id);
  }

  // --- an instance and the path it has taken ---

  // The row stands at task idx, reached by that path; every output produced on it is stored, and
  // the error value is there if the path went through an error route.
  ghost predicate Tracks(p: Process, path: seq<A.Visit>, s: Inst, idx: int) {
    && InList(p, idx) && s.task == p.tasks[idx].id
    && A.Run(Graph(p), path, idx) && Holds(p, path, s.data)
  }

  ghost predicate Holds(p: Process, path: seq<A.Visit>, d: Data) {
    && (forall j: nat {:trigger A.Produced(Has(p), path, j)} :: j < |p.tasks| && A.Produced(Has(p), path, j) ==> p.tasks[j].id in d.outputs)
    && (A.ErrorSet(path) ==> d.error.Some?)
  }

  // Nothing else is stored.
  ghost predicate Exactly(p: Process, path: seq<A.Visit>, d: Data) {
    && (forall j: nat {:trigger A.Produced(Has(p), path, j)} :: j < |p.tasks| && p.tasks[j].id in d.outputs ==> A.Produced(Has(p), path, j))
    && (d.error.Some? ==> A.ErrorSet(path))
  }

  predicate SameStored(d: Data, d': Data) {
    d'.outputs == d.outputs && d'.error == d.error
  }

  lemma SameHolds(p: Process, path: seq<A.Visit>, d: Data, d': Data)
    requires SameStored(d, d')
    ensures Holds(p, path, d) ==> Holds(p, path, d')
    ensures Exactly(p, path, d) ==> Exactly(p, path, d')
  {
  }

  // --- one task ---

  // What an action leaves of outputs and error, and where an error takes the row.
  lemma ActStores(p: Process, w: World, s: Inst, t: TaskDef)
    requires s.status.Running?
    ensures match Act(p, w, s, t)
            case Acted(e, _) => SameStored(s.data, e.data) && e.task == s.task
            case Halt(e) =>
              && e.inst.data.outputs == s.data.outputs
              && (s.data.error.Some? ==> e.inst.data.error.Some?)
              && (!e.kind.Terminal? && !(e.kind.Update? && e.inst.retryCount == 0) ==> SameStored(s.data, e.inst.data) && e.inst.task == s.task)
              && (e.kind.Update? && e.inst.retryCount == 0 ==> ErrorRouted(p, t, e.inst))
              && (e.kind.Terminal? ==> e.inst.task == s.task && (e.inst.status.Completed? ==> ErrorCompleted(t, e.inst)))
  {
    hide Found;
    if t.action.Call? && w.call(t.id, s.data).Errored? {
      var r := w.call(t.id, s.data);
      ErrorStores(p, w, s, t, r.message, r.code);
    } else if t.action.ExternalTask? && s.data.result.None? && s.wait.External? {
      ErrorStores(p, w, WaitOver(s, t), t, "external task timed out", "external.timeout");
    }
  }

  ghost predicate ErrorRouted(p: Process, t: TaskDef, v: Inst) {
    v.data.error.Some? && TaskIndex(p.tasks, v.task) >= 0 && exists c :: c in t.rules && c.goto == v.task && c.goto != "" && c.goto != END
  }

  ghost predicate ErrorCompleted(t: TaskDef, v: Inst) {
    v.data.error.Some? && exists c :: c in t.rules && c.goto == END
  }

  lemma ErrorStores(p: Process, w: World, s: Inst, t: TaskDef, message: string, code: string)
    requires s.status.Running?
    ensures var e := HandleCallError(p, w, s, t, message, code);
            && e.inst.data.outputs == s.data.outputs
            && (s.data.error.Some? ==> e.inst.data.error.Some?)
            && (e.kind.Update? || e.kind.Terminal?)
            && (e.kind.Update? && e.inst.retryCount > 0 ==> SameStored(s.data, e.inst.data) && e.inst.task == s.task)
            && (e.kind.Update? && e.inst.retryCount == 0 ==> ErrorRouted(p, t, e.inst))
            && (e.kind.Terminal? ==> e.inst.task == s.task && (e.inst.status.Completed? ==> ErrorCompleted(t, e.inst)))
  {
    if Found(t.rules, code).Some? { FoundIsARule(t.rules, code); }
  }

  // Some case of the switch leads from the task at idx to next.
  ghost predicate SwitchLeads(p: Process, idx: nat, next: nat)
    requires idx < |p.tasks|
  {
    exists c :: c in p.tasks[idx].switch &&
      ((c.goto == NEXT && next == idx + 1) || (c.goto != "" && c.goto[0] == '$' && TaskIndex(p.tasks, c.goto[1..]) == next))
  }

  lemma LeaveStores(p: Process, s: Inst, idx: int, result: S.Value, previous: S.Value)
    requires Valid(p) && InList(p, idx)
    ensures var t := p.tasks[idx];
            match Leave(p, s, idx, result, previous)
            case Go(e, next) =>
              && InList(p, next) && SwitchLeads(p, idx, next) && e.task == p.tasks[next].id
              && OwnStored(t, s.data, e.data) && Projected(p, s.data, Self(result, previous, None), e.data, t)
            case Stop(e) =>
              && e.kind.Terminal? && e.inst.task == s.task && e.inst.data.error == s.data.error
              && (forall k :: k in s.data.outputs ==> k in e.inst.data.outputs)
              && (e.inst.status.Completed? ==>
                    (exists c :: c in t.switch && c.goto == END)
                    && OwnStored(t, s.data, e.inst.data) && Projected(p, s.data, Self(result, previous, None), e.inst.data, t))
  {
    hide Valid, SwitchOk, Route, Position;
    var t := p.tasks[idx];
    var out := if t.projects then p.project(t.id, s.data, Self(result, previous, None)) else Ok(S.Null);
    if out.Ok? {
      var d := if t.projects then Exported(s.data, t.id, out.value) else s.data;
      var self := Self(result, previous, if t.projects then Some(out.value) else None);
      if Route(p, t.switch, d, self).Ok? {
        RouteLeads(p, idx, d, self);
        assert OwnStored(t, s.data, d);
      }
    }
  }

  lemma RouteLeads(p: Process, idx: nat, d: Data, self: Self)
    requires Valid(p) && InList(p, idx) && Route(p, p.tasks[idx].switch, d, self).Ok?
    ensures var goto := Route(p, p.tasks[idx].switch, d, self).value;
            && goto != ""
            && (goto == END ==> exists c :: c in p.tasks[idx].switch && c.goto == END)
            && (goto != END ==>
                  var next := if goto == NEXT then idx + 1 else TaskIndex(p.tasks, goto[1..]);
                  InList(p, next) && SwitchLeads(p, idx, next))
  {
    assert SwitchOk(p, idx);
    CatchAllRoutes(p, p.tasks[idx].switch, d, self);
  }

  predicate OwnStored(t: TaskDef, d: Data, d': Data) {
    && d'.error == d.error
    && (t.projects ==> d'.outputs.Keys == d.outputs.Keys + {t.id})
    && (!t.projects ==> d'.outputs.Keys == d.outputs.Keys)
  }

  lemma NormalStep(p: Process, idx: nat, next: nat)
    requires Valid(p) && InList(p, idx) && InList(p, next) && SwitchLeads(p, idx, next)
    ensures A.From(idx, false) in Graph(p)[next]
  {
    hide SwitchOk, L.IndexOf, Position;
    var cases := TaskOf(p.tasks[idx]).cases;
    var c :| c in p.tasks[idx].switch &&
      ((c.goto == NEXT && next == idx + 1) || (c.goto != "" && c.goto[0] == '$' && TaskIndex(p.tasks, c.goto[1..]) == next));
    var k :| 0 <= k < |p.tasks[idx].switch| && p.tasks[idx].switch[k] == c;
    assert cases[k] == GotoOf(c.goto) && cases[k] in cases;
    if c.goto == NEXT && next == idx + 1 {
      assert A.Next in cases;
    } else {
      SameIndex(p, c.goto[1..]);
      assert A.ToTask(c.goto[1..]) in cases;
    }
    assert L.NormalRoute(Tasks(p), idx, next);
    assert L.Route(Tasks(p), A.From(idx, false), next);
  }

  lemma ErrorStep(p: Process, idx: nat, v: Inst)
    requires Valid(p) && InList(p, idx) && ErrorRouted(p, p.tasks[idx], v)
    ensures A.From(idx, true) in Graph(p)[TaskIndex(p.tasks, v.task)]
  {
    hide SwitchOk, L.IndexOf, Position;
    var rules := TaskOf(p.tasks[idx]).onError;
    var c :| c in p.tasks[idx].rules && c.goto == v.task && c.goto != "" && c.goto != END;
    var k :| 0 <= k < |p.tasks[idx].rules| && p.tasks[idx].rules[k] == c;
    assert rules[k] == A.ToTask(c.goto) && rules[k] in rules;
    SameIndex(p, c.goto);
    assert L.ErrorRoute(Tasks(p), idx, TaskIndex(p.tasks, v.task));
    assert L.Route(Tasks(p), A.From(idx, true), TaskIndex(p.tasks, v.task));
  }

  // Some rule of the task at idx routes an error to next.
  ghost predicate RuleLeads(p: Process, idx: nat, next: nat)
    requires idx < |p.tasks|
  {
    exists c :: c in p.tasks[idx].rules && c.goto != "" && c.goto != END && TaskIndex(p.tasks, c.goto) == next
  }

  // The graph has an edge exactly where a case or a rule of the engine's task leads, and no other.
  lemma EdgesAreRoutes(p: Process, idx: nat, next: nat)
    requires Valid(p) && InList(p, idx) && InList(p, next)
    ensures A.From(idx, false) in Graph(p)[next] <==> SwitchLeads(p, idx, next)
    ensures A.From(idx, true) in Graph(p)[next] <==> RuleLeads(p, idx, next)
    ensures A.Start in Graph(p)[next] <==> next == 0
  {
    hide SwitchOk, L.IndexOf, Position;
    if SwitchLeads(p, idx, next) { NormalStep(p, idx, next); }
    assert A.From(idx, false) in Graph(p)[next] <==> L.Route(Tasks(p), A.From(idx, false), next);
    assert A.From(idx, true) in Graph(p)[next] <==> L.Route(Tasks(p), A.From(idx, true), next);
    assert A.Start in Graph(p)[next] <==> L.Route(Tasks(p), A.Start, next);
    if L.NormalRoute(Tasks(p), idx, next) { NormalIsCase(p, idx, next); }
    if L.ErrorRoute(Tasks(p), idx, next) { ErrorIsRule(p, idx, next); }
    if RuleLeads(p, idx, next) { RuleIsError(p, idx, next); }
  }

  // A run of the graph ends the process exactly where a case, or a rule after an error, of the engine's
  // task leads to the end.
  lemma EndsAreRoutes(p: Process, idx: nat, err: bool)
    requires Valid(p) && InList(p, idx)
    ensures F.Ends(Tasks(p), idx, err) <==>
              if err then exists c :: c in p.tasks[idx].rules && c.goto == END else exists c :: c in p.tasks[idx].switch && c.goto == END
  {
    var t := p.tasks[idx];
    assert SwitchOk(p, idx);
    var cases, rules := TaskOf(t).cases, TaskOf(t).onError;
    assert |cases| == |t.switch| && |rules| == |t.rules|;
    if A.End in cases {
      var k :| 0 <= k < |cases| && cases[k] == A.End;
      assert t.switch[k] in t.switch && t.switch[k].goto == END;
    }
    if A.End in rules {
      var k :| 0 <= k < |rules| && rules[k] == A.End;
      assert t.rules[k] in t.rules && t.rules[k].goto == END;
    }
    if c :| c in t.switch && c.goto == END {
      var k :| 0 <= k < |t.switch| && t.switch[k] == c;
      assert cases[k] == A.End;
    }
    if c :| c in t.rules && c.goto == END {
      var k :| 0 <= k < |t.rules| && t.rules[k] == c;
      assert rules[k] == A.End;
    }
  }

  lemma NormalIsCase(p: Process, idx: nat, next: nat)
    requires Valid(p) && InList(p, idx) && InList(p, next) && L.NormalRoute(Tasks(p), idx, next)
    ensures SwitchLeads(p, idx, next)
  {
    hide L.IndexOf, Position;
    var t := p.tasks[idx];
    var cases := TaskOf(t).cases;
    assert SwitchOk(p, idx) && |cases| == |t.switch| && cases != [];
    if c :| c in cases && c.ToTask? && L.IndexOf(Tasks(p), c.id) == next {
      var k :| 0 <= k < |cases| && cases[k] == c;
      assert t.switch[k] in t.switch && GotoOf(t.switch[k].goto) == c;
      SameIndex(p, c.id);
    } else {
      var k :| 0 <= k < |cases| && cases[k] == A.Next;
      assert t.switch[k] in t.switch && GotoOf(t.switch[k].goto) == A.Next;
    }
  }

  lemma ErrorIsRule(p: Process, idx: nat, next: nat)
    requires Valid(p) && InList(p, idx) && InList(p, next) && L.ErrorRoute(Tasks(p), idx, next)
    ensures RuleLeads(p, idx, next)
  {
    hide L.IndexOf, Position, SwitchOk;
    var t := p.tasks[idx];
    var rules := TaskOf(t).onError;
    var c :| c in rules && c.ToTask? && L.IndexOf(Tasks(p), c.id) == next;
    var k :| 0 <= k < |rules| && rules[k] == c;
    assert t.rules[k] in t.rules && RuleGoto(t.rules[k].goto) == c;
    SameIndex(p, c.id);
  }

  lemma RuleIsError(p: Process, idx: nat, next: nat)
    requires Valid(p) && InList(p, idx) && InList(p, next) && RuleLeads(p, idx, next)
    ensures L.ErrorRoute(Tasks(p), idx, next)
  {
    hide L.IndexOf, Position, SwitchOk;
    var t := p.tasks[idx];
    var c :| c in t.rules && c.goto != "" && c.goto != END && TaskIndex(p.tasks, c.goto) == next;
    var k :| 0 <= k < |t.rules| && t.rules[k] == c;
    assert TaskOf(t).onError[k] == A.ToTask(c.goto) && TaskOf(t).onError[k] in TaskOf(t).onError;
    SameIndex(p, c.goto);
  }

  lemma HoldsNormally(p: Process, path: seq<A.Visit>, idx: nat, d: Data, d': Data)
    requires Valid(p) && idx < |p.tasks| && Holds(p, path, d) && OwnStored(p.tasks[idx], d, d')
    ensures var q := path + [A.Visit(idx, false)];
            Holds(p, q, d') && (Exactly(p, path, d) ==> Exactly(p, q, d'))
  {
    hide SwitchOk;
    var q := path + [A.Visit(idx, false)];
    forall j: nat ensures A.Produced(Has(p), q, j) <==> A.Produced(Has(p), path, j) || (idx == j && Has(p)[j]) {
      F.ProducedOnLeaving(Has(p), path, idx, false, j);
    }
    ErrorsSame(path, idx);
  }

  lemma ErrorsSame(path: seq<A.Visit>, idx: nat)
    ensures A.ErrorSet(path + [A.Visit(idx, false)]) <==> A.ErrorSet(path)
    ensures A.ErrorSet(path + [A.Visit(idx, true)])
  {
    var q, r := path + [A.Visit(idx, false)], path + [A.Visit(idx, true)];
    assert r[|path|].err;
    if k :| 0 <= k < |path| && path[k].err { assert q[k].err; }
    if k :| 0 <= k < |q| && q[k].err { assert path[k].err; }
  }

  lemma HoldsAfterError(p: Process, path: seq<A.Visit>, idx: nat, d: Data, d': Data)
    requires Valid(p) && idx < |p.tasks| && Holds(p, path, d) && d'.outputs == d.outputs && d'.error.Some?
    ensures var q := path + [A.Visit(idx, true)];
            Holds(p, q, d') && (Exactly(p, path, d) ==> Exactly(p, q, d'))
  {
    hide SwitchOk;
    var q := path + [A.Visit(idx, true)];
    forall j: nat ensures A.Produced(Has(p), q, j) <==> A.Produced(Has(p), path, j) {
      F.ProducedOnLeaving(Has(p), path, idx, true, j);
    }
    ErrorsSame(path, idx);
  }

  // --- one advance ---

  // Where a row stands after an advance: somewhere, by some path; and as long as nothing ended in
  // a failure, with nothing else stored.
  ghost predicate Known(p: Process, s: Inst, exact: bool) {
    exists path: seq<A.Visit>, idx: int :: Tracks(p, path, s, idx) && (exact ==> Exactly(p, path, s.data))
  }

  // A completed process has stored what a run that ends there produced.
  ghost predicate Ended(p: Process, d: Data, exact: bool) {
    exists q: seq<A.Visit> :: F.EndRun(Tasks(p), Graph(p), q) && Holds(p, q, d) && (exact ==> Exactly(p, q, d))
  }

  // The row standing at idx by that path, exactly if asked for.
  ghost predicate StandsAt(p: Process, path: seq<A.Visit>, s: Inst, idx: int, exact: bool) {
    Tracks(p, path, s, idx) && (exact ==> Exactly(p, path, s.data))
  }

  ghost predicate WellEnded(p: Process, e: End, exact: bool) {
    if e.kind.Terminal? && e.inst.status.Completed? then Ended(p, e.inst.data, exact)
    else Known(p, e.inst, exact && !e.kind.Terminal?)
  }

  // One task: on to the next one by a normal edge, or to the end of the advance.
  lemma IterateTracks(p: Process, w: World, s: Inst, idx: int, path: seq<A.Visit>, exact: bool)
    requires Valid(p) && s.status.Running? && StandsAt(p, path, s, idx, exact)
    ensures match Iterate(p, w, s, idx)
            case Go(e, next) => e.status.Running? && StandsAt(p, path + [A.Visit(idx, false)], e, next, exact)
            case Stop(e) => WellEnded(p, e, exact)
  {
    hide Act, Leave, Holds, Exactly, A.Run, Graph, Valid, WellEnded;
    var t := p.tasks[idx];
    assert s.(task := t.id) == s;
    ActStores(p, w, s, t);
    ActRuns(p, w, s, t);
    match Act(p, w, s, t)
    case Halt(e) => HaltTracks(p, w, s, idx, path, e, exact);
    case Acted(e, result) =>
      SameHolds(p, path, s.data, e.data);
      LeaveTracks(p, e, idx, path, result, Previous(s, t), exact);
  }

  lemma ActRuns(p: Process, w: World, s: Inst, t: TaskDef)
    requires s.status.Running?
    ensures Act(p, w, s, t).Acted? ==> Act(p, w, s, t).inst.status.Running?
  {
    hide HandleCallError;
  }

  lemma LeaveTracks(p: Process, s: Inst, idx: int, path: seq<A.Visit>, result: S.Value, previous: S.Value, exact: bool)
    requires Valid(p) && s.status.Running? && StandsAt(p, path, s, idx, exact)
    ensures match Leave(p, s, idx, result, previous)
            case Go(e, next) => e.status.Running? && StandsAt(p, path + [A.Visit(idx, false)], e, next, exact)
            case Stop(e) => WellEnded(p, e, exact)
  {
    hide Holds, Exactly, A.Run, Graph, Valid, Route, OwnStored;
    LeaveStores(p, s, idx, result, previous);
    LeavesCleanly(p, s, idx, result, previous);
    var q := path + [A.Visit(idx, false)];
    match Leave(p, s, idx, result, previous)
    case Go(e, next) =>
      NormalStep(p, idx, next);
      GraphSize(p);
      A.RunExtends(Graph(p), path, idx, false, next);
      HoldsNormally(p, path, idx, s.data, e.data);
    case Stop(e) =>
      if e.inst.status.Completed? {
        HoldsNormally(p, path, idx, s.data, e.inst.data);
        NormalEnd(p, path, idx);
      } else {
        MoreHolds(p, path, s.data, e.inst.data);
        assert Tracks(p, path, e.inst, idx);
      }
  }

  lemma GraphSize(p: Process)
    ensures |Graph(p)| == |p.tasks|
  {
  }

  lemma MoreHolds(p: Process, path: seq<A.Visit>, d: Data, d': Data)
    requires Holds(p, path, d) && (forall k :: k in d.outputs ==> k in d'.outputs) && (d.error.Some? ==> d'.error.Some?)
    ensures Holds(p, path, d')
  {
  }

  lemma NormalEnd(p: Process, path: seq<A.Visit>, idx: nat)
    requires Valid(p) && InList(p, idx) && A.Run(Graph(p), path, idx) && exists c :: c in p.tasks[idx].switch && c.goto == END
    ensures F.EndRun(Tasks(p), Graph(p), path + [A.Visit(idx, false)])
  {
    var q := path + [A.Visit(idx, false)];
    assert q[..|q| - 1] == path;
    var c :| c in p.tasks[idx].switch && c.goto == END;
    var k :| 0 <= k < |p.tasks[idx].switch| && p.tasks[idx].switch[k] == c;
    assert TaskOf(p.tasks[idx]).cases[k] == A.End;
    assert A.End in Tasks(p)[idx].cases;
  }

  lemma ErrorEnd(p: Process, path: seq<A.Visit>, idx: nat)
    requires InList(p, idx) && A.Run(Graph(p), path, idx) && exists c :: c in p.tasks[idx].rules && c.goto == END
    ensures F.EndRun(Tasks(p), Graph(p), path + [A.Visit(idx, true)])
  {
    var q := path + [A.Visit(idx, true)];
    assert q[..|q| - 1] == path;
    var c :| c in p.tasks[idx].rules && c.goto == END;
    var k :| 0 <= k < |p.tasks[idx].rules| && p.tasks[idx].rules[k] == c;
    assert TaskOf(p.tasks[idx]).onError[k] == A.End;
    assert A.End in Tasks(p)[idx].onError;
  }

  lemma HaltTracks(p: Process, w: World, s: Inst, idx: int, path: seq<A.Visit>, e: End, exact: bool)
    requires Valid(p) && s.status.Running? && StandsAt(p, path, s, idx, exact) && Act(p, w, s, p.tasks[idx]) == Halt(e)
    ensures WellEnded(p, e, exact)
  {
    hide Act, Holds, Exactly, A.Run, Graph, Valid, ErrorRouted, ErrorCompleted;
    var t := p.tasks[idx];
    ActStores(p, w, s, t);
    if e.kind.Update? && e.inst.retryCount == 0 {
      var next := TaskIndex(p.tasks, e.inst.task);
      RoutedListed(p, t, e.inst);
      ErrorStep(p, idx, e.inst);
      GraphSize(p);
      A.RunExtends(Graph(p), path, idx, true, next);
      HoldsAfterError(p, path, idx, s.data, e.inst.data);
      assert Tracks(p, path + [A.Visit(idx, true)], e.inst, next);
    } else if !e.kind.Terminal? {
      SameHolds(p, path, s.data, e.inst.data);
      assert Tracks(p, path, e.inst, idx);
    } else if e.inst.status.Completed? {
      CompletedSet(t, e.inst);
      ErrorEnd(p, path, idx);
      HoldsAfterError(p, path, idx, s.data, e.inst.data);
    } else {
      MoreHolds(p, path, s.data, e.inst.data);
      assert Tracks(p, path, e.inst, idx);
    }
  }

  lemma RoutedListed(p: Process, t: TaskDef, v: Inst)
    requires ErrorRouted(p, t, v)
    ensures var next := TaskIndex(p.tasks, v.task); InList(p, next) && p.tasks[next].id == v.task && v.data.error.Some?
  {
  }

  lemma CompletedSet(t: TaskDef, v: Inst)
    requires ErrorCompleted(t, v)
    ensures v.data.error.Some? && exists c :: c in t.rules && c.goto == END
  {
  }

  // The advance is about to run the task at position at, with the instance e.
  ghost predicate Enters(p: Process, w: World, s: Inst, idx: int, left: nat, e: Inst, at: int)
    decreases left
  {
    || (InList(p, idx) && e == s && at == idx)
    || (!HasCall(p, idx) && left > 0 && Iterate(p, w, s, idx).Go? &&
          Enters(p, w, Iterate(p, w, s, idx).inst, Iterate(p, w, s, idx).idx, left - 1, e, at))
  }

  lemma StandsInList(p: Process, path: seq<A.Visit>, s: Inst, idx: int, exact: bool)
    requires StandsAt(p, path, s, idx, exact)
    ensures InList(p, idx)
  {
  }

  lemma {:induction false} LoopTracks(p: Process, w: World, s: Inst, idx: int, left: nat, path: seq<A.Visit>, exact: bool)
    requires Valid(p) && s.status.Running? && StandsAt(p, path, s, idx, exact)
    ensures WellEnded(p, Loop(p, w, s, idx, left), exact)
    decreases left
  {
    hide Iterate, Tracks, Exactly, Valid, Ended;
    StandsInList(p, path, s, idx, exact);
    IterateTracks(p, w, s, idx, path, exact);
    var m := Iterate(p, w, s, idx);
    if m.Go? {
      if HasCall(p, idx) || left == 0 {
        assert Known(p, m.inst, exact);
      } else {
        LoopTracks(p, w, m.inst, m.idx, left - 1, path + [A.Visit(idx, false)], exact);
      }
    }
  }

  lemma {:induction false} EntryTracks(p: Process, w: World, s: Inst, idx: int, left: nat, path: seq<A.Visit>, exact: bool, e: Inst, at: int)
    returns (q: seq<A.Visit>)
    requires Valid(p) && s.status.Running? && StandsAt(p, path, s, idx, exact) && Enters(p, w, s, idx, left, e, at)
    ensures StandsAt(p, q, e, at, exact)
    decreases left
  {
    hide Iterate, StandsAt, Valid;
    q := path;
    if !(e == s && at == idx) {
      StandsInList(p, path, s, idx, exact);
      IterateTracks(p, w, s, idx, path, exact);
      var m := Iterate(p, w, s, idx);
      q := EntryTracks(p, w, m.inst, m.idx, left - 1, path + [A.Visit(idx, false)], exact, e, at);
    }
  }

  // --- whole runs ---

  // One claim of the instance: the row that was read, the definition as it was loaded, what the
  // world answered, and what the advance came to.
  datatype Claim = Claim(from: Inst, loaded: Result<Process>, w: World, reclaimed: bool, limit: nat, end: End)

  // In between, workers crash, timers run out, external tasks are answered, batches wake the row,
  // trees are cancelled and stopped instances revived; none of it touches the task, the outputs or
  // the error value.
  predicate Untouched(s: Inst, s': Inst) {
    s'.task == s.task && SameStored(s.data, s'.data)
  }

  ghost predicate Fresh(p: Process, s: Inst) {
    p.tasks != [] && s.task == p.tasks[0].id && s.data.outputs == map[] && s.data.error.None?
  }

  // The next claim reads what the last one wrote, unless that one crashed before it wrote.
  predicate Follows(a: Claim, b: Claim) {
    Untouched(a.from, b.from) || (Untouched(a.end.inst, b.from) && !a.end.inst.status.Completed?)
  }

  // Only a running or draining row is ever claimed.
  ghost predicate Advances(p: Process, c: Claim) {
    && (c.from.status.Running? || c.from.status.Failing? || c.from.status.Cancelling?)
    && (c.loaded.Ok? ==> c.loaded.value == p) && c.end == AdvanceEnd(c.loaded, c.w, c.from, c.reclaimed, c.limit)
  }

  ghost predicate EngineRun(p: Process, claims: seq<Claim>) {
    && (claims != [] ==> exists s :: Fresh(p, s) && Untouched(s, claims[0].from))
    && (forall i :: 0 <= i < |claims| ==> Advances(p, claims[i]))
    && forall i :: 0 < i < |claims| ==> Follows(claims[i - 1], claims[i])
  }

  // No claim before the one at position i goes back to an instance that had failed or been cancelled.
  predicate NeverRevived(claims: seq<Claim>, i: nat)
    requires i < |claims|
  {
    forall k :: 0 < k <= i ==>
      Untouched(claims[k - 1].from, claims[k].from) || (Untouched(claims[k - 1].end.inst, claims[k].from) && !claims[k - 1].end.kind.Terminal?)
  }

  lemma UntouchedStands(p: Process, s: Inst, s': Inst, exact: bool)
    requires Known(p, s, exact) && Untouched(s, s')
    ensures Known(p, s', exact)
  {
    hide Holds, Exactly, A.Run, Graph;
    var path: seq<A.Visit>, idx: int :| Tracks(p, path, s, idx) && (exact ==> Exactly(p, path, s.data));
    SameHolds(p, path, s.data, s'.data);
    assert Tracks(p, path, s', idx);
  }

  lemma FreshStands(p: Process, s: Inst)
    requires Valid(p) && Fresh(p, s)
    ensures Known(p, s, true)
  {
    hide SwitchOk;
    assert L.Route(Tasks(p), A.Start, 0);
    assert A.Run(Graph(p), [], 0);
    assert Tracks(p, [], s, 0) && Exactly(p, [], s.data);
  }

  // The row the engine finds by id is the one the path leads to.
  lemma KnownAt(p: Process, s: Inst, exact: bool) returns (path: seq<A.Visit>)
    requires Valid(p) && Known(p, s, exact)
    ensures StandsAt(p, path, s, TaskIndex(p.tasks, s.task), exact)
  {
    hide Valid, Holds, Exactly, A.Run, Graph;
    var q: seq<A.Visit>, idx: int :| Tracks(p, q, s, idx) && (exact ==> Exactly(p, q, s.data));
    IndexOfTask(p, idx);
    path := q;
  }

  lemma AdvanceTracks(p: Process, c: Claim, exact: bool)
    requires Valid(p) && Advances(p, c) && Known(p, c.from, exact)
    ensures WellEnded(p, c.end, exact)
  {
    hide Valid, Loop, Known, Ended;
    var s := c.from;
    var path := KnownAt(p, s, exact);
    var idx := TaskIndex(p.tasks, s.task);
    StandsInList(p, path, s, idx, exact);
    assert Known(p, s, false) by { Weaker(p, s, exact); }
    var stays := Untouched(s, c.end.inst) && c.end.kind.Terminal? && !c.end.inst.status.Completed?;
    if stays {
      UntouchedStands(p, s, c.end.inst, false);
    } else {
      assert c.loaded.Ok? && s.status.Running?;
      if c.end == Loop(p, c.w, s, idx, c.limit) { LoopTracks(p, c.w, s, idx, c.limit, path, exact); }
    }
  }

  lemma Weaker(p: Process, s: Inst, exact: bool)
    requires Known(p, s, exact)
    ensures Known(p, s, false)
  {
    hide Tracks, Exactly;
  }

  lemma {:induction false} ClaimStands(p: Process, claims: seq<Claim>, i: nat, exact: bool)
    requires Valid(p) && EngineRun(p, claims) && i < |claims| && (exact ==> NeverRevived(claims, i))
    ensures Known(p, claims[i].from, exact)
    decreases i
  {
    hide Valid, Known, Advances, Ended;
    if i == 0 {
      var s :| Fresh(p, s) && Untouched(s, claims[0].from);
      FreshStands(p, s);
      assert Known(p, s, exact) by { KnownExactly(p, s, exact); }
      UntouchedStands(p, s, claims[0].from, exact);
    } else {
      ClaimStands(p, claims, i - 1, exact);
      var a, b := claims[i - 1], claims[i];
      assert Advances(p, a) && Follows(a, b);
      if Untouched(a.from, b.from) {
        UntouchedStands(p, a.from, b.from, exact);
      } else {
        AdvanceTracks(p, a, exact);
        var kept := exact && !a.end.kind.Terminal?;
        UntouchedStands(p, a.end.inst, b.from, kept);
        assert exact ==> kept;
      }
    }
  }

  lemma KnownExactly(p: Process, s: Inst, exact: bool)
    requires Known(p, s, true)
    ensures Known(p, s, exact)
  {
    hide Tracks, Exactly;
  }

  // The claim is about to run the task at position at, with the instance e.
  ghost predicate ClaimEnters(p: Process, c: Claim, e: Inst, at: int) {
    c.from.status.Running? && c.loaded.Ok? && Enters(p, c.w, c.from, TaskIndex(p.tasks, c.from.task), c.limit, e, at)
  }

  // Whenever any claim of a run enters a task, the instance has taken a path to it.
  lemma EntriesTrack(p: Process, claims: seq<Claim>, i: nat, exact: bool, e: Inst, at: int) returns (path: seq<A.Visit>)
    requires Valid(p) && EngineRun(p, claims) && i < |claims| && (exact ==> NeverRevived(claims, i)) && ClaimEnters(p, claims[i], e, at)
    ensures StandsAt(p, path, e, at, exact)
  {
    hide Valid, Known, EngineRun, NeverRevived, StandsAt, Enters;
    ClaimStands(p, claims, i, exact);
    var c := claims[i];
    var q := KnownAt(p, c.from, exact);
    path := EntryTracks(p, c.w, c.from, TaskIndex(p.tasks, c.from.task), c.limit, q, exact, e, at);
  }

  // --- what the analysis promises ---

  // What an instance about to run a task holds.
  predicate HoldsRequired(p: Process, e: Inst, required: map<string, seq<string>>, mustErr: map<string, bool>) {
    && (forall j :: 0 <= j < |p.tasks| && p.tasks[j].id in L.Listed(required, e.task) ==> p.tasks[j].id in e.data.outputs)
    && e.task in mustErr && (mustErr[e.task] ==> e.data.error.Some?)
  }

  // Whatever the run, crashes and revivals included: an instance that enters a task holds every
  // output listed as required there, and the error value if mustErr says so.
  lemma RequiredArePresent(p: Process, claims: seq<Claim>, i: nat, e: Inst, at: nat,
                           required: map<string, seq<string>>, optional: map<string, seq<string>>,
                           mustErr: map<string, bool>, mayErr: map<string, bool>)
    requires Valid(p) && EngineRun(p, claims) && i < |claims| && ClaimEnters(p, claims[i], e, at) && at < |p.tasks|
    requires L.Exact(Tasks(p), Graph(p), required, optional, mustErr, mayErr, at)
    ensures HoldsRequired(p, e, required, mustErr)
  {
    hide Valid, EngineRun, ClaimEnters, A.Run, A.Produced, A.ErrorSet, A.WalksStop, A.MaybeError, A.MaybeKept, Graph;
    var path := EntriesTrack(p, claims, i, false, e, at);
    assert e.task == Tasks(p)[at].id;
    forall j: nat | j < |p.tasks| && p.tasks[j].id in L.Listed(required, e.task) ensures p.tasks[j].id in e.data.outputs {
      assert Tasks(p)[j].id in L.Listed(required, e.task);
      assert A.AlwaysProduced(Graph(p), Has(p), at, j);
      assert A.Produced(Has(p), path, j);
    }
    if mustErr[e.task] { A.MustErrorIsSet(Graph(p), at, path); }
  }

  ghost predicate HoldsOnEveryRun(p: Process, required: map<string, seq<string>>, mustErr: map<string, bool>) {
    forall claims: seq<Claim>, i: nat, e: Inst, at: nat {:trigger EngineRun(p, claims), ClaimEnters(p, claims[i], e, at)} ::
      EngineRun(p, claims) && i < |claims| && at < |p.tasks| && ClaimEnters(p, claims[i], e, at) ==> HoldsRequired(p, e, required, mustErr)
  }

  // The tables computed for a definition are kept by every run of every instance of it.
  method ContextSets(p: Process) returns (
      required: map<string, seq<string>>, optional: map<string, seq<string>>, mustErr: map<string, bool>, mayErr: map<string, bool>)
    ensures Valid(p) && A.AllReachable(Graph(p)) ==> HoldsOnEveryRun(p, required, mustErr)
  {
    hide Valid, A.AllReachable, EngineRun, ClaimEnters, HoldsRequired, L.Exact;
    required, optional, mustErr, mayErr := L.ComputeContextSets(Tasks(p));
    if Valid(p) && A.AllReachable(Graph(p)) {
      ValidIsDistinct(p);
      forall claims: seq<Claim>, i: nat, e: Inst, at: nat | EngineRun(p, claims) && i < |claims| && at < |p.tasks| && ClaimEnters(p, claims[i], e, at)
        ensures HoldsRequired(p, e, required, mustErr)
      {
        RequiredArePresent(p, claims, i, e, at, required, optional, mustErr, mayErr);
      }
    }
  }

  // As long as no stopped instance has been revived: an instance that enters a task holds no error
  // value that mayErr does not allow, and no output that is not listed, if the error routes of
  // that output's task are covered.
  lemma PresentAreListed(p: Process, claims: seq<Claim>, i: nat, e: Inst, at: nat, j: nat,
                         required: map<string, seq<string>>, optional: map<string, seq<string>>,
                         mustErr: map<string, bool>, mayErr: map<string, bool>)
    requires Valid(p) && EngineRun(p, claims) && i < |claims| && ClaimEnters(p, claims[i], e, at) && at < |p.tasks| && NeverRevived(claims, i)
    requires L.Exact(Tasks(p), Graph(p), required, optional, mustErr, mayErr, at) && j < |p.tasks|
    ensures e.task in mayErr && (e.data.error.Some? ==> mayErr[e.task])
    ensures p.tasks[j].id in e.data.outputs && A.ErrorRoutesCovered(Graph(p), Has(p), j) ==>
              p.tasks[j].id in L.Listed(required, e.task) || p.tasks[j].id in L.Listed(optional, e.task)
  {
    hide Valid, EngineRun, ClaimEnters, NeverRevived, A.Run, A.Produced, A.ErrorSet, A.WalksStop, A.Kept, A.AlwaysProduced, A.ErrorRoutesCovered, Graph;
    var path := EntriesTrack(p, claims, i, true, e, at);
    assert e.task == Tasks(p)[at].id && Tasks(p)[j].id == p.tasks[j].id;
    GraphSize(p);
    if p.tasks[j].id in e.data.outputs && A.ErrorRoutesCovered(Graph(p), Has(p), j) {
      assert A.Produced(Has(p), path, j);
      assert A.MaybeProduced(Graph(p), Has(p), at, j);
      A.MayMeetsRuns(Graph(p), Has(p), j);
      assert A.MaybeKept(Graph(p), Has(p), at, j);
    }
  }

  // When a process completes it holds every output the analysis requires at its end, and the error
  // value if that is required.
  lemma EndHoldsRequired(p: Process, claims: seq<Claim>, i: nat,
                         required: set<string>, optional: set<string>, errRequired: bool, errOptional: bool)
    requires Valid(p) && EngineRun(p, claims) && i < |claims|
    requires claims[i].end.kind.Terminal? && claims[i].end.inst.status.Completed?
    requires F.EndExact(Tasks(p), Graph(p), required, optional, errRequired, errOptional)
    ensures forall j :: 0 <= j < |p.tasks| && p.tasks[j].id in required ==> p.tasks[j].id in claims[i].end.inst.data.outputs
    ensures errRequired ==> claims[i].end.inst.data.error.Some?
  {
    hide Valid, Known, F.EndRun, A.Produced, A.ErrorSet, A.LoopBefore, Graph;
    assert Advances(p, claims[i]);
    ClaimStands(p, claims, i, false);
    AdvanceTracks(p, claims[i], false);
    var d := claims[i].end.inst.data;
    var q: seq<A.Visit> :| F.EndRun(Tasks(p), Graph(p), q) && Holds(p, q, d);
    forall j: nat | j < |p.tasks| && p.tasks[j].id in required ensures p.tasks[j].id in d.outputs {
      assert Tasks(p)[j].id in required;
      assert F.ProducedAtEnd(Tasks(p), Graph(p), j);
      assert A.Produced(Has(p), q, j);
    }
  }

  // --- what a revival brings back ---

  // A call that fails without a rule leaves the error value on the failed row; revived, the
  // instance enters the task with it although no run of the graph ever sets it.
  lemma RevivalLeavesError(p: Process, w: World, s: Inst) returns (claims: seq<Claim>)
    requires p.tasks == [TaskDef("a", Call, false, false, [Case("", END)], [], 0)]
    requires Fresh(p, s) && s.status.Running? && w.call("a", s.data).Errored?
    ensures Valid(p) && EngineRun(p, claims) && |claims| == 2
    ensures ClaimEnters(p, claims[1], claims[1].from, 0) && claims[1].from.data.error.Some? && !A.MaybeError(Graph(p), 0)
  {
    var failed := AdvanceEnd(Ok(p), w, s, false, 0);
    assert p.tasks[0].id == "a" && TaskIndex(p.tasks, "a") == 0;
    assert SwitchOk(p, 0);
    assert s.(task := "a") == s;
    NoRuleFound("none");
    var r := w.call("a", s.data);
    NoRuleFound(r.code);
    assert failed == Iterate(p, w, s, 0).end;
    var revived := failed.inst.(status := Running);
    claims := [Claim(s, Ok(p), w, false, 0, failed), Claim(revived, Ok(p), w, false, 0, AdvanceEnd(Ok(p), w, revived, false, 0))];
    assert Untouched(s, s) && Untouched(failed.inst, revived);
    forall q | A.Run(Graph(p), q, 0) ensures !A.ErrorSet(q) { OnlyTheStart(p, q); }
  }

  lemma NoRuleFound(code: string)
    ensures Found([], code).None?
  {
  }

  lemma OnlyTheStart(p: Process, q: seq<A.Visit>)
    requires p.tasks == [TaskDef("a", Call, false, false, [Case("", END)], [], 0)] && A.Run(Graph(p), q, 0)
    ensures q == []
  {
    assert Tasks(p)[0].cases == [A.End] && Tasks(p)[0].onError == [];
    forall k: nat, err ensures !L.Route(Tasks(p), A.From(k, err), 0) { }
    forall e | e in Graph(p)[0] ensures e == A.Start { assert L.Route(Tasks(p), e, 0); }
  }

  // --- why ids have to be distinct ---

  function Step(id: string, projects: bool, goto: string): TaskDef {
    TaskDef(id, NoAction, false, projects, [Case("", goto)], [], 0)
  }

  // Two tasks of one id, the output of m required at the second: an instance starts at the first,
  // under the same id, without it. No table keyed by ids is right for both.
  lemma DuplicateIdsMislead(p: Process, w: World, s: Inst) returns (claims: seq<Claim>)
    requires p.tasks == [Step("b", false, NEXT), Step("m", true, NEXT), Step("b", false, END)]
    requires Fresh(p, s) && s.status.Running?
    ensures (forall i :: 0 <= i < |p.tasks| ==> SwitchOk(p, i)) && A.AlwaysProduced(Graph(p), Has(p), 2, 1)
    ensures EngineRun(p, claims) && |claims| == 1 && ClaimEnters(p, claims[0], s, 0)
    ensures s.task == p.tasks[2].id && p.tasks[1].id !in s.data.outputs
  {
    assert p.tasks[0].id == "b" && TaskIndex(p.tasks, "b") == 0;
    claims := [Claim(s, Ok(p), w, false, 0, AdvanceEnd(Ok(p), w, s, false, 0))];
    assert Untouched(s, s);
    assert SwitchOk(p, 0) && SwitchOk(p, 1) && SwitchOk(p, 2);
    forall q | A.Run(Graph(p), q, 2) ensures A.Produced(Has(p), q, 1) { ThroughM(p, q); }
  }

  lemma ThroughM(p: Process, q: seq<A.Visit>)
    requires p.tasks == [Step("b", false, NEXT), Step("m", true, NEXT), Step("b", false, END)] && A.Run(Graph(p), q, 2)
    ensures A.Produced(Has(p), q, 1)
  {
    assert Tasks(p)[0].cases == [A.Next] && Tasks(p)[1].cases == [A.Next] && Tasks(p)[2].cases == [A.End];
    assert Tasks(p)[0].onError == [] && Tasks(p)[1].onError == [] && Tasks(p)[2].onError == [];
    forall e | e in Graph(p)[2] ensures e == A.From(1, false) { assert L.Route(Tasks(p), e, 2); }
    assert Has(p)[1];
    var v := q[|q| - 1];
    assert v.task == 1 && !v.err;
  }
}
