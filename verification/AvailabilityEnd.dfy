/**
 Which outputs, and whether the error value, are there when a process ends: outputContextSets
 over the terminals of the task graph, in terms of runs that end. A terminal is a task together
 with the way it is left, by its switch or off the end of the list, or by an error rule; the
 loops intersect and unite what the terminals provide.
 */
module AvailabilityEnd {
  import opened Availability
  import opened AvailabilityLoops

  // Task i may end the process: by its switch, by falling off the list, or by an error rule.
  predicate Ends(tasks: seq<Task>, i: nat, err: bool)
    requires i < |tasks|
  {
    if err then End in tasks[i].onError else End in tasks[i].cases || (tasks[i].cases == [] && i == |tasks| - 1)
  }

  ghost predicate EndRun(tasks: seq<Task>, preds: Preds, q: seq<Visit>) {
    && q != []
    && var v := q[|q| - 1];
       v.task < |tasks| && Ends(tasks, v.task, v.err) && Run(preds, q[..|q| - 1], v.task)
  }

  // What leaving task i that way has for sure.
  ghost predicate MustLeave(preds: Preds, has: seq<bool>, i: nat, err: bool, j: nat)
    requires i < |has|
  {
    AlwaysProduced(preds, has, i, j) || (!err && i == j && has[i])
  }

  ghost predicate MayLeave(preds: Preds, has: seq<bool>, i: nat, err: bool, j: nat)
    requires i < |has|
  {
    MustLeave(preds, has, i, err, j) || MaybeKept(preds, has, i, j)
  }

  lemma ProducedOnLeaving(has: seq<bool>, p: seq<Visit>, i: nat, err: bool, j: nat)
    requires i < |has|
    ensures Produced(has, p + [Visit(i, err)], j) <==> Produced(has, p, j) || (!err && i == j && has[i])
  {
    var q := p + [Visit(i, err)];
    if Produced(has, p, j) {
      var k :| 0 <= k < |p| && p[k].task == j && !p[k].err;
      assert q[k] == p[k];
    }
    assert q[|p|] == Visit(i, err);
  }

  // Exactly what every run that ends there has produced.
  lemma MustLeaveIsExact(preds: Preds, has: seq<bool>, i: nat, err: bool, j: nat)
    requires i < |has|
    ensures MustLeave(preds, has, i, err, j) <==> forall p :: Run(preds, p, i) ==> Produced(has, p + [Visit(i, err)], j)
  {
    forall p ensures Produced(has, p + [Visit(i, err)], j) <==> Produced(has, p, j) || (!err && i == j && has[i]) {
      ProducedOnLeaving(has, p, i, err, j);
    }
  }

  ghost predicate ProducedAtEnd(tasks: seq<Task>, preds: Preds, j: nat) {
    forall q :: EndRun(tasks, preds, q) ==> Produced(Outputs(tasks), q, j)
  }

  lemma EndsAreLeaves(tasks: seq<Task>, preds: Preds, j: nat)
    ensures ProducedAtEnd(tasks, preds, j) <==>
            forall i: nat, err :: i < |tasks| && Ends(tasks, i, err) ==> MustLeave(preds, Outputs(tasks), i, err, j)
  {
    var has := Outputs(tasks);
    if ProducedAtEnd(tasks, preds, j) {
      forall i: nat, err | i < |tasks| && Ends(tasks, i, err) ensures MustLeave(preds, has, i, err, j) {
        MustLeaveIsExact(preds, has, i, err, j);
        forall p | Run(preds, p, i) ensures Produced(has, p + [Visit(i, err)], j) {
          var q := p + [Visit(i, err)];
          assert q[..|q| - 1] == p;
          assert EndRun(tasks, preds, q);
        }
      }
    }
    if forall i: nat, err :: i < |tasks| && Ends(tasks, i, err) ==> MustLeave(preds, has, i, err, j) {
      forall q: seq<Visit> | EndRun(tasks, preds, q) ensures Produced(has, q, j) {
        var v: Visit := q[|q| - 1];
        MustLeaveIsExact(preds, has, v.task, v.err, j);
        assert q == q[..|q| - 1] + [Visit(v.task, v.err)];
      }
    }
  }

  // --- the error value ---

  ghost predicate ErrorAtEnd(tasks: seq<Task>, preds: Preds) {
    exists q :: EndRun(tasks, preds, q) && ErrorSet(q)
  }

  lemma LeavingWithError(tasks: seq<Task>, preds: Preds, i: nat, err: bool)
    requires i < |tasks| && Ends(tasks, i, err) && Reachable(preds, i) && (err || MaybeError(preds, i))
    ensures ErrorAtEnd(tasks, preds)
  {
    var p :| Run(preds, p, i) && (err || ErrorSet(p));
    var q := p + [Visit(i, err)];
    assert q[..|q| - 1] == p && q[|p|].err == err;
    if !err {
      var k :| 0 <= k < |p| && p[k].err;
      assert q[k].err;
    }
    assert EndRun(tasks, preds, q);
  }

  lemma EndingWithError(tasks: seq<Task>, preds: Preds, q: seq<Visit>) returns (i: nat, err: bool)
    requires EndRun(tasks, preds, q) && ErrorSet(q)
    ensures i < |tasks| && Ends(tasks, i, err) && (err || MaybeError(preds, i))
  {
    var p := q[..|q| - 1];
    i, err := q[|q| - 1].task, q[|q| - 1].err;
    if !err {
      var k :| 0 <= k < |q| && q[k].err;
      assert p[k].err;
    }
  }

  // --- the terminals ---

  datatype EndSet = EndSet(must: set<string>, may: set<string>, errMin: bool, errMax: bool)

  function AsSet(ids: seq<string>): set<string> {
    set id | id in ids
  }

  // What addTerminal builds for one way out of task i.
  function Terminal(t: Task, required: seq<string>, optional: seq<string>, own: bool, errMin: bool, errMax: bool): EndSet {
    var must := AsSet(required) + (if own && t.hasOutput then {t.id} else {});
    EndSet(must, must + AsSet(optional), errMin, errMax)
  }

  ghost predicate TerminalFor(tasks: seq<Task>, preds: Preds, e: EndSet, i: nat, err: bool)
    requires i < |tasks|
  {
    && (forall j :: 0 <= j < |tasks| ==> (tasks[j].id in e.must <==> MustLeave(preds, Outputs(tasks), i, err, j)))
    && (forall j :: 0 <= j < |tasks| ==> (tasks[j].id in e.may <==> MayLeave(preds, Outputs(tasks), i, err, j)))
    && (e.errMin <==> err || WalksStop(preds, i)) && (e.errMax <==> err || MaybeError(preds, i))
  }

  lemma TerminalIs(tasks: seq<Task>, preds: Preds, required: map<string, seq<string>>, optional: map<string, seq<string>>,
                   mustErr: map<string, bool>, mayErr: map<string, bool>, i: nat, err: bool)
    requires DistinctIds(tasks) && i < |tasks| && Exact(tasks, preds, required, optional, mustErr, mayErr, i)
    ensures var id := tasks[i].id;
            TerminalFor(tasks, preds,
                        Terminal(tasks[i], Listed(required, id), Listed(optional, id), !err, err || mustErr[id], err || mayErr[id]), i, err)
  {
  }

  // The terminals found for the first n tasks: one for each way out.
  ghost predicate TerminalsFor(tasks: seq<Task>, preds: Preds, es: seq<EndSet>, n: nat)
    requires n <= |tasks|
  {
    && (forall e :: e in es ==> exists i: nat, err :: i < n && Ends(tasks, i, err) && TerminalFor(tasks, preds, e, i, err))
    && (forall i: nat, err :: i < n && Ends(tasks, i, err) ==> exists e :: e in es && TerminalFor(tasks, preds, e, i, err))
  }

  lemma TerminalOf(tasks: seq<Task>, preds: Preds, es: seq<EndSet>, e: EndSet) returns (i: nat, err: bool)
    requires TerminalsFor(tasks, preds, es, |tasks|) && e in es
    ensures i < |tasks| && Ends(tasks, i, err) && TerminalFor(tasks, preds, e, i, err)
  {
    hide Ends, TerminalFor;
    i, err :| i < |tasks| && Ends(tasks, i, err) && TerminalFor(tasks, preds, e, i, err);
  }

  lemma EndSetOf(tasks: seq<Task>, preds: Preds, es: seq<EndSet>, i: nat, err: bool) returns (l: nat)
    requires TerminalsFor(tasks, preds, es, |tasks|) && i < |tasks| && Ends(tasks, i, err)
    ensures l < |es| && TerminalFor(tasks, preds, es[l], i, err)
  {
    hide Ends, TerminalFor;
    var e :| e in es && TerminalFor(tasks, preds, e, i, err);
    l :| 0 <= l < |es| && es[l] == e;
  }

  lemma TerminalSays(tasks: seq<Task>, preds: Preds, e: EndSet, i: nat, err: bool, j: nat)
    requires i < |tasks| && j < |tasks| && TerminalFor(tasks, preds, e, i, err)
    ensures tasks[j].id in e.must <==> MustLeave(preds, Outputs(tasks), i, err, j)
    ensures tasks[j].id in e.may <==> MayLeave(preds, Outputs(tasks), i, err, j)
    ensures (e.errMin <==> err || WalksStop(preds, i)) && (e.errMax <==> err || MaybeError(preds, i))
  {
  }

  lemma TerminalsGrow(tasks: seq<Task>, preds: Preds, es: seq<EndSet>, more: seq<EndSet>, n: nat)
    requires n < |tasks| && TerminalsFor(tasks, preds, es, n)
    requires forall e :: e in more ==> exists err :: Ends(tasks, n, err) && TerminalFor(tasks, preds, e, n, err)
    requires forall err :: Ends(tasks, n, err) ==> exists e :: e in more && TerminalFor(tasks, preds, e, n, err)
    ensures TerminalsFor(tasks, preds, es + more, n + 1)
  {
    hide TerminalFor, Ends;
    forall e | e in es + more
      ensures exists i: nat, err :: i < n + 1 && Ends(tasks, i, err) && TerminalFor(tasks, preds, e, i, err)
    {
      if e in es {
        var i: nat, err :| i < n && Ends(tasks, i, err) && TerminalFor(tasks, preds, e, i, err);
      } else {
        var err :| Ends(tasks, n, err) && TerminalFor(tasks, preds, e, n, err);
      }
    }
    forall i: nat, err | i < n + 1 && Ends(tasks, i, err)
      ensures exists e :: e in es + more && TerminalFor(tasks, preds, e, i, err)
    {
      if i < n {
        var e :| e in es && TerminalFor(tasks, preds, e, i, err);
        assert e in es + more;
      } else {
        var e :| e in more && TerminalFor(tasks, preds, e, n, err);
        assert e in es + more;
      }
    }
  }

  // The ways out of task i: a normal end with its own output, an error end without.
  function WaysOut(tasks: seq<Task>, req: map<string, seq<string>>, opt: map<string, seq<string>>,
                   mustErr: map<string, bool>, mayErr: map<string, bool>, i: nat): seq<EndSet>
    requires i < |tasks|
  {
    var id := tasks[i].id;
    (if Ends(tasks, i, false) then
       [Terminal(tasks[i], Listed(req, id), Listed(opt, id), true, id in mustErr && mustErr[id], id in mayErr && mayErr[id])] else [])
    + (if Ends(tasks, i, true) then [Terminal(tasks[i], Listed(req, id), Listed(opt, id), false, true, true)] else [])
  }

  method CollectTerminals(tasks: seq<Task>) returns (ends: seq<EndSet>)
    ensures DistinctIds(tasks) && AllReachable(Graph(tasks)) ==> TerminalsFor(tasks, Graph(tasks), ends, |tasks|)
  {
    hide *;
    var req, opt, mustErr, mayErr := ComputeContextSets(tasks);
    ghost var preds := Graph(tasks);
    ends := [];
    ghost var exact := DistinctIds(tasks) && AllReachable(preds);
    NothingYet(tasks, preds);
    for i := 0 to |tasks|
      invariant exact ==> TerminalsFor(tasks, preds, ends, i)
    {
      var more := WaysOut(tasks, req, opt, mustErr, mayErr, i);
      if exact {
        BothWays(tasks, preds, req, opt, mustErr, mayErr, i, more);
        TerminalsGrow(tasks, preds, ends, more, i);
      }
      ends := ends + more;
    }
  }

  lemma NothingYet(tasks: seq<Task>, preds: Preds)
    ensures TerminalsFor(tasks, preds, [], 0)
  {
  }

  ghost predicate SomeEnd(tasks: seq<Task>) {
    exists i: nat, err :: i < |tasks| && Ends(tasks, i, err)
  }

  // Required at the end is produced on every run that ends, optional is what some way out may
  // have besides; the error is listed when some run ends with it, and required only when all do.
  ghost predicate EndExact(tasks: seq<Task>, preds: Preds, required: set<string>, optional: set<string>, errRequired: bool, errOptional: bool) {
    && (forall j :: 0 <= j < |tasks| ==> (tasks[j].id in required <==> ProducedAtEnd(tasks, preds, j)))
    && (forall j :: 0 <= j < |tasks| ==> (tasks[j].id in required + optional <==>
          exists i: nat, err :: i < |tasks| && Ends(tasks, i, err) && MayLeave(preds, Outputs(tasks), i, err, j)))
    && (errRequired || errOptional <==> ErrorAtEnd(tasks, preds))
    && (errRequired <==> ErrorAtEveryEnd(tasks, preds))
  }

  // Every run that ends has set the error, and no task that can end normally has a cycle of normal
  // edges behind it.
  ghost predicate ErrorAtEveryEnd(tasks: seq<Task>, preds: Preds) {
    && (forall q :: EndRun(tasks, preds, q) ==> ErrorSet(q))
    && forall i: nat :: i < |tasks| && Ends(tasks, i, false) ==> !LoopBefore(preds, i)
  }

  method OutputContextSets(tasks: seq<Task>) returns (required: set<string>, optional: set<string>, errRequired: bool, errOptional: bool)
    ensures required !! optional && !(errRequired && errOptional)
    ensures DistinctIds(tasks) && AllReachable(Graph(tasks)) ==>
      if SomeEnd(tasks) then EndExact(tasks, Graph(tasks), required, optional, errRequired, errOptional)
      else required == optional == {} && !errRequired && !errOptional
  {
    hide Ends, TerminalsFor, AllReachable, MayLeave, ProducedAtEnd, ErrorAtEnd, ErrorAtEveryEnd, EndRun, ErrorSet, DistinctIds, Graph, Outputs;
    if tasks == [] { return {}, {}, false, false; }
    var ends := CollectTerminals(tasks);
    ghost var preds := Graph(tasks);
    ghost var exact := DistinctIds(tasks) && AllReachable(preds);
    if ends == [] {
      if exact { NoEnds(tasks, preds); }
      return {}, {}, false, false;
    }
    if exact { EndsExist(tasks, preds, ends); }
    var must, may: set<string> := ends[0].must, {};
    var allMin, anyMax := true, false;
    for k := 0 to |ends|
      invariant forall id :: id in must <==> id in ends[0].must && forall l :: 0 <= l < k ==> id in ends[l].must
      invariant forall id :: id in may <==> exists l :: 0 <= l < k && id in ends[l].may
      invariant allMin <==> forall l :: 0 <= l < k ==> ends[l].errMin
      invariant anyMax <==> exists l :: 0 <= l < k && ends[l].errMax
    {
      must := must * ends[k].must;
      may := may + ends[k].may;
      allMin := allMin && ends[k].errMin;
      anyMax := anyMax || ends[k].errMax;
    }
    required, optional := must, may - must;
    errRequired, errOptional := allMin, anyMax && !allMin;
    if exact {
      SetsAtEnd(tasks, preds, ends, must, may);
      ErrorsAtEnd(tasks, preds, ends, allMin, anyMax);
    }
  }

  lemma NoEnds(tasks: seq<Task>, preds: Preds)
    requires TerminalsFor(tasks, preds, [], |tasks|)
    ensures !SomeEnd(tasks)
  {
  }

  lemma EndsExist(tasks: seq<Task>, preds: Preds, ends: seq<EndSet>)
    requires TerminalsFor(tasks, preds, ends, |tasks|) && ends != []
    ensures SomeEnd(tasks)
  {
    hide Ends, TerminalFor, TerminalsFor;
    var i, err := TerminalOf(tasks, preds, ends, ends[0]);
  }

  lemma BothWays(tasks: seq<Task>, preds: Preds, req: map<string, seq<string>>, opt: map<string, seq<string>>,
                 mustErr: map<string, bool>, mayErr: map<string, bool>, i: nat, more: seq<EndSet>)
    requires DistinctIds(tasks) && i < |tasks| && Exact(tasks, preds, req, opt, mustErr, mayErr, i)
    requires more == WaysOut(tasks, req, opt, mustErr, mayErr, i)
    ensures forall e :: e in more ==> exists err :: Ends(tasks, i, err) && TerminalFor(tasks, preds, e, i, err)
    ensures forall err :: Ends(tasks, i, err) ==> exists e :: e in more && TerminalFor(tasks, preds, e, i, err)
  {
    hide Ends, Terminal, TerminalFor;
    TerminalIs(tasks, preds, req, opt, mustErr, mayErr, i, false);
    TerminalIs(tasks, preds, req, opt, mustErr, mayErr, i, true);
    ExactKnows(tasks, preds, req, opt, mustErr, mayErr, i);
  }

  lemma ExactKnows(tasks: seq<Task>, preds: Preds, req: map<string, seq<string>>, opt: map<string, seq<string>>,
                   mustErr: map<string, bool>, mayErr: map<string, bool>, i: nat)
    requires i < |tasks| && Exact(tasks, preds, req, opt, mustErr, mayErr, i)
    ensures tasks[i].id in mustErr && tasks[i].id in mayErr
  {
  }

  lemma SetsAtEnd(tasks: seq<Task>, preds: Preds, ends: seq<EndSet>, must: set<string>, may: set<string>)
    requires TerminalsFor(tasks, preds, ends, |tasks|) && ends != []
    requires forall id :: id in must <==> forall l :: 0 <= l < |ends| ==> id in ends[l].must
    requires forall id :: id in may <==> exists l :: 0 <= l < |ends| && id in ends[l].may
    ensures forall j :: 0 <= j < |tasks| ==> (tasks[j].id in must <==> ProducedAtEnd(tasks, preds, j))
    ensures forall j :: 0 <= j < |tasks| ==> (tasks[j].id in must + (may - must) <==>
              exists i: nat, err :: i < |tasks| && Ends(tasks, i, err) && MayLeave(preds, Outputs(tasks), i, err, j))
  {
    hide Ends, MustLeave, MayLeave, ProducedAtEnd, TerminalsFor;
    forall j | 0 <= j < |tasks|
      ensures tasks[j].id in must <==> ProducedAtEnd(tasks, preds, j)
      ensures tasks[j].id in may <==> exists i: nat, err :: i < |tasks| && Ends(tasks, i, err) && MayLeave(preds, Outputs(tasks), i, err, j)
      ensures tasks[j].id in must ==> tasks[j].id in may
    {
      EndsAreLeaves(tasks, preds, j);
      MustPart(tasks, preds, ends, must, j);
      MayPart(tasks, preds, ends, may, j);
      if tasks[j].id in must {
        assert tasks[j].id in ends[0].must && ends[0] in ends;
        MustIsMay(tasks, preds, ends, j);
      }
    }
  }

  lemma MustPart(tasks: seq<Task>, preds: Preds, ends: seq<EndSet>, must: set<string>, j: nat)
    requires TerminalsFor(tasks, preds, ends, |tasks|) && j < |tasks|
    requires forall id :: id in must <==> forall l :: 0 <= l < |ends| ==> id in ends[l].must
    ensures tasks[j].id in must <==> forall i: nat, err :: i < |tasks| && Ends(tasks, i, err) ==> MustLeave(preds, Outputs(tasks), i, err, j)
  {
    hide Ends, MustLeave, MayLeave, TerminalFor, TerminalsFor, WalksStop, MaybeError;
    if tasks[j].id in must {
      forall i: nat, err | i < |tasks| && Ends(tasks, i, err) ensures MustLeave(preds, Outputs(tasks), i, err, j) {
        var l := EndSetOf(tasks, preds, ends, i, err);
        TerminalSays(tasks, preds, ends[l], i, err, j);
      }
    } else {
      var l :| 0 <= l < |ends| && tasks[j].id !in ends[l].must;
      var i, err := TerminalOf(tasks, preds, ends, ends[l]);
      TerminalSays(tasks, preds, ends[l], i, err, j);
    }
  }

  lemma MayPart(tasks: seq<Task>, preds: Preds, ends: seq<EndSet>, may: set<string>, j: nat)
    requires TerminalsFor(tasks, preds, ends, |tasks|) && j < |tasks|
    requires forall id :: id in may <==> exists l :: 0 <= l < |ends| && id in ends[l].may
    ensures tasks[j].id in may <==> exists i: nat, err :: i < |tasks| && Ends(tasks, i, err) && MayLeave(preds, Outputs(tasks), i, err, j)
  {
    hide Ends, MustLeave, MayLeave, TerminalFor, TerminalsFor, WalksStop, MaybeError;
    if tasks[j].id in may {
      var l :| 0 <= l < |ends| && tasks[j].id in ends[l].may;
      var i, err := TerminalOf(tasks, preds, ends, ends[l]);
      TerminalSays(tasks, preds, ends[l], i, err, j);
    }
    if i: nat, err :| i < |tasks| && Ends(tasks, i, err) && MayLeave(preds, Outputs(tasks), i, err, j) {
      var l := EndSetOf(tasks, preds, ends, i, err);
      TerminalSays(tasks, preds, ends[l], i, err, j);
    }
  }

  lemma MustIsMay(tasks: seq<Task>, preds: Preds, ends: seq<EndSet>, j: nat)
    requires TerminalsFor(tasks, preds, ends, |tasks|) && ends != [] && j < |tasks| && tasks[j].id in ends[0].must
    ensures tasks[j].id in ends[0].may
  {
    hide Ends, MustLeave, TerminalFor, TerminalsFor, WalksStop, MaybeError;
    var i, err := TerminalOf(tasks, preds, ends, ends[0]);
    TerminalSays(tasks, preds, ends[0], i, err, j);
  }

  lemma ErrorsAtEnd(tasks: seq<Task>, preds: Preds, ends: seq<EndSet>, allMin: bool, anyMax: bool)
    requires TerminalsFor(tasks, preds, ends, |tasks|) && ends != [] && PredsOf(tasks, preds) && AllReachable(preds) && tasks != []
    requires allMin <==> forall l :: 0 <= l < |ends| ==> ends[l].errMin
    requires anyMax <==> exists l :: 0 <= l < |ends| && ends[l].errMax
    ensures anyMax <==> ErrorAtEnd(tasks, preds)
    ensures allMin ==> anyMax
    ensures allMin <==> ErrorAtEveryEnd(tasks, preds)
  {
    hide MustLeave, MayLeave, Ends, WalksStop, MaybeError, ErrorSet, EndRun, TerminalsFor, LoopBefore;
    AnyError(tasks, preds, ends);
    if allMin {
      forall q: seq<Visit> | EndRun(tasks, preds, q) ensures ErrorSet(q) { AllErrors(tasks, preds, ends, q); }
      forall i: nat | i < |tasks| && Ends(tasks, i, false) ensures !LoopBefore(preds, i) { NoLoopBehind(tasks, preds, ends, i); }
      assert ends[0].errMin && ends[0] in ends;
      MinIsMax(tasks, preds, ends);
    } else {
      var l :| 0 <= l < |ends| && !ends[l].errMin;
      if ErrorAtEveryEnd(tasks, preds) { ErrorAtThatEnd(tasks, preds, ends, l); }
    }
  }

  lemma AnyError(tasks: seq<Task>, preds: Preds, ends: seq<EndSet>)
    requires TerminalsFor(tasks, preds, ends, |tasks|) && |preds| == |tasks| && AllReachable(preds) && tasks != []
    ensures (exists l :: 0 <= l < |ends| && ends[l].errMax) <==> ErrorAtEnd(tasks, preds)
  {
    hide MustLeave, MayLeave, Ends, WalksStop, MaybeError, ErrorSet, EndRun, TerminalFor, TerminalsFor;
    if l :| 0 <= l < |ends| && ends[l].errMax {
      var i, err := TerminalOf(tasks, preds, ends, ends[l]);
      TerminalSays(tasks, preds, ends[l], i, err, 0);
      LeavingWithError(tasks, preds, i, err);
    }
    if q :| EndRun(tasks, preds, q) && ErrorSet(q) {
      var i, err := EndingWithError(tasks, preds, q);
      var l := EndSetOf(tasks, preds, ends, i, err);
      TerminalSays(tasks, preds, ends[l], i, err, 0);
    }
  }

  lemma NoLoopBehind(tasks: seq<Task>, preds: Preds, ends: seq<EndSet>, i: nat)
    requires TerminalsFor(tasks, preds, ends, |tasks|) && |preds| == |tasks| && (forall l :: 0 <= l < |ends| ==> ends[l].errMin)
    requires i < |tasks| && Ends(tasks, i, false)
    ensures !LoopBefore(preds, i)
  {
    hide MustLeave, MayLeave, Ends, MaybeError, WalksStop, TerminalFor, TerminalsFor, LoopBefore;
    var l := EndSetOf(tasks, preds, ends, i, false);
    TerminalSays(tasks, preds, ends[l], i, false, 0);
    WalksStopMeans(preds, i);
  }

  lemma ErrorAtThatEnd(tasks: seq<Task>, preds: Preds, ends: seq<EndSet>, l: nat)
    requires TerminalsFor(tasks, preds, ends, |tasks|) && |preds| == |tasks| && tasks != [] && l < |ends| && ErrorAtEveryEnd(tasks, preds)
    ensures ends[l].errMin
  {
    hide MustLeave, MayLeave, Ends, MaybeError, WalksStop, TerminalFor, TerminalsFor, LoopBefore, Run;
    var i, err := TerminalOf(tasks, preds, ends, ends[l]);
    TerminalSays(tasks, preds, ends[l], i, err, 0);
    if !err {
      forall p | Run(preds, p, i) ensures ErrorSet(p) {
        var q := p + [Visit(i, false)];
        assert q[..|q| - 1] == p;
        assert EndRun(tasks, preds, q);
        var k :| 0 <= k < |q| && q[k].err;
        assert p[k].err;
      }
      WalksStopMeans(preds, i);
    }
  }

  lemma AllErrors(tasks: seq<Task>, preds: Preds, ends: seq<EndSet>, q: seq<Visit>)
    requires TerminalsFor(tasks, preds, ends, |tasks|) && EndRun(tasks, preds, q) && forall l :: 0 <= l < |ends| ==> ends[l].errMin
    ensures ErrorSet(q)
  {
    hide MustLeave, MayLeave, Ends, MaybeError, WalksStop, TerminalFor, TerminalsFor;
    var v, p := q[|q| - 1], q[..|q| - 1];
    var l := EndSetOf(tasks, preds, ends, v.task, v.err);
    TerminalSays(tasks, preds, ends[l], v.task, v.err, 0);
    if !v.err {
      MustErrorIsSet(preds, v.task, p);
      var k :| 0 <= k < |p| && p[k].err;
      assert q[k].err;
    }
  }

  lemma MinIsMax(tasks: seq<Task>, preds: Preds, ends: seq<EndSet>)
    requires TerminalsFor(tasks, preds, ends, |tasks|) && |preds| == |tasks| && AllReachable(preds) && tasks != []
    requires ends != [] && ends[0].errMin
    ensures ends[0].errMax
  {
    hide MustLeave, MayLeave, Ends, WalksStop, TerminalFor, TerminalsFor;
    var i, err := TerminalOf(tasks, preds, ends, ends[0]);
    TerminalSays(tasks, preds, ends[0], i, err, 0);
    if !err {
      assert Reachable(preds, i);
      var p :| Run(preds, p, i);
      MustErrorIsSet(preds, i, p);
    }
  }
}
