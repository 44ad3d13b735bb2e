/** Which task outputs, and whether the error value, each task can rely on, in terms of runs. */
module Availability {
  // Where a switch case or an error rule leads.
  datatype Goto = End | Next | ToTask(id: string) | Nowhere

  datatype Task = Task(id: string, hasOutput: bool, cases: seq<Goto>, onError: seq<Goto>)

  datatype PredEdge = Start | From(idx: nat, isErr: bool)

  type Preds = seq<seq<PredEdge>>

  predicate Wired(preds: Preds) {
    forall i, e :: 0 <= i < |preds| && e in preds[i] && e.From? ==> e.idx < |preds|
  }

  // --- runs ---

  // A task that was entered, and whether it left by an error route.
  datatype Visit = Visit(task: nat, err: bool)

  // The tasks a run has been through when it enters task i.
  ghost predicate Run(preds: Preds, p: seq<Visit>, i: nat)
    decreases |p|
  {
    && i < |preds|
    && if p == [] then Start in preds[i]
       else
         var v := p[|p| - 1];
         From(v.task, v.err) in preds[i] && Run(preds, p[..|p| - 1], v.task)
  }

  // Some earlier visit left normally, so the output was stored; a later error route does not
  // take it back.
  ghost predicate Produced(has: seq<bool>, p: seq<Visit>, j: nat) {
    j < |has| && has[j] && exists k :: 0 <= k < |p| && p[k].task == j && !p[k].err
  }

  ghost predicate AlwaysProduced(preds: Preds, has: seq<bool>, i: nat, j: nat) {
    forall p :: Run(preds, p, i) ==> Produced(has, p, j)
  }

  ghost predicate Reachable(preds: Preds, i: nat) {
    exists p :: Run(preds, p, i)
  }

  ghost predicate AllReachable(preds: Preds) {
    forall i :: 0 <= i < |preds| ==> Reachable(preds, i)
  }

  ghost predicate ErrorSet(p: seq<Visit>) {
    exists k :: 0 <= k < |p| && p[k].err
  }

  lemma RunExtends(preds: Preds, p: seq<Visit>, i: nat, err: bool, t: nat)
    requires Run(preds, p, i) && t < |preds| && From(i, err) in preds[t]
    ensures Run(preds, p + [Visit(i, err)], t)
  {
    var q := p + [Visit(i, err)];
    assert q[..|q| - 1] == p;
  }

  // The first arrival at j has not left j before.
  lemma {:induction false} FirstArrival(preds: Preds, p: seq<Visit>, i: nat, j: nat) returns (q: seq<Visit>)
    requires Run(preds, p, i) && (i == j || exists k :: 0 <= k < |p| && p[k].task == j)
    ensures Run(preds, q, j) && forall k :: 0 <= k < |q| ==> q[k].task != j
    decreases |p|
  {
    if k :| 0 <= k < |p| && p[k].task == j {
      var rest := p[..|p| - 1];
      assert k < |rest| ==> rest[k].task == j;
      q := FirstArrival(preds, rest, p[|p| - 1].task, j);
    } else {
      q := p;
    }
  }

  // --- one dataflow equation ---

  type Matrix = seq<seq<bool>>

  predicate Square(m: Matrix, n: nat) {
    |m| == n && forall i :: 0 <= i < n ==> |m[i]| == n
  }

  // What the edge e carries for output j: an error edge carries nothing of its own task.
  predicate MustCarry(m: Matrix, has: seq<bool>, e: PredEdge, j: nat)
    requires Square(m, |has|) && j < |has| && (e.From? ==> e.idx < |has|)
  {
    e.From? && m[e.idx][j] && !(e.isErr && has[e.idx] && e.idx == j)
  }

  predicate MustIn(preds: Preds, m: Matrix, has: seq<bool>, i: nat, j: nat)
    requires |preds| == |has| && Wired(preds) && Square(m, |has|) && i < |has| && j < |has|
  {
    preds[i] != [] && forall e :: e in preds[i] ==> MustCarry(m, has, e, j)
  }

  predicate MustOut(preds: Preds, m: Matrix, has: seq<bool>, i: nat, j: nat)
    requires |preds| == |has| && Wired(preds) && Square(m, |has|) && i < |has| && j < |has|
  {
    MustIn(preds, m, has, i, j) || (i == j && has[i])
  }

  ghost predicate MustFixed(preds: Preds, m: Matrix, has: seq<bool>)
    requires |preds| == |has| && Wired(preds) && Square(m, |has|)
  {
    forall i, j :: 0 <= i < |has| && 0 <= j < |has| ==> m[i][j] == MustOut(preds, m, has, i, j)
  }

  // A cleared bit is witnessed by a run that enters the task without the output, and the task
  // itself does not provide it.
  ghost predicate Witnessed(preds: Preds, m: Matrix, has: seq<bool>)
    requires |preds| == |has| && Square(m, |has|)
  {
    forall i, j :: 0 <= i < |has| && 0 <= j < |has| && !m[i][j] ==> Missing(preds, has, i, j)
  }

  ghost predicate Missing(preds: Preds, has: seq<bool>, i: nat, j: nat)
    requires i < |has|
  {
    !(i == j && has[i]) && exists p :: Run(preds, p, i) && !Produced(has, p, j)
  }

  // --- what the fixpoint means ---

  // Sound: what the equations require has been produced on every run.
  lemma {:induction false} RequiredIsProduced(preds: Preds, m: Matrix, has: seq<bool>, p: seq<Visit>, i: nat, j: nat)
    requires |preds| == |has| && Wired(preds) && Square(m, |has|) && MustFixed(preds, m, has)
    requires i < |has| && j < |has| && Run(preds, p, i) && MustIn(preds, m, has, i, j)
    ensures Produced(has, p, j)
    decreases |p|
  {
    if p != [] {
      var v, rest := p[|p| - 1], p[..|p| - 1];
      assert MustCarry(m, has, From(v.task, v.err), j);
      if MustIn(preds, m, has, v.task, j) {
        RequiredIsProduced(preds, m, has, rest, v.task, j);
        var k :| 0 <= k < |rest| && rest[k].task == j && !rest[k].err;
        assert p[k] == rest[k];
      } else {
        assert m[v.task][j] && v.task == j && !v.err;
        assert p[|p| - 1].task == j;
      }
    }
  }

  // Complete: what the equations do not require is missing on some run. The cut at the first
  // arrival is what makes clearing a failing task's own bit lose nothing.
  lemma NotRequiredIsMissing(preds: Preds, m: Matrix, has: seq<bool>, i: nat, j: nat) returns (p: seq<Visit>)
    requires |preds| == |has| && Wired(preds) && Square(m, |has|) && AllReachable(preds)
    requires Witnessed(preds, m, has)
    requires i < |has| && j < |has| && !MustIn(preds, m, has, i, j)
    ensures Run(preds, p, i) && !Produced(has, p, j)
  {
    assert Reachable(preds, i);
    var r :| Run(preds, r, i);
    var e :| e in preds[i] && !MustCarry(m, has, e, j);
    if e.Start? {
      p := [];
    } else if !m[e.idx][j] {
      assert Missing(preds, has, e.idx, j);
      var q :| Run(preds, q, e.idx) && !Produced(has, q, j);
      RunExtends(preds, q, e.idx, e.isErr, i);
      p := q + [Visit(e.idx, e.isErr)];
    } else {
      assert Reachable(preds, j);
      var q :| Run(preds, q, j);
      q := FirstArrival(preds, q, j, j);
      RunExtends(preds, q, j, true, i);
      p := q + [Visit(j, true)];
    }
  }

  // The must analysis is exact.
  lemma MustIsExact(preds: Preds, m: Matrix, has: seq<bool>, i: nat, j: nat)
    requires |preds| == |has| && Wired(preds) && Square(m, |has|) && AllReachable(preds)
    requires MustFixed(preds, m, has) && Witnessed(preds, m, has)
    requires i < |has| && j < |has|
    ensures MustIn(preds, m, has, i, j) <==> AlwaysProduced(preds, has, i, j)
  {
    if MustIn(preds, m, has, i, j) {
      forall p | Run(preds, p, i) ensures Produced(has, p, j) {
        RequiredIsProduced(preds, m, has, p, i, j);
      }
    } else {
      var p := NotRequiredIsMissing(preds, m, has, i, j);
    }
  }

  // --- possibly available ---

  predicate MayIn(preds: Preds, m: Matrix, has: seq<bool>, i: nat, j: nat)
    requires |preds| == |has| && Wired(preds) && Square(m, |has|) && i < |has| && j < |has|
  {
    exists e :: e in preds[i] && MustCarry(m, has, e, j)
  }

  predicate MayOut(preds: Preds, m: Matrix, has: seq<bool>, i: nat, j: nat)
    requires |preds| == |has| && Wired(preds) && Square(m, |has|) && i < |has| && j < |has|
  {
    MayIn(preds, m, has, i, j) || (i == j && has[i])
  }

  ghost predicate MayFixed(preds: Preds, m: Matrix, has: seq<bool>)
    requires |preds| == |has| && Wired(preds) && Square(m, |has|)
  {
    forall i, j :: 0 <= i < |has| && 0 <= j < |has| ==> m[i][j] == MayOut(preds, m, has, i, j)
  }

  // The output is there as the analysis sees it: an error route of j takes it back.
  ghost predicate Kept(has: seq<bool>, p: seq<Visit>, j: nat) {
    && p != [] && j < |has| && has[j]
    && var v := p[|p| - 1];
       if v.task == j then !v.err else Kept(has, p[..|p| - 1], j)
  }

  ghost predicate MaybeKept(preds: Preds, has: seq<bool>, i: nat, j: nat) {
    exists p :: Run(preds, p, i) && Kept(has, p, j)
  }

  // A set bit is witnessed by a run, or is the task's own.
  ghost predicate Justified(preds: Preds, m: Matrix, has: seq<bool>)
    requires |preds| == |has| && Square(m, |has|)
  {
    forall i, j :: 0 <= i < |has| && 0 <= j < |has| && m[i][j] ==> (i == j && has[i]) || MaybeKept(preds, has, i, j)
  }

  lemma KeptExtends(preds: Preds, has: seq<bool>, p: seq<Visit>, i: nat, err: bool, t: nat, j: nat)
    requires Run(preds, p, i) && t < |preds| && From(i, err) in preds[t] && j < |has|
    requires if i == j then has[j] && !err else Kept(has, p, j)
    ensures MaybeKept(preds, has, t, j)
  {
    var q := p + [Visit(i, err)];
    assert q[..|q| - 1] == p;
    assert Run(preds, q, t) && Kept(has, q, j);
  }

  lemma CarriedIsKept(preds: Preds, m: Matrix, has: seq<bool>, i: nat, j: nat, e: PredEdge)
    requires |preds| == |has| && Wired(preds) && Square(m, |has|) && AllReachable(preds) && Justified(preds, m, has)
    requires i < |has| && j < |has| && e in preds[i] && MustCarry(m, has, e, j)
    ensures MaybeKept(preds, has, i, j)
  {
    if e.idx == j && has[j] {
      assert Reachable(preds, j);
      var q :| Run(preds, q, j);
      KeptExtends(preds, has, q, j, e.isErr, i, j);
    } else {
      var q :| Run(preds, q, e.idx) && Kept(has, q, j);
      KeptExtends(preds, has, q, e.idx, e.isErr, i, j);
    }
  }

  lemma {:induction false} KeptIsCarried(preds: Preds, m: Matrix, has: seq<bool>, p: seq<Visit>, i: nat, j: nat)
    requires |preds| == |has| && Wired(preds) && Square(m, |has|) && MayFixed(preds, m, has)
    requires i < |has| && j < |has| && Run(preds, p, i) && Kept(has, p, j)
    ensures MayIn(preds, m, has, i, j)
    decreases |p|
  {
    var v := p[|p| - 1];
    if v.task != j {
      KeptIsCarried(preds, m, has, p[..|p| - 1], v.task, j);
    }
    assert m[v.task][j];
    assert MustCarry(m, has, From(v.task, v.err), j);
  }

  lemma MayIsExact(preds: Preds, m: Matrix, has: seq<bool>, i: nat, j: nat)
    requires |preds| == |has| && Wired(preds) && Square(m, |has|) && AllReachable(preds)
    requires MayFixed(preds, m, has) && Justified(preds, m, has)
    requires i < |has| && j < |has|
    ensures MayIn(preds, m, has, i, j) <==> MaybeKept(preds, has, i, j)
  {
    if MayIn(preds, m, has, i, j) {
      var e :| e in preds[i] && MustCarry(m, has, e, j);
      CarriedIsKept(preds, m, has, i, j, e);
    } else if p :| Run(preds, p, i) && Kept(has, p, j) {
      KeptIsCarried(preds, m, has, p, i, j);
    }
  }

  ghost predicate MaybeProduced(preds: Preds, has: seq<bool>, i: nat, j: nat) {
    exists p :: Run(preds, p, i) && Produced(has, p, j)
  }

  lemma {:induction false} KeptIsProduced(has: seq<bool>, p: seq<Visit>, j: nat)
    requires Kept(has, p, j)
    ensures Produced(has, p, j)
    decreases |p|
  {
    if p[|p| - 1].task != j {
      var rest := p[..|p| - 1];
      KeptIsProduced(has, rest, j);
      var k :| 0 <= k < |rest| && rest[k].task == j && !rest[k].err;
      assert p[k] == rest[k];
    } else {
      assert p[|p| - 1].task == j && !p[|p| - 1].err;
    }
  }

  lemma {:induction false} ProducedIsKept(preds: Preds, has: seq<bool>, p: seq<Visit>, i: nat, j: nat)
    requires Run(preds, p, i) && Produced(has, p, j)
    requires forall t :: 0 <= t < |preds| ==> From(j, true) !in preds[t]
    ensures Kept(has, p, j)
    decreases |p|
  {
    var v, rest := p[|p| - 1], p[..|p| - 1];
    if v.task != j {
      var k :| 0 <= k < |p| && p[k].task == j && !p[k].err;
      assert rest[k] == p[k];
      ProducedIsKept(preds, has, rest, v.task, j);
    }
  }

  // What a run may really hold is listed, as long as the task has no error route of its own;
  // what is listed may always be held.
  lemma MayAgainstRuns(preds: Preds, has: seq<bool>, i: nat, j: nat)
    requires i < |preds|
    ensures MaybeKept(preds, has, i, j) ==> MaybeProduced(preds, has, i, j)
    ensures (forall t :: 0 <= t < |preds| ==> From(j, true) !in preds[t])
              ==> (MaybeProduced(preds, has, i, j) <==> MaybeKept(preds, has, i, j))
  {
    if p :| Run(preds, p, i) && Kept(has, p, j) { KeptIsProduced(has, p, j); }
    if forall t :: 0 <= t < |preds| ==> From(j, true) !in preds[t] {
      if p :| Run(preds, p, i) && Produced(has, p, j) { ProducedIsKept(preds, has, p, i, j); }
    }
  }

  // Every error route of j, once taken with an output of j at hand, leads to where that output is
  // listed by some other way.
  ghost predicate ErrorRoutesCovered(preds: Preds, has: seq<bool>, j: nat) {
    MaybeProduced(preds, has, j, j) ==> forall t :: 0 <= t < |preds| && From(j, true) in preds[t] ==> MaybeKept(preds, has, t, j)
  }

  lemma {:induction false} CoveredIsKept(preds: Preds, has: seq<bool>, p: seq<Visit>, i: nat, j: nat)
    requires Run(preds, p, i) && Produced(has, p, j) && ErrorRoutesCovered(preds, has, j)
    ensures MaybeKept(preds, has, i, j)
    decreases |p|
  {
    var v, rest := p[|p| - 1], p[..|p| - 1];
    if v.task == j && !v.err {
      KeptExtends(preds, has, rest, j, false, i, j);
    } else {
      var k :| 0 <= k < |p| && p[k].task == j && !p[k].err;
      assert rest[k] == p[k];
      assert Produced(has, rest, j);
      if v.task == j {
        assert MaybeProduced(preds, has, j, j);
      } else {
        CoveredIsKept(preds, has, rest, v.task, j);
        var q :| Run(preds, q, v.task) && Kept(has, q, j);
        KeptExtends(preds, has, q, v.task, v.err, i, j);
      }
    }
  }

  lemma ProducedExtends(preds: Preds, has: seq<bool>, p: seq<Visit>, i: nat, err: bool, t: nat, j: nat)
    requires Run(preds, p, i) && t < |preds| && From(i, err) in preds[t] && Produced(has, p, j)
    ensures MaybeProduced(preds, has, t, j)
  {
    RunExtends(preds, p, i, err, t);
    var q := p + [Visit(i, err)];
    var k :| 0 <= k < |p| && p[k].task == j && !p[k].err;
    assert q[k] == p[k];
    assert Run(preds, q, t) && Produced(has, q, j);
  }

  // The may analysis lists an output wherever a run may really hold it exactly when the error
  // routes of its own task are covered.
  lemma MayMeetsRuns(preds: Preds, has: seq<bool>, j: nat)
    ensures (forall i :: 0 <= i < |preds| ==> (MaybeProduced(preds, has, i, j) <==> MaybeKept(preds, has, i, j)))
              <==> ErrorRoutesCovered(preds, has, j)
  {
    hide Run, Produced, Kept;
    if ErrorRoutesCovered(preds, has, j) {
      forall i | 0 <= i < |preds| ensures MaybeProduced(preds, has, i, j) <==> MaybeKept(preds, has, i, j) {
        if p :| Run(preds, p, i) && Kept(has, p, j) { KeptIsProduced(has, p, j); }
        if p :| Run(preds, p, i) && Produced(has, p, j) { CoveredIsKept(preds, has, p, i, j); }
      }
    } else {
      var t :| 0 <= t < |preds| && From(j, true) in preds[t] && !MaybeKept(preds, has, t, j);
      var p :| Run(preds, p, j) && Produced(has, p, j);
      ProducedExtends(preds, has, p, j, true, t, j);
    }
  }

  // A loops through B and fails into C on its second visit: C holds A's first output, yet
  // the analysis lists it neither as required nor as optional.
  const LOOP_THEN_FAIL: Preds := [[Start, From(1, false)], [From(0, false)], [From(0, true)]]

  lemma OwnBitClearedTooEagerly()
    ensures MaybeProduced(LOOP_THEN_FAIL, [true, false, false], 2, 0)
    ensures !MaybeKept(LOOP_THEN_FAIL, [true, false, false], 2, 0)
  {
    var has := [true, false, false];
    var a, b := Visit(0, false), Visit(1, false);
    assert Run(LOOP_THEN_FAIL, [], 0);
    RunExtends(LOOP_THEN_FAIL, [], 0, false, 1);
    assert [] + [a] == [a];
    RunExtends(LOOP_THEN_FAIL, [a], 1, false, 0);
    assert [a] + [b] == [a, b];
    RunExtends(LOOP_THEN_FAIL, [a, b], 0, true, 2);
    var p := [a, b] + [Visit(0, true)];
    assert p[0].task == 0 && !p[0].err;
    assert Run(LOOP_THEN_FAIL, p, 2) && Produced(has, p, 0);
  }

  // --- the error value ---

  predicate MustErrAt(preds: Preds, me: seq<bool>, i: nat)
    requires |me| == |preds| && Wired(preds) && i < |preds|
  {
    preds[i] != [] && forall e :: e in preds[i] ==> e.From? && (e.isErr || me[e.idx])
  }

  predicate MayErrAt(preds: Preds, me: seq<bool>, i: nat)
    requires |me| == |preds| && Wired(preds) && i < |preds|
  {
    exists e :: e in preds[i] && e.From? && (e.isErr || me[e.idx])
  }

  // Every run that enters i has set the error.
  lemma {:induction false} MustErrIsSet(preds: Preds, me: seq<bool>, p: seq<Visit>, i: nat)
    requires |me| == |preds| && Wired(preds) && Run(preds, p, i) && me[i]
    requires forall t :: 0 <= t < |preds| ==> me[t] == MustErrAt(preds, me, t)
    ensures ErrorSet(p)
    decreases |p|
  {
    assert MustErrAt(preds, me, i);
    if p != [] {
      var v, rest := p[|p| - 1], p[..|p| - 1];
      if !v.err {
        MustErrIsSet(preds, me, rest, v.task);
        var k :| 0 <= k < |rest| && rest[k].err;
        assert p[k].err;
      }
    }
  }

  // Backwards along normal edges only: n steps, or all the way to the start.
  ghost predicate NormalWalk(preds: Preds, i: nat, n: nat)
    decreases n
  {
    i < |preds| && (n == 0 || exists e :: e in preds[i] && (e.Start? || (!e.isErr && NormalWalk(preds, e.idx, n - 1))))
  }

  ghost predicate WalksStop(preds: Preds, i: nat) {
    exists n: nat :: !NormalWalk(preds, i, n)
  }

  lemma {:induction false} ShorterWalk(preds: Preds, i: nat, n: nat, m: nat)
    requires NormalWalk(preds, i, n) && m <= n
    ensures NormalWalk(preds, i, m)
    decreases n
  {
    if m > 0 {
      var e :| e in preds[i] && (e.Start? || (!e.isErr && NormalWalk(preds, e.idx, n - 1)));
      if e.From? { ShorterWalk(preds, e.idx, n - 1, m - 1); }
    }
  }

  // Set bits are justified by the lack of long normal walks.
  ghost predicate ErrGrounded(preds: Preds, me: seq<bool>)
    requires |me| == |preds|
  {
    forall i :: 0 <= i < |preds| && me[i] ==> WalksStop(preds, i)
  }

  lemma {:induction false} WalkBound(preds: Preds, me: seq<bool>, i: nat, k: nat) returns (n: nat)
    requires |me| == |preds| && Wired(preds) && ErrGrounded(preds, me) && i < |preds| && MustErrAt(preds, me, i) && k <= |preds[i]|
    ensures forall e :: e in preds[i][..k] && !e.isErr ==> !NormalWalk(preds, e.idx, n)
    decreases k
  {
    if k == 0 {
      n := 0;
    } else {
      n := WalkBound(preds, me, i, k - 1);
      var e := preds[i][k - 1];
      assert e in preds[i];
      if !e.isErr {
        var n': nat :| !NormalWalk(preds, e.idx, n');
        var big := if n < n' then n' else n;
        forall f | f in preds[i][..k] && !f.isErr ensures !NormalWalk(preds, f.idx, big) {
          if NormalWalk(preds, f.idx, big) {
            ShorterWalk(preds, f.idx, big, n);
            ShorterWalk(preds, f.idx, big, n');
          }
        }
        n := big;
      }
    }
  }

  lemma ErrStaysGrounded(preds: Preds, me: seq<bool>, i: nat)
    requires |me| == |preds| && Wired(preds) && ErrGrounded(preds, me) && i < |preds| && MustErrAt(preds, me, i)
    ensures ErrGrounded(preds, me[i := true])
  {
    var n := WalkBound(preds, me, i, |preds[i]|);
    assert preds[i][..|preds[i]|] == preds[i];
    assert !NormalWalk(preds, i, n + 1);
  }

  lemma UnsetEdge(preds: Preds, me: seq<bool>, i: nat) returns (e: PredEdge)
    requires |me| == |preds| && Wired(preds) && i < |preds| && preds[i] != [] && !MustErrAt(preds, me, i)
    ensures e in preds[i] && (e.Start? || (!e.isErr && !me[e.idx]))
  {
    e :| e in preds[i] && !(e.From? && (e.isErr || me[e.idx]));
  }

  lemma {:induction false} UnsetWalks(preds: Preds, me: seq<bool>, i: nat, n: nat)
    requires |me| == |preds| && Wired(preds) && i < |preds| && !me[i]
    requires forall t :: 0 <= t < |preds| ==> preds[t] != [] && me[t] == MustErrAt(preds, me, t)
    ensures NormalWalk(preds, i, n)
    decreases n
  {
    if n > 0 {
      var e := UnsetEdge(preds, me, i);
      if e.From? { UnsetWalks(preds, me, e.idx, n - 1); }
    }
  }

  // mustErr is the least solution: set exactly where normal edges lead back neither to the start
  // nor around a cycle; against runs, where all of them have set the error and no cycle of normal
  // edges lies behind.
  lemma MustErrIsExact(preds: Preds, me: seq<bool>, i: nat)
    requires |me| == |preds| && Wired(preds) && AllReachable(preds) && i < |preds|
    requires ErrGrounded(preds, me) && forall t :: 0 <= t < |preds| ==> me[t] == MustErrAt(preds, me, t)
    ensures me[i] <==> WalksStop(preds, i)
    ensures me[i] <==> (forall p :: Run(preds, p, i) ==> ErrorSet(p)) && !LoopBefore(preds, i)
  {
    WalksStopMeans(preds, i);
    forall t | 0 <= t < |preds| ensures preds[t] != [] {
      assert Reachable(preds, t);
      var r :| Run(preds, r, t);
    }
    if me[i] {
      forall p | Run(preds, p, i) ensures ErrorSet(p) { MustErrIsSet(preds, me, p, i); }
    } else {
      forall n: nat ensures NormalWalk(preds, i, n) { UnsetWalks(preds, me, i, n); }
    }
  }

  // --- mustErr against runs ---

  // Back along a run that never failed there is always one more normal step, or the start.
  lemma {:induction false} FaultlessRunWalks(preds: Preds, p: seq<Visit>, i: nat, n: nat)
    requires Run(preds, p, i) && !ErrorSet(p)
    ensures NormalWalk(preds, i, n)
    decreases n
  {
    if n > 0 {
      if p == [] {
        assert Start in preds[i];
      } else {
        var v, rest := p[|p| - 1], p[..|p| - 1];
        assert !v.err;
        assert !ErrorSet(rest) by { assert forall k :: 0 <= k < |rest| ==> rest[k] == p[k]; }
        FaultlessRunWalks(preds, rest, v.task, n - 1);
        assert From(v.task, false) in preds[i];
      }
    }
  }

  lemma MustErrorIsSet(preds: Preds, i: nat, p: seq<Visit>)
    requires WalksStop(preds, i) && Run(preds, p, i)
    ensures ErrorSet(p)
  {
    var n: nat :| !NormalWalk(preds, i, n);
    if !ErrorSet(p) { FaultlessRunWalks(preds, p, i, n); }
  }

  // Normal edges backwards from i.
  ghost predicate Trail(preds: Preds, i: nat, t: seq<nat>) {
    && t != [] && t[0] == i
    && (forall k :: 0 <= k < |t| ==> t[k] < |preds|)
    && forall k :: 0 <= k < |t| - 1 ==> From(t[k + 1], false) in preds[t[k]]
  }

  // A cycle of normal edges leads to i by normal edges.
  ghost predicate LoopBefore(preds: Preds, i: nat) {
    exists t :: Trail(preds, i, t) && Twice(t)
  }

  predicate Twice(t: seq<nat>) {
    exists a, b :: 0 <= a < b < |t| && t[a] == t[b]
  }

  // Round the cycle a walk can be of any length.
  lemma {:induction false} LoopWalksOn(preds: Preds, i: nat, t: seq<nat>, a: nat, b: nat, k: nat, n: nat)
    requires Trail(preds, i, t) && a < b < |t| && t[a] == t[b] && k <= b
    ensures NormalWalk(preds, t[k], n)
    decreases n
  {
    if n > 0 {
      var j := if k == b then a else k;
      LoopWalksOn(preds, i, t, a, b, j + 1, n - 1);
      assert From(t[j + 1], false) in preds[t[k]];
    }
  }

  // A walk of n steps is a trail of that length, or reaches the start on a run without an error.
  lemma {:induction false} WalkOut(preds: Preds, i: nat, n: nat) returns (t: seq<nat>, p: seq<Visit>)
    requires NormalWalk(preds, i, n)
    ensures (Trail(preds, i, t) && |t| == n + 1) || (Run(preds, p, i) && !ErrorSet(p))
    decreases n
  {
    t, p := [i], [];
    if n > 0 {
      var e :| e in preds[i] && (e.Start? || (!e.isErr && NormalWalk(preds, e.idx, n - 1)));
      if e.From? {
        var rest, q := WalkOut(preds, e.idx, n - 1);
        t, p := [i] + rest, q + [Visit(e.idx, false)];
        if Run(preds, q, e.idx) && !ErrorSet(q) {
          RunExtends(preds, q, e.idx, false, i);
          assert forall k :: 0 <= k < |q| ==> p[k] == q[k];
        } else {
          assert forall k :: 1 <= k < |t| ==> t[k] == rest[k - 1];
        }
      }
    }
  }

  lemma {:induction false} Pigeonhole(t: seq<nat>, m: nat)
    requires |t| > m && forall k :: 0 <= k < |t| ==> t[k] < m
    ensures Twice(t)
    decreases m
  {
    if k :| 0 <= k < |t| && t[k] == m - 1 {
      var rest := t[..k] + t[k + 1..];
      if l :| 0 <= l < |rest| && rest[l] == m - 1 {
        assert t[if l < k then l else l + 1] == t[k];
      } else {
        Pigeonhole(rest, m - 1);
        var a: nat, b: nat :| a < b < |rest| && rest[a] == rest[b];
        assert t[if a < k then a else a + 1] == t[if b < k then b else b + 1];
      }
    } else {
      assert t[0] < m;
      Pigeonhole(t, m - 1);
    }
  }

  // Normal edges lead back neither to the start nor around a cycle exactly when every run has set
  // the error and no cycle of normal edges lies behind.
  lemma WalksStopMeans(preds: Preds, i: nat)
    requires i < |preds|
    ensures WalksStop(preds, i) <==> (forall p :: Run(preds, p, i) ==> ErrorSet(p)) && !LoopBefore(preds, i)
  {
    hide Run, ErrorSet, Trail;
    if WalksStop(preds, i) {
      forall p | Run(preds, p, i) ensures ErrorSet(p) { MustErrorIsSet(preds, i, p); }
      if t :| Trail(preds, i, t) && Twice(t) {
        var a: nat, b: nat :| a < b < |t| && t[a] == t[b];
        var n: nat :| !NormalWalk(preds, i, n);
        TrailStarts(preds, i, t);
        LoopWalksOn(preds, i, t, a, b, 0, n);
      }
    } else {
      assert NormalWalk(preds, i, |preds|);
      var t, p := WalkOut(preds, i, |preds|);
      if Trail(preds, i, t) && |t| == |preds| + 1 {
        TrailStarts(preds, i, t);
        Pigeonhole(t, |preds|);
        assert LoopBefore(preds, i);
      }
    }
  }

  lemma TrailStarts(preds: Preds, i: nat, t: seq<nat>)
    requires Trail(preds, i, t)
    ensures t != [] && t[0] == i && forall k :: 0 <= k < |t| ==> t[k] < |preds|
  {
  }

  // A handler that loops on itself is only ever entered with the error set, and mustErr does
  // not say so.
  const HANDLER_LOOP: Preds := [[Start], [From(0, true), From(1, false)]]

  lemma {:induction false} LoopErr(p: seq<Visit>)
    requires Run(HANDLER_LOOP, p, 1)
    ensures ErrorSet(p)
    decreases |p|
  {
    var v, rest := p[|p| - 1], p[..|p| - 1];
    if !v.err {
      LoopErr(rest);
      var k :| 0 <= k < |rest| && rest[k].err;
      assert p[k].err;
    }
  }

  lemma {:induction false} LoopWalks(n: nat)
    ensures NormalWalk(HANDLER_LOOP, 1, n)
  {
    if n > 0 {
      LoopWalks(n - 1);
      assert From(1, false) in HANDLER_LOOP[1];
    }
  }

  lemma MustErrMissesLoops()
    ensures forall p :: Run(HANDLER_LOOP, p, 1) ==> ErrorSet(p)
    ensures !WalksStop(HANDLER_LOOP, 1)
  {
    forall p | Run(HANDLER_LOOP, p, 1) ensures ErrorSet(p) { LoopErr(p); }
    forall n: nat ensures NormalWalk(HANDLER_LOOP, 1, n) { LoopWalks(n); }
  }

  // Set bits of mayErr are witnessed.
  ghost predicate ErrSeen(preds: Preds, me: seq<bool>)
    requires |me| == |preds|
  {
    forall i :: 0 <= i < |preds| && me[i] ==> MaybeError(preds, i)
  }

  ghost predicate MaybeError(preds: Preds, i: nat) {
    exists p :: Run(preds, p, i) && ErrorSet(p)
  }

  lemma ErrStaysSeen(preds: Preds, me: seq<bool>, i: nat)
    requires |me| == |preds| && Wired(preds) && AllReachable(preds) && ErrSeen(preds, me) && i < |preds| && MayErrAt(preds, me, i)
    ensures MaybeError(preds, i)
  {
    var e :| e in preds[i] && e.From? && (e.isErr || me[e.idx]);
    assert Reachable(preds, e.idx);
    var r :| Run(preds, r, e.idx) && (e.isErr || ErrorSet(r));
    RunExtends(preds, r, e.idx, e.isErr, i);
    var q := r + [Visit(e.idx, e.isErr)];
    if e.isErr {
      assert q[|r|].err;
    } else {
      var k :| 0 <= k < |r| && r[k].err;
      assert q[k].err;
    }
  }

  lemma {:induction false} ErrorIsListed(preds: Preds, me: seq<bool>, p: seq<Visit>, i: nat)
    requires |me| == |preds| && Wired(preds) && Run(preds, p, i) && ErrorSet(p)
    requires forall t :: 0 <= t < |preds| ==> me[t] == MayErrAt(preds, me, t)
    ensures me[i]
    decreases |p|
  {
    var v, rest := p[|p| - 1], p[..|p| - 1];
    if !v.err {
      var k :| 0 <= k < |p| && p[k].err;
      assert rest[k].err;
      ErrorIsListed(preds, me, rest, v.task);
    }
    assert From(v.task, v.err) in preds[i];
  }

  lemma MayErrIsExact(preds: Preds, me: seq<bool>, i: nat)
    requires |me| == |preds| && Wired(preds) && i < |preds|
    requires ErrSeen(preds, me) && forall t :: 0 <= t < |preds| ==> me[t] == MayErrAt(preds, me, t)
    ensures me[i] <==> MaybeError(preds, i)
  {
    if p :| Run(preds, p, i) && ErrorSet(p) { ErrorIsListed(preds, me, p, i); }
  }
}
