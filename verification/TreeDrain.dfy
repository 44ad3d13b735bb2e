/** A doomed tree: each advance settles exactly one instance and the root settles last. */
module TreeDrain {
  import opened Common
  import opened ProcessTree
  import opened TreeSteps

  ghost function ActiveIn(s: State, root: Id): set<Id> {
    set j | j in s.rows && InTree(s.rows, root, j) && !Terminal(s.rows[j].status)
  }

  ghost function Members(s: State, root: Id): set<Id> {
    set j | j in s.rows && InTree(s.rows, root, j)
  }

  // Every active member is doomed, and so is every copy of a member a worker holds.
  ghost predicate Doomed(s: State, root: Id) {
    && root in s.rows && s.rows[root].parent == ""
    && (forall j :: j in ActiveIn(s, root) ==> Draining(s.rows[j].status))
    && (forall j :: j in s.live && j in Members(s, root) ==> Draining(s.live[j].inst.status))
  }

  // --- something can always be claimed ---

  // Whatever waits in a tree waits for an active member below it.
  lemma BelowTheWaiting(s: State, root: Id, d: Id) returns (c: Id)
    requires Inv(s) && d in ActiveIn(s, root) && s.rows[d].wait.Waiting?
    ensures c in ActiveIn(s, root) && |s.rows[c].callStack| > |s.rows[d].callStack|
  {
    assert RowHolds(s, d);
    c :| ChildOf(s.rows, c, d) && !Terminal(s.rows[c].status);
    assert RowHolds(s, c);
    assert s.rows[c].callStack[|s.rows[c].callStack| - 1] == d;
    if d != root {
      var k :| 0 <= k < |s.rows[d].callStack| && s.rows[d].callStack[k] == root;
      assert s.rows[c].callStack[k] == root;
    }
  }

  // Every tree with an active root has an active member that is not waiting; a doomed one
  // can be claimed as soon as no lease protects it, whatever its timer says.
  lemma SomethingRunnable(s: State, root: Id) returns (d: Id)
    requires Inv(s) && Active(s.rows, root)
    ensures d in ActiveIn(s, root) && !s.rows[d].wait.Waiting?
    ensures Draining(s.rows[d].status) ==>
              (Claimable(s.rows[d], s.now) <==>
                s.rows[d].worker.None? || (s.rows[d].lease.Some? && s.rows[d].lease.value <= s.now))
  {
    assert root in ActiveIn(s, root);
    d := Deepest(s, ActiveIn(s, root));
    if s.rows[d].wait.Waiting? {
      var c := BelowTheWaiting(s, root, d);
      assert false;
    }
  }

  // The root is terminal exactly when nothing in its tree is active.
  lemma RootEndsLast(s: State, root: Id)
    requires Inv(s) && root in s.rows
    ensures Terminal(s.rows[root].status) <==> ActiveIn(s, root) == {}
  {
    if Terminal(s.rows[root].status) {
      forall j | j in ActiveIn(s, root) ensures false { TerminalSubtree(s, root, j); }
    } else {
      assert root in ActiveIn(s, root);
    }
  }

  // --- how a doomed tree shrinks ---

  lemma OneRoot(s: State, a: Id, b: Id, j: Id)
    requires Inv(s) && a in s.rows && b in s.rows && s.rows[a].parent == "" && s.rows[b].parent == ""
    requires InTree(s.rows, a, j) && InTree(s.rows, b, j)
    ensures a == b
  {
    assert RowHolds(s, a) && RowHolds(s, b);
    if a in s.rows[j].callStack {
      var k :| 0 <= k < |s.rows[j].callStack| && s.rows[j].callStack[k] == a;
      CallStackIsPath(s, j, k);
      assert k == 0;
    }
    if b in s.rows[j].callStack {
      var k :| 0 <= k < |s.rows[j].callStack| && s.rows[j].callStack[k] == b;
      CallStackIsPath(s, j, k);
      assert k == 0;
    }
  }

  // Nothing about the tree changed but leases and clocks.
  ghost predicate TreeUntouched(s: State, s': State, root: Id) {
    && root in s.rows && root in s'.rows && s'.rows[root].parent == s.rows[root].parent
    && Members(s', root) == Members(s, root)
    && (forall j :: j in Members(s, root) && j in s.rows && j in s'.rows ==> s'.rows[j].status == s.rows[j].status)
    && (forall j :: j in s'.live && j in Members(s, root) ==>
          (j in s.live && s'.live[j].inst.status == s.live[j].inst.status)
          || (j in s.rows && !Terminal(s.rows[j].status) && s'.live[j].inst.status == s.rows[j].status))
  }

  lemma UntouchedStaysDoomed(s: State, s': State, root: Id)
    requires Doomed(s, root) && TreeUntouched(s, s', root)
    ensures Doomed(s', root) && ActiveIn(s', root) == ActiveIn(s, root)
  {
    forall j ensures j in ActiveIn(s', root) <==> j in ActiveIn(s, root) {
      assert j in Members(s', root) <==> j in Members(s, root);
    }
  }

  // A return inside the tree settles that instance and no other.
  lemma ReturnSettlesOne(s: State, id: Id, o: Outcome, s': State, root: Id)
    requires Inv(s) && Doomed(s, root) && id in Members(s, root) && Step(s, EvReturn(id, o), s')
    ensures id in ActiveIn(s, root)
    ensures ActiveIn(s', root) == ActiveIn(s, root) - {id}
    ensures Doomed(s', root)
  {
    assert LiveAgrees(s, id);
    assert o.Finish?;
    var v := o.v;
    SettledFramed(s, id, v, s');
    forall j | j in s.rows
      ensures InTree(s'.rows, root, j) <==> InTree(s.rows, root, j)
      ensures j != id ==> (Terminal(s'.rows[j].status) <==> Terminal(s.rows[j].status))
      ensures j in ActiveIn(s, root) && j != id ==> Draining(s'.rows[j].status)
    {
      if j != id { SettledOther(s, id, v, s', j); }
    }
    forall j ensures j in ActiveIn(s', root) <==> j in ActiveIn(s, root) - {id} {
      if j in s'.rows { assert j in s.rows; }
    }
  }

  // A return outside the tree does not reach it: ancestors share the tree.
  lemma SettleElsewhere(s: State, id: Id, v: Row, s': State, root: Id)
    requires Inv(s) && Doomed(s, root) && id !in Members(s, root) && Settle(s, id, v, s')
    ensures TreeUntouched(s, s', root)
  {
    assert LiveAgrees(s, id) && RowHolds(s, id) && RowHolds(s, root);
    SettledFramed(s, id, v, s');
    forall j | j in s.rows
      ensures InTree(s'.rows, root, j) <==> InTree(s.rows, root, j)
      ensures j in Members(s, root) ==> s'.rows[j].status == s.rows[j].status
    {
      if j in Members(s, root) {
        SettledOther(s, id, v, s', j);
        if j in s.rows[id].callStack { AncestorInTree(s, root, id, j); }
      }
    }
    MembersFramed(s, s', root);
  }

  lemma SpawnElsewhere(s: State, id: Id, v: Row, children: map<Id, string>, s': State, root: Id)
    requires Inv(s) && Doomed(s, root) && id !in Members(s, root) && SpawnChildren(s, id, v, children, s')
    ensures TreeUntouched(s, s', root)
  {
    assert LiveAgrees(s, id) && RowHolds(s, id) && RowHolds(s, root);
    hide Inv, RowHolds, LiveAgrees, MayReturn;
    if children != map[] {
      forall k | k in s'.rows && k !in s.rows ensures !InTree(s'.rows, root, k) {
        assert s'.rows[k].callStack == s.rows[id].callStack + [id];
      }
    }
    forall j | j in s.rows ensures InTree(s'.rows, root, j) <==> InTree(s.rows, root, j) { }
    MembersFramed(s, s', root);
  }

  lemma ReturnElsewhere(s: State, id: Id, o: Outcome, s': State, root: Id)
    requires Inv(s) && Doomed(s, root) && id !in Members(s, root) && Step(s, EvReturn(id, o), s')
    ensures TreeUntouched(s, s', root)
  {
    assert LiveAgrees(s, id) && RowHolds(s, id) && RowHolds(s, root);
    hide Inv, RowHolds, LiveAgrees;
    match o
    case Finish(v) => SettleElsewhere(s, id, v, s', root);
    case Spawn(v, children) => SpawnElsewhere(s, id, v, children, s', root);
    case Progress(v) => MembersFramed(s, s', root);
    case Update(v) => MembersFramed(s, s', root);
    case Park(v) => MembersFramed(s, s', root);
  }

  lemma AncestorInTree(s: State, root: Id, id: Id, a: Id)
    requires Inv(s) && root in s.rows && id in s.rows && a in s.rows[id].callStack && InTree(s.rows, root, a)
    ensures InTree(s.rows, root, id)
  {
    var k :| 0 <= k < |s.rows[id].callStack| && s.rows[id].callStack[k] == a;
    CallStackIsPath(s, id, k);
    if a != root {
      var i :| 0 <= i < |s.rows[a].callStack| && s.rows[a].callStack[i] == root;
      assert s.rows[id].callStack[i] == root;
    }
  }

  lemma MembersFramed(s: State, s': State, root: Id)
    requires s.rows.Keys <= s'.rows.Keys
    requires forall j :: j in s.rows ==> (InTree(s'.rows, root, j) <==> InTree(s.rows, root, j))
    requires forall j :: j in s'.rows && j !in s.rows ==> !InTree(s'.rows, root, j)
    ensures Members(s', root) == Members(s, root)
  {
    forall j ensures j in Members(s', root) <==> j in Members(s, root) { }
  }

  lemma ClaimLeavesTree(s: State, worker: string, ids: set<Id>, leaseMs: nat, s': State, root: Id)
    requires Inv(s) && Doomed(s, root) && Claim(s, worker, ids, leaseMs, s')
    ensures TreeUntouched(s, s', root)
  {
    MembersFramed(s, s', root);
  }

  lemma CancelLeavesTree(s: State, r: Id, s': State, root: Id)
    requires Inv(s) && Doomed(s, root) && Cancel(s, r, s')
    ensures TreeUntouched(s, s', root)
  {
    forall j | j in Members(s, root) ensures !s.rows[j].status.Running? {
      assert j in ActiveIn(s, root) || Terminal(s.rows[j].status);
    }
    MembersFramed(s, s', root);
  }

  lemma RetryLeavesTree(s: State, r: Id, s': State, root: Id)
    requires Inv(s) && Doomed(s, root) && Retry(s, r, s') && r != root
    ensures TreeUntouched(s, s', root)
  {
    forall j | j in Members(s, root) ensures !InTree(s.rows, r, j) {
      if InTree(s.rows, r, j) { OneRoot(s, root, r, j); }
    }
    forall j | j in s.rows ensures InTree(s'.rows, root, j) <==> InTree(s.rows, root, j) {
      RetriedStatus(s, r, s', j);
    }
    MembersFramed(s, s', root);
  }

  lemma UnparkLeavesTree(s: State, id: Id, s': State, root: Id)
    requires Inv(s) && Doomed(s, root) && Unpark(s, id, s')
    ensures TreeUntouched(s, s', root)
  {
    MembersFramed(s, s', root);
  }

  // Every event that is not a return inside the tree, nor a retry of its root, leaves the
  // tree as it is.
  lemma OtherEventsLeaveTree(s: State, e: Event, s': State, root: Id)
    requires Inv(s) && Doomed(s, root) && Step(s, e, s') && e != EvRetry(root)
    requires e.EvReturn? ==> e.id !in Members(s, root)
    ensures TreeUntouched(s, s', root)
  {
    match e
    case EvReturn(id, o) => ReturnElsewhere(s, id, o, s', root);
    case EvCreate(id, def) =>
      assert RowHolds(s, root);
      MembersFramed(s, s', root);
    case EvClaim(worker, ids, leaseMs) => ClaimLeavesTree(s, worker, ids, leaseMs, s', root);
    case EvTick =>
    case EvRenew(worker, expiry) => MembersFramed(s, s', root);
    case EvCrash(id) =>
    case EvUnpark(id) => UnparkLeavesTree(s, id, s', root);
    case EvCancel(r) => CancelLeavesTree(s, r, s', root);
    case EvRetry(r) => RetryLeavesTree(s, r, s', root);
  }

  // --- the drain, over any schedule ---

  ghost predicate Follows(states: seq<State>, events: seq<Event>) {
    && |states| == |events| + 1
    && forall i :: 0 <= i < |events| ==> Step(states[i], events[i], states[i + 1])
  }

  predicate ReturnsIn(e: Event, members: set<Id>) {
    e.EvReturn? && e.id in members
  }

  // Advances of tree members among the first n events.
  ghost function Advances(s: State, root: Id, events: seq<Event>, n: nat): nat
    requires n <= |events|
  {
    if n == 0 then 0
    else Advances(s, root, events, n - 1) + if ReturnsIn(events[n - 1], Members(s, root)) then 1 else 0
  }

  // Cancelling a tree no worker is advancing dooms it.
  lemma CancelDooms(s: State, root: Id, s': State)
    requires Inv(s) && Cancel(s, root, s')
    requires forall j :: j in s.live ==> !InTree(s.rows, root, j)
    ensures Doomed(s', root) && |ActiveIn(s', root)| == |ActiveIn(s, root)|
  {
    forall j | j in s.rows ensures InTree(s'.rows, root, j) <==> InTree(s.rows, root, j) { }
    forall j ensures j in ActiveIn(s', root) <==> j in ActiveIn(s, root) { }
    assert ActiveIn(s', root) == ActiveIn(s, root);
  }

  lemma DrainStep(s: State, e: Event, s': State, root: Id)
    requires Inv(s) && Doomed(s, root) && Step(s, e, s') && e != EvRetry(root)
    ensures Inv(s') && Doomed(s', root) && Members(s', root) == Members(s, root)
    ensures |ActiveIn(s', root)| == |ActiveIn(s, root)| - if ReturnsIn(e, Members(s, root)) then 1 else 0
  {
    StepKeeps(s, e, s');
    if ReturnsIn(e, Members(s, root)) {
      ReturnSettlesOne(s, e.id, e.o, s', root);
      assert LiveAgrees(s, e.id);
      SettledFramed(s, e.id, e.o.v, s');
      MembersFramed(s, s', root);
    } else {
      OtherEventsLeaveTree(s, e, s', root);
      UntouchedStaysDoomed(s, s', root);
    }
  }

  // Whatever else happens in between, the advances of a doomed tree and its active members
  // always add up to the members that were active at the start, and the root is terminal
  // exactly from the last of those advances on.
  lemma {:induction false} DrainIsExact(states: seq<State>, events: seq<Event>, root: Id, n: nat)
    requires Follows(states, events) && n <= |events|
    requires Inv(states[0]) && Doomed(states[0], root)
    requires forall i :: 0 <= i < n ==> events[i] != EvRetry(root)
    ensures Inv(states[n]) && Doomed(states[n], root) && Members(states[n], root) == Members(states[0], root)
    ensures Advances(states[0], root, events, n) + |ActiveIn(states[n], root)| == |ActiveIn(states[0], root)|
    ensures Terminal(states[n].rows[root].status) <==>
              Advances(states[0], root, events, n) == |ActiveIn(states[0], root)|
  {
    if n > 0 {
      DrainIsExact(states, events, root, n - 1);
      DrainStep(states[n - 1], events[n - 1], states[n], root);
    }
    RootEndsLast(states[n], root);
  }

  // --- a cancel that meets an advance in flight ---

  function LostRow(): Row {
    Row("p", "t", Cancelling, NoWait, "", "", [], 0, None, "", Some("w"), Some(1))
  }

  // The smallest loss: a root cancelled while its call is failing into a retry goes back to
  // running, with nothing left to cancel it.
  lemma CancelCanBeLost()
    ensures exists s: State, s': State, o: Outcome ::
      Inv(s) && s.rows.Keys == {"r"} && s.rows["r"].status.Cancelling? && o.Update?
      && Step(s, EvReturn("r", o), s') && s'.rows.Keys == {"r"} && s'.rows["r"].status.Running?
  {
    var row := LostRow();
    var copy := row.(status := Running);
    var s := State(map["p" := [Task("t", Call, false)]], map["r" := row], map["r" := Claimed(copy, false)], 0);
    assert RowHolds(s, "r");
    assert AllCompleted(s.rows, "r");
    assert LiveAgrees(s, "r");
    assert Inv(s);
    var o := Update(copy.(retryCount := 1, wakeAt := Some(5)));
    assert MayReturn(s.defs, s.live["r"], o);
    var s' := s.(rows := s.rows["r" := Written(row, o.v)], live := s.live - {"r"});
    assert Step(s, EvReturn("r", o), s');
  }

  // The cancel reached the row while a worker held a running copy of it. It survives the write
  // that ends the advance exactly when that write leaves the status column alone.
  lemma CancelSurvives(s: State, id: Id, o: Outcome, s': State)
    requires Inv(s) && id in s.live && id in s.rows
    requires s.live[id].inst.status.Running? && s.rows[id].status.Cancelling?
    requires Step(s, EvReturn(id, o), s')
    ensures s'.rows[id].status.Cancelling? <==> o.Progress? || o.Spawn?
    ensures s'.rows[id].status.Running? <==> o.Update? || o.Park?
  {
  }
}
