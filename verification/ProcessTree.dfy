/** One row per instance, the engine's copies of rows, and the invariant of the process tree. */
module ProcessTree {
  import opened Common

  type Id = string

  datatype Status = Running | Completed | Failing | Failed | Cancelling | Cancelled

  datatype WaitState = NoWait | Waiting | Collecting | External

  // rest and script are both Call: they run inside one advance.
  datatype Action = NoAction | Child | ChildParallel | Delay | ExternalTask | Call

  datatype Task = Task(id: string, action: Action, onlyOnce: bool)

  // Definitions are immutable and version-pinned: one entry per name+version.
  type Definitions = map<string, seq<Task>>

  datatype Row = Row(
    def: string,
    task: string,            // "" once the instance has run off the task list
    status: Status,
    wait: WaitState,
    parent: Id,              // "" for a root
    spawnTask: string,
    callStack: seq<Id>,      // ancestors, root first
    retryCount: nat,
    wakeAt: Option<int>,
    error: string,
    worker: Option<string>,
    lease: Option<int>
  )

  // What ClaimInstances hands the engine: the row as read, and whether the claim took it
  // over from a worker whose lease had expired.
  datatype Claimed = Claimed(inst: Row, reclaimed: bool)

  // live holds the instances some worker is advancing right now, between its claim and the
  // write that ends the advance.
  datatype State = State(defs: Definitions, rows: map<Id, Row>, live: map<Id, Claimed>, now: int)

  predicate Terminal(st: Status) {
    st.Completed? || st.Failed? || st.Cancelled?
  }

  predicate Draining(st: Status) {
    st.Failing? || st.Cancelling?
  }

  // The first task with that id, as taskIndex finds it.
  function ActionOf(tasks: seq<Task>, id: string): Option<Task> {
    if tasks == [] then None
    else if tasks[0].id == id then Some(tasks[0])
    else ActionOf(tasks[1..], id)
  }

  function TaskOf(defs: Definitions, def: string, id: string): Option<Task> {
    if id == "" || def !in defs then None else ActionOf(defs[def], id)
  }

  predicate IsSpawn(defs: Definitions, def: string, id: string) {
    var t := TaskOf(defs, def, id);
    t.Some? && (t.value.action.Child? || t.value.action.ChildParallel?)
  }

  predicate IsExternal(defs: Definitions, def: string, id: string) {
    var t := TaskOf(defs, def, id);
    t.Some? && t.value.action.ExternalTask?
  }

  predicate ChildOf(rows: map<Id, Row>, c: Id, p: Id) {
    c in rows && p != "" && rows[c].parent == p
  }

  predicate InTree(rows: map<Id, Row>, root: Id, j: Id) {
    j in rows && (j == root || root in rows[j].callStack)
  }

  predicate Active(rows: map<Id, Row>, j: Id) {
    j in rows && !Terminal(rows[j].status)
  }

  // --- the invariant, row by row ---

  // Call stacks are the path of parents, and only a child task spawns.
  predicate Linked(s: State, c: Id)
    requires c in s.rows
  {
    var r := s.rows[c];
    if r.parent == "" then r.callStack == [] else
      && r.parent in s.rows
      && r.callStack == s.rows[r.parent].callStack + [r.parent]
      && IsSpawn(s.defs, s.rows[r.parent].def, r.spawnTask)
  }

  // A child that has not completed belongs to the batch of its parent's current task, its
  // parent has not completed, a running parent has no doomed child, and an active child
  // keeps its parent waiting.
  predicate FollowsParent(s: State, c: Id)
    requires c in s.rows
  {
    var r := s.rows[c];
    r.parent != "" && !r.status.Completed? ==>
      && r.parent in s.rows
      && var p := s.rows[r.parent];
      && r.spawnTask == p.task
      && !p.status.Completed?
      && (p.status.Running? ==> r.status.Running?)
      && (!Terminal(r.status) ==> p.wait.Waiting?)
  }

  ghost predicate HasActiveChild(rows: map<Id, Row>, p: Id) {
    exists c :: ChildOf(rows, c, p) && !Terminal(rows[c].status)
  }

  ghost predicate AllCompleted(rows: map<Id, Row>, p: Id) {
    forall c :: ChildOf(rows, c, p) ==> rows[c].status.Completed?
  }

  // What each wait state promises about the row that carries it.
  ghost predicate WaitHolds(s: State, p: Id)
    requires p in s.rows
  {
    var r := s.rows[p];
    && (Terminal(r.status) ==> r.wait.NoWait? && r.worker.None?)
    && (r.wait.Waiting? ==> r.worker.None? && HasActiveChild(s.rows, p))
    && (r.wait.Collecting? ==> IsSpawn(s.defs, r.def, r.task) && AllCompleted(s.rows, p))
    && (r.wait.External? ==> IsExternal(s.defs, r.def, r.task))
  }

  predicate SameIdentity(a: Row, b: Row) {
    a.def == b.def && a.parent == b.parent && a.spawnTask == b.spawnTask && a.callStack == b.callStack
  }

  // The in-memory copy agrees with its row, except that a cancel may have reached the row,
  // and the lease that protects it has not expired.
  ghost predicate LiveAgrees(s: State, id: Id)
    requires id in s.live
  {
    && id in s.rows
    && var r, c := s.rows[id], s.live[id].inst;
    && r.worker.Some? && r.lease.Some? && r.lease.value > s.now
    && !Terminal(r.status) && !r.wait.Waiting?
    && SameIdentity(r, c) && r.task == c.task && r.wait == c.wait
    && (r.status == c.status || (c.status.Running? && r.status.Cancelling?))
    && (c.status.Running? ==> AllCompleted(s.rows, id))
  }

  ghost predicate RowHolds(s: State, id: Id)
    requires id in s.rows
  {
    Linked(s, id) && FollowsParent(s, id) && WaitHolds(s, id)
  }

  ghost predicate Inv(s: State) {
    && "" !in s.rows
    && (forall id {:trigger RowHolds(s, id)} :: id in s.rows ==> RowHolds(s, id))
    && (forall id {:trigger LiveAgrees(s, id)} :: id in s.live ==> LiveAgrees(s, id))
  }

  // --- what the invariant says ---

  // No lost wake-up: an instance waits exactly while one of its children is active.
  lemma WaitingIffActiveChild(s: State, p: Id)
    requires Inv(s) && p in s.rows
    ensures s.rows[p].wait.Waiting? <==> HasActiveChild(s.rows, p)
  {
    assert RowHolds(s, p);
    if HasActiveChild(s.rows, p) {
      var c :| ChildOf(s.rows, c, p) && !Terminal(s.rows[c].status);
      assert RowHolds(s, c);
    }
  }

  // A running parent's children have completed or are running, whatever their batch; once it
  // is not waiting they have all completed.
  lemma RunningParentHasHealthyChildren(s: State, p: Id, c: Id)
    requires Inv(s) && p in s.rows && s.rows[p].status.Running? && ChildOf(s.rows, c, p)
    ensures s.rows[c].status.Running? || s.rows[c].status.Completed?
    ensures !s.rows[p].wait.Waiting? ==> s.rows[c].status.Completed?
  {
    assert RowHolds(s, c);
  }

  lemma {:induction false} CallStackIsPath(s: State, c: Id, k: nat)
    requires Inv(s) && c in s.rows && k < |s.rows[c].callStack|
    ensures var a := s.rows[c].callStack[k];
            a in s.rows && s.rows[a].callStack == s.rows[c].callStack[..k]
    decreases |s.rows[c].callStack|
  {
    assert RowHolds(s, c);
    var p := s.rows[c].parent;
    var up := s.rows[c].callStack;
    if k == |up| - 1 {
      assert up[..k] == s.rows[p].callStack;
    } else {
      CallStackIsPath(s, p, k);
      assert up[..k] == s.rows[p].callStack[..k];
    }
  }

  // Every ancestor of an active instance is waiting, so no worker holds any of them.
  lemma {:induction false} AncestorsWait(s: State, c: Id, k: nat)
    requires Inv(s) && Active(s.rows, c) && k < |s.rows[c].callStack|
    ensures var a := s.rows[c].callStack[k];
            && a in s.rows && s.rows[a].wait.Waiting? && !Terminal(s.rows[a].status) && a !in s.live
    decreases |s.rows[c].callStack|
  {
    assert RowHolds(s, c);
    var p := s.rows[c].parent;
    assert RowHolds(s, p);
    assert p in s.live ==> LiveAgrees(s, p);
    if k < |s.rows[c].callStack| - 1 {
      AncestorsWait(s, p, k);
    }
  }

  // A terminal instance has only terminal descendants.
  lemma TerminalSubtree(s: State, a: Id, j: Id)
    requires Inv(s) && a in s.rows && Terminal(s.rows[a].status) && InTree(s.rows, a, j)
    ensures Terminal(s.rows[j].status)
  {
    if j != a && !Terminal(s.rows[j].status) {
      var k :| 0 <= k < |s.rows[j].callStack| && s.rows[j].callStack[k] == a;
      AncestorsWait(s, j, k);
    }
  }

  // Some member of a set of rows has the longest call stack.
  lemma {:induction false} Deepest(s: State, todo: set<Id>) returns (d: Id)
    requires todo != {} && todo <= s.rows.Keys
    ensures d in todo && forall j :: j in todo ==> |s.rows[j].callStack| <= |s.rows[d].callStack|
    decreases todo
  {
    d :| d in todo;
    if todo != {d} {
      var e := Deepest(s, todo - {d});
      if |s.rows[e].callStack| > |s.rows[d].callStack| { d := e; }
    }
  }
}
