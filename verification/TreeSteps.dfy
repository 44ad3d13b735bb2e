/** Each database transaction as a relation between states, and the invariant they all keep. */
module TreeSteps {
  import opened Common
  import opened ProcessTree

  // --- what an advance may return (internal/engine/engine.go, advance) ---

  datatype Outcome =
    | Progress(v: Row)                          // running checkpoint
    | Update(v: Row)                            // retry backoff or error route
    | Finish(v: Row)                            // completed, failed or cancelled
    | Spawn(v: Row, children: map<Id, string>)  // child id -> definition
    | Park(v: Row)                              // armed external task

  ghost predicate MayReturn(defs: Definitions, c: Claimed, o: Outcome) {
    && SameIdentity(o.v, c.inst)
    && match c.inst.status
       case Failing => o.Finish? && o.v.status.Failed? && o.v.task == c.inst.task && o.v.wait.NoWait?
       case Cancelling => o.Finish? && o.v.status.Cancelled? && o.v.task == c.inst.task && o.v.wait.NoWait?
       case Running => MayReturnRunning(defs, c, o)
       case _ => false
  }

  ghost predicate MayReturnRunning(defs: Definitions, c: Claimed, o: Outcome) {
    match o
    case Progress(v) => v.status.Running? && v.wait.NoWait?
    case Update(v) => v.status.Running? && v.wait.NoWait? && v.error == c.inst.error
    case Finish(v) => (v.status.Completed? || v.status.Failed?) && v.wait.NoWait?
    case Spawn(v, children) =>
      && v.status.Running? && v.wait.NoWait? && c.inst.wait.NoWait? && IsSpawn(defs, v.def, v.task)
      && forall k :: k in children ==> children[k] in defs && defs[children[k]] != []
    case Park(v) => v.status.Running? && v.wait.External? && IsExternal(defs, v.def, v.task)
  }

  // --- the UPDATE statements (internal/db/gen/queries.sql.go) ---

  // UpdateInstance: every mutable column, and the lease is released.
  function Written(r: Row, v: Row): Row {
    r.(task := v.task, retryCount := v.retryCount, wakeAt := v.wakeAt, status := v.status,
       wait := v.wait, error := v.error, worker := None, lease := None)
  }

  // UpdateInstanceProgress: status and error are left to a concurrent cancel or failure.
  function Checkpointed(r: Row, v: Row): Row {
    r.(task := v.task, retryCount := v.retryCount, wakeAt := v.wakeAt, wait := v.wait,
       worker := None, lease := None)
  }

  function Woken(r: Row): Row {
    r.(wait := if r.status.Running? then Collecting else NoWait)
  }

  function Doomed(r: Row, error: string): Row {
    if r.status.Running? || r.status.Cancelling? then r.(status := Failing, error := error) else r
  }

  function NewRow(defs: Definitions, def: string, status: Status, parent: Id, spawnTask: string, callStack: seq<Id>): Row
    requires def in defs && defs[def] != []
  {
    Row(def, defs[def][0].id, status, NoWait, parent, spawnTask, callStack, 0, None, "", None, None)
  }

  // CountActiveSiblings is zero once c itself is terminal.
  ghost predicate LastOfBatch(rows: map<Id, Row>, c: Id)
    requires c in rows
  {
    forall d :: d in rows && d != c && rows[d].parent == rows[c].parent && rows[d].spawnTask == rows[c].spawnTask
      ==> Terminal(rows[d].status)
  }

  // --- the transactions ---

  ghost predicate Create(s: State, id: Id, def: string, s': State) {
    && id !in s.rows && id != "" && def in s.defs && s.defs[def] != []
    && s' == s.(rows := s.rows[id := NewRow(s.defs, def, Running, "", "", [])])
  }

  predicate Claimable(r: Row, now: int) {
    && (r.status.Running? || Draining(r.status))
    && !r.wait.Waiting?
    && (Draining(r.status)
        || (r.wakeAt.Some? && r.wakeAt.value <= now)
        || (!r.wait.External? && r.wakeAt.None?))
    && (r.worker.None? || (r.lease.Some? && r.lease.value <= now))
  }

  ghost predicate Claim(s: State, worker: string, ids: set<Id>, leaseMs: nat, s': State) {
    && 0 < leaseMs
    && (forall id :: id in ids ==> id in s.rows && Claimable(s.rows[id], s.now))
    && s'.defs == s.defs && s'.now == s.now
    && s'.rows.Keys == s.rows.Keys
    && (forall id :: id in s.rows ==>
          s'.rows[id] == (if id in ids then s.rows[id].(worker := Some(worker), lease := Some(s.now + leaseMs))
                          else s.rows[id]))
    && s'.live.Keys == s.live.Keys + ids
    && (forall id :: id in s'.live ==>
          if id in ids then s'.live[id] == Claimed(s'.rows[id], s.rows[id].worker.Some?)
          else s'.live[id] == s.live[id])
  }

  // Time passes; the lease of a live advance is renewed before it runs out.
  ghost predicate Tick(s: State, s': State) {
    && s'.defs == s.defs && s'.rows == s.rows && s'.live == s.live && s.now <= s'.now
    && forall id :: id in s.live && id in s.rows && s.rows[id].lease.Some? ==> s'.now < s.rows[id].lease.value
  }

  ghost predicate Renew(s: State, worker: string, expiry: int, s': State) {
    && s'.defs == s.defs && s'.now == s.now && s'.live == s.live
    && s'.rows.Keys == s.rows.Keys
    && forall id :: id in s.rows ==>
         s'.rows[id] == (if s.rows[id].worker == Some(worker) && s.rows[id].lease.Some? && s.rows[id].lease.value < expiry
                         then s.rows[id].(lease := Some(expiry)) else s.rows[id])
  }

  // The worker dies, or its final write fails: the copy is gone, the row keeps its lease.
  ghost predicate Crash(s: State, id: Id, s': State) {
    s' == s.(live := s.live - {id})
  }

  ghost predicate Checkpoint(s: State, id: Id, v: Row, s': State) {
    && id in s.live && id in s.rows && MayReturn(s.defs, s.live[id], Progress(v))
    && s' == s.(rows := s.rows[id := Checkpointed(s.rows[id], v)], live := s.live - {id})
  }

  ghost predicate Reschedule(s: State, id: Id, v: Row, s': State) {
    && id in s.live && id in s.rows && MayReturn(s.defs, s.live[id], Update(v))
    && s' == s.(rows := s.rows[id := Written(s.rows[id], v)], live := s.live - {id})
  }

  // saveAndNotify: the instance is saved; a failure dooms every ancestor; the last active
  // member of its batch to end wakes the waiting parent.
  ghost predicate Settle(s: State, id: Id, v: Row, s': State) {
    && id in s.live && id in s.rows && MayReturn(s.defs, s.live[id], Finish(v))
    && s'.defs == s.defs && s'.now == s.now && s'.live == s.live - {id}
    && s'.rows.Keys == s.rows.Keys
    && s'.rows[id] == Written(s.rows[id], v)
    && forall j :: j in s.rows && j != id ==> s'.rows[j] == AfterSettling(s, id, v, j)
  }

  ghost function AfterSettling(s: State, id: Id, v: Row, j: Id): Row
    requires id in s.rows && j in s.rows
  {
    var r := if v.status.Failed? && j in s.rows[id].callStack then Doomed(s.rows[j], v.error) else s.rows[j];
    if j == s.rows[id].parent && r.wait.Waiting? && LastOfBatch(s.rows, id) then Woken(r) else r
  }

  // SpawnChildrenAndWait: refused unless the row has no wait state; children inherit the
  // status the row has now, not the one the engine read.
  ghost predicate SpawnChildren(s: State, id: Id, v: Row, children: map<Id, string>, s': State) {
    && id in s.live && id in s.rows && MayReturn(s.defs, s.live[id], Spawn(v, children))
    && s.rows[id].wait.NoWait?
    && children.Keys !! s.rows.Keys && "" !in children
    && if children == map[] then s' == s.(live := s.live - {id}) else
       && s'.defs == s.defs && s'.now == s.now && s'.live == s.live - {id}
       && s'.rows.Keys == s.rows.Keys + children.Keys
       && s'.rows[id] == Written(s.rows[id], v).(status := s.rows[id].status, wait := Waiting, wakeAt := None)
       && (forall j :: j in s.rows && j != id ==> s'.rows[j] == s.rows[j])
       && (forall k :: k in children ==>
             && children[k] in s.defs && s.defs[children[k]] != []
             && s'.rows[k] == NewRow(s.defs, children[k], s.rows[id].status, id, v.task, s.rows[id].callStack + [id]))
  }

  ghost predicate ParkExternal(s: State, id: Id, v: Row, s': State) {
    && id in s.live && id in s.rows && MayReturn(s.defs, s.live[id], Park(v))
    && s' == s.(rows := s.rows[id := Written(s.rows[id], v)], live := s.live - {id})
  }

  // SetExternalResult: by the resolve API or a signal on a parked row no live lease holds,
  // or by the arming advance itself when a buffered signal is there.
  ghost predicate Unpark(s: State, id: Id, s': State) {
    && id in s.rows
    && (if id in s.live then s.rows[id].wait.NoWait? && s.live[id].inst.status.Running?
        else s.rows[id].status.Running? && s.rows[id].wait.External?)
    && s' == s.(rows := s.rows[id := s.rows[id].(wait := NoWait, wakeAt := None)])
  }

  ghost predicate Cancel(s: State, root: Id, s': State) {
    && root in s.rows && s.rows[root].parent == ""
    && s'.defs == s.defs && s'.now == s.now && s'.live == s.live
    && s'.rows.Keys == s.rows.Keys
    && forall j :: j in s.rows ==>
         s'.rows[j] == (if InTree(s.rows, root, j) && s.rows[j].status.Running?
                        then s.rows[j].(status := Cancelling) else s.rows[j])
  }

  // --- retry ---

  predicate Stopped(r: Row) {
    r.status.Failed? || r.status.Cancelled?
  }

  ghost predicate HasBatch(rows: map<Id, Row>, j: Id)
    requires j in rows
  {
    rows[j].task != "" && exists k :: ChildOf(rows, k, j) && rows[k].spawnTask == rows[j].task
  }

  // A stopped instance comes back running: waiting if its batch has a member that stopped
  // too, collecting if the whole batch completed, runnable if it has no batch.
  ghost function Revived(rows: map<Id, Row>, j: Id): Row
    requires j in rows
  {
    var r := rows[j];
    r.(status := Running, error := "", worker := None, lease := None,
       wakeAt := if r.retryCount > 0 then None else r.wakeAt,
       wait := if !HasBatch(rows, j) then NoWait
               else if exists k :: ChildOf(rows, k, j) && rows[k].spawnTask == r.task && Stopped(rows[k]) then Waiting
               else Collecting)
  }

  ghost predicate Retry(s: State, root: Id, s': State) {
    && root in s.rows && s.rows[root].parent == "" && Stopped(s.rows[root])
    && s'.defs == s.defs && s'.now == s.now && s'.live == s.live
    && s'.rows.Keys == s.rows.Keys
    && forall j :: j in s.rows ==>
         s'.rows[j] == (if InTree(s.rows, root, j) && Stopped(s.rows[j]) then Revived(s.rows, j) else s.rows[j])
  }

  // --- one step, a whole run ---

  datatype Event =
    | EvCreate(id: Id, def: string)
    | EvClaim(worker: string, ids: set<Id>, leaseMs: nat)
    | EvTick
    | EvRenew(worker: string, expiry: int)
    | EvCrash(id: Id)
    | EvReturn(id: Id, o: Outcome)
    | EvUnpark(id: Id)
    | EvCancel(root: Id)
    | EvRetry(root: Id)

  ghost predicate Step(s: State, e: Event, s': State) {
    match e
    case EvCreate(id, def) => Create(s, id, def, s')
    case EvClaim(worker, ids, leaseMs) => Claim(s, worker, ids, leaseMs, s')
    case EvTick => Tick(s, s')
    case EvRenew(worker, expiry) => Renew(s, worker, expiry, s')
    case EvCrash(id) => Crash(s, id, s')
    case EvReturn(id, Progress(v)) => Checkpoint(s, id, v, s')
    case EvReturn(id, Update(v)) => Reschedule(s, id, v, s')
    case EvReturn(id, Finish(v)) => Settle(s, id, v, s')
    case EvReturn(id, Spawn(v, children)) => SpawnChildren(s, id, v, children, s')
    case EvReturn(id, Park(v)) => ParkExternal(s, id, v, s')
    case EvUnpark(id) => Unpark(s, id, s')
    case EvCancel(root) => Cancel(s, root, s')
    case EvRetry(root) => Retry(s, root, s')
  }

  ghost predicate Initial(s: State) {
    s.rows == map[] && s.live == map[]
  }

  ghost predicate Run(states: seq<State>, events: seq<Event>) {
    && |states| == |events| + 1
    && Initial(states[0])
    && forall i :: 0 <= i < |events| ==> Step(states[i], events[i], states[i + 1])
  }

  // --- every step keeps the invariant ---

  // Identities, and the status class of everything that counts, are as before.
  ghost predicate Framed(a: map<Id, Row>, b: map<Id, Row>) {
    && a.Keys <= b.Keys
    && forall j :: j in a ==> SameIdentity(a[j], b[j])
  }

  lemma LinkedFramed(s: State, s': State, c: Id)
    requires c in s.rows && Linked(s, c) && s'.defs == s.defs && Framed(s.rows, s'.rows)
    ensures Linked(s', c)
  {
  }

  lemma ActiveChildFramed(a: map<Id, Row>, b: map<Id, Row>, p: Id)
    requires Framed(a, b) && HasActiveChild(a, p)
    requires forall j :: ChildOf(a, j, p) && !Terminal(a[j].status) ==> !Terminal(b[j].status)
    ensures HasActiveChild(b, p)
  {
    var c :| ChildOf(a, c, p) && !Terminal(a[c].status);
    assert ChildOf(b, c, p);
  }

  lemma CompletedFramed(a: map<Id, Row>, b: map<Id, Row>, p: Id)
    requires Framed(a, b) && AllCompleted(a, p)
    requires forall j :: j in b && b[j].parent == p ==> j in a
    requires forall j :: ChildOf(a, j, p) && a[j].status.Completed? ==> b[j].status.Completed?
    ensures AllCompleted(b, p)
  {
    forall c | ChildOf(b, c, p) ensures b[c].status.Completed? {
      assert ChildOf(a, c, p);
    }
  }

  // Claims, renewals and crashes touch nothing the row clauses read.
  ghost predicate OnlyLeases(a: map<Id, Row>, b: map<Id, Row>) {
    && a.Keys == b.Keys
    && forall j :: j in a ==> b[j] == a[j].(worker := b[j].worker, lease := b[j].lease)
  }

  lemma OnlyLeasesRow(s: State, s': State, id: Id)
    requires Inv(s) && id in s.rows && s'.defs == s.defs && OnlyLeases(s.rows, s'.rows)
    requires s'.rows[id].worker.Some? ==>
               s.rows[id].worker.Some? || (!Terminal(s.rows[id].status) && !s.rows[id].wait.Waiting?)
    ensures RowHolds(s', id)
    ensures AllCompleted(s.rows, id) ==> AllCompleted(s'.rows, id)
  {
    assert RowHolds(s, id);
    assert Framed(s.rows, s'.rows);
    if HasActiveChild(s.rows, id) { ActiveChildFramed(s.rows, s'.rows, id); }
    if AllCompleted(s.rows, id) { CompletedFramed(s.rows, s'.rows, id); }
  }

  // A fresh copy agrees with its row, and a running claimed row has only completed children.
  lemma ClaimedAgrees(s: State, worker: string, ids: set<Id>, leaseMs: nat, s': State, id: Id)
    requires Inv(s) && Claim(s, worker, ids, leaseMs, s') && id in ids
    ensures LiveAgrees(s', id)
  {
    assert RowHolds(s, id);
    assert s'.live[id].inst == s'.rows[id];
    assert OnlyLeases(s.rows, s'.rows);
    OnlyLeasesRow(s, s', id);
    if s.rows[id].status.Running? {
      forall c | ChildOf(s.rows, c, id) ensures s.rows[c].status.Completed? {
        RunningParentHasHealthyChildren(s, id, c);
      }
      assert AllCompleted(s.rows, id);
    }
  }

  lemma ClaimKeeps(s: State, worker: string, ids: set<Id>, leaseMs: nat, s': State)
    requires Inv(s) && Claim(s, worker, ids, leaseMs, s')
    ensures Inv(s')
  {
    assert OnlyLeases(s.rows, s'.rows);
    forall id | id in s'.rows ensures RowHolds(s', id) {
      OnlyLeasesRow(s, s', id);
    }
    forall id | id in s'.live ensures LiveAgrees(s', id) {
      if id in ids {
        ClaimedAgrees(s, worker, ids, leaseMs, s', id);
      } else {
        assert LiveAgrees(s, id);
        OnlyLeasesRow(s, s', id);
      }
    }
  }

  lemma TickKeeps(s: State, s': State)
    requires Inv(s) && Tick(s, s')
    ensures Inv(s')
  {
    forall id | id in s'.rows ensures RowHolds(s', id) { assert RowHolds(s, id); }
    forall id | id in s'.live ensures LiveAgrees(s', id) { assert LiveAgrees(s, id); }
  }

  lemma RenewKeeps(s: State, worker: string, expiry: int, s': State)
    requires Inv(s) && Renew(s, worker, expiry, s')
    ensures Inv(s')
  {
    hide RowHolds, LiveAgrees;
    forall id | id in s'.rows ensures RowHolds(s', id) {
      OnlyLeasesRow(s, s', id);
    }
    forall id | id in s'.live ensures LiveAgrees(s', id) {
      RenewLive(s, worker, expiry, s', id);
    }
  }

  lemma RenewLive(s: State, worker: string, expiry: int, s': State, id: Id)
    requires Inv(s) && Renew(s, worker, expiry, s') && id in s.live
    ensures LiveAgrees(s', id)
  {
    assert LiveAgrees(s, id);
    OnlyLeasesRow(s, s', id);
  }

  lemma CrashKeeps(s: State, id: Id, s': State)
    requires Inv(s) && Crash(s, id, s')
    ensures Inv(s')
  {
    forall j | j in s'.rows ensures RowHolds(s', j) { assert RowHolds(s, j); }
    forall j | j in s'.live ensures LiveAgrees(s', j) { assert LiveAgrees(s, j); }
  }

  lemma CreateKeeps(s: State, id: Id, def: string, s': State)
    requires Inv(s) && Create(s, id, def, s')
    ensures Inv(s')
  {
    assert Framed(s.rows, s'.rows);
    forall j | j in s'.rows ensures RowHolds(s', j) {
      if j in s.rows {
        assert RowHolds(s, j);
        if HasActiveChild(s.rows, j) { ActiveChildFramed(s.rows, s'.rows, j); }
        if AllCompleted(s.rows, j) { CompletedFramed(s.rows, s'.rows, j); }
      }
    }
    forall j | j in s'.live ensures LiveAgrees(s', j) {
      assert LiveAgrees(s, j);
      if AllCompleted(s.rows, j) { CompletedFramed(s.rows, s'.rows, j); }
    }
  }

  // A running advance rewrites its own row and stays active: nothing around it notices.
  lemma OneRowKeeps(s: State, id: Id, r: Row, s': State)
    requires Inv(s) && id in s.live && id in s.rows && s.live[id].inst.status.Running?
    requires s' == s.(rows := s.rows[id := r], live := s.live - {id})
    requires SameIdentity(r, s.rows[id])
    requires r.status == s.rows[id].status || r.status.Running?
    requires r.wait.NoWait? || (r.wait.External? && IsExternal(s.defs, r.def, r.task))
    ensures Inv(s')
  {
    assert LiveAgrees(s, id);
    assert RowHolds(s, id);
    assert Framed(s.rows, s'.rows);
    forall j | j in s'.rows ensures RowHolds(s', j) {
      assert RowHolds(s, j);
      if HasActiveChild(s.rows, j) { ActiveChildFramed(s.rows, s'.rows, j); }
      if AllCompleted(s.rows, j) { CompletedFramed(s.rows, s'.rows, j); }
      if s.rows[j].parent == id { assert ChildOf(s.rows, j, id); }
    }
    forall j | j in s'.live ensures LiveAgrees(s', j) {
      assert LiveAgrees(s, j);
      if AllCompleted(s.rows, j) { CompletedFramed(s.rows, s'.rows, j); }
    }
  }

  lemma CheckpointKeeps(s: State, id: Id, v: Row, s': State)
    requires Inv(s) && Checkpoint(s, id, v, s')
    ensures Inv(s')
  {
    OneRowKeeps(s, id, Checkpointed(s.rows[id], v), s');
  }

  lemma RescheduleKeeps(s: State, id: Id, v: Row, s': State)
    requires Inv(s) && Reschedule(s, id, v, s')
    ensures Inv(s')
  {
    OneRowKeeps(s, id, Written(s.rows[id], v), s');
  }

  lemma ParkKeeps(s: State, id: Id, v: Row, s': State)
    requires Inv(s) && ParkExternal(s, id, v, s')
    ensures Inv(s')
  {
    assert LiveAgrees(s, id);
    OneRowKeeps(s, id, Written(s.rows[id], v), s');
  }

  lemma UnparkKeeps(s: State, id: Id, s': State)
    requires Inv(s) && Unpark(s, id, s')
    ensures Inv(s')
  {
    hide RowHolds, LiveAgrees;
    forall j | j in s'.rows ensures RowHolds(s', j) { UnparkRow(s, id, s', j); }
    forall j | j in s'.live ensures LiveAgrees(s', j) { UnparkLive(s, id, s', j); }
  }

  lemma UnparkRow(s: State, id: Id, s': State, j: Id)
    requires Inv(s) && Unpark(s, id, s') && j in s.rows
    ensures RowHolds(s', j)
  {
    assert RowHolds(s, id) && RowHolds(s, j);
    assert id in s.live ==> LiveAgrees(s, id);
    assert Framed(s.rows, s'.rows);
    hide Inv;
    if HasActiveChild(s.rows, j) { ActiveChildFramed(s.rows, s'.rows, j); }
    if AllCompleted(s.rows, j) { CompletedFramed(s.rows, s'.rows, j); }
  }

  lemma UnparkLive(s: State, id: Id, s': State, j: Id)
    requires Inv(s) && Unpark(s, id, s') && j in s.live
    ensures LiveAgrees(s', j)
  {
    assert LiveAgrees(s, j);
    assert Framed(s.rows, s'.rows);
    hide Inv;
    if AllCompleted(s.rows, j) { CompletedFramed(s.rows, s'.rows, j); }
  }

  // A parent and its child are in the same tree.
  lemma SameTree(s: State, root: Id, c: Id)
    requires Inv(s) && c in s.rows && s.rows[c].parent != "" && root in s.rows && s.rows[root].parent == ""
    ensures s.rows[c].parent in s.rows
    ensures InTree(s.rows, root, c) <==> InTree(s.rows, root, s.rows[c].parent)
  {
    assert RowHolds(s, c);
    assert RowHolds(s, root);
  }

  lemma CancelledRow(s: State, root: Id, s': State, j: Id)
    requires Inv(s) && Cancel(s, root, s') && j in s.rows
    ensures RowHolds(s', j)
    ensures AllCompleted(s.rows, j) ==> AllCompleted(s'.rows, j)
  {
    assert Framed(s.rows, s'.rows);
    assert RowHolds(s, j);
    if HasActiveChild(s.rows, j) { ActiveChildFramed(s.rows, s'.rows, j); }
    if AllCompleted(s.rows, j) { CompletedFramed(s.rows, s'.rows, j); }
    var p := s.rows[j].parent;
    if p != "" {
      SameTree(s, root, j);
      assert s'.rows[p].status.Running? ==> !InTree(s.rows, root, p);
    }
  }

  lemma CancelKeeps(s: State, root: Id, s': State)
    requires Inv(s) && Cancel(s, root, s')
    ensures Inv(s')
  {
    forall j | j in s'.rows ensures RowHolds(s', j) {
      CancelledRow(s, root, s', j);
    }
    forall j | j in s'.live ensures LiveAgrees(s', j) {
      assert LiveAgrees(s, j);
      CancelledRow(s, root, s', j);
    }
  }

  // --- settling ---

  // The call stack holds the parent, and with any ancestor its own parent.
  lemma AncestorsClosed(s: State, c: Id, a: Id)
    requires Inv(s) && c in s.rows && a in s.rows[c].callStack
    ensures a in s.rows && s.rows[c].parent in s.rows[c].callStack
    ensures s.rows[a].parent != "" ==> s.rows[a].parent in s.rows[c].callStack
  {
    assert RowHolds(s, c);
    var k :| 0 <= k < |s.rows[c].callStack| && s.rows[c].callStack[k] == a;
    CallStackIsPath(s, c, k);
    assert RowHolds(s, a);
    if s.rows[a].parent != "" {
      assert s.rows[a].callStack[k - 1] == s.rows[a].parent == s.rows[c].callStack[k - 1];
    }
  }

  // What settling leaves alone: only waiting ancestors change, and only in status, error
  // and wait state.
  lemma SettledOther(s: State, id: Id, v: Row, s': State, j: Id)
    requires Inv(s) && Settle(s, id, v, s') && j in s.rows && j != id
    ensures var r, r' := s.rows[j], s'.rows[j];
      && r' == r.(status := r'.status, error := r'.error, wait := r'.wait)
      && Terminal(r'.status) == Terminal(r.status)
      && r'.status.Completed? == r.status.Completed?
      && (r'.status.Running? ==> r.status.Running?)
      && (r' != r ==> r.wait.Waiting? && j in s.rows[id].callStack)
      && (r'.wait.Waiting? ==> r == r' || v.status.Failed?)
      && (r'.wait != r.wait ==> j == s.rows[id].parent && r.wait.Waiting? && LastOfBatch(s.rows, id))
  {
    assert LiveAgrees(s, id) && RowHolds(s, id);
    if j in s.rows[id].callStack {
      var k :| 0 <= k < |s.rows[id].callStack| && s.rows[id].callStack[k] == j;
      AncestorsWait(s, id, k);
    }
    if j == s.rows[id].parent {
      assert s.rows[id].callStack[|s.rows[id].callStack| - 1] == j;
    }
  }

  lemma SettledFramed(s: State, id: Id, v: Row, s': State)
    requires Inv(s) && Settle(s, id, v, s')
    ensures Framed(s.rows, s'.rows)
  {
    assert LiveAgrees(s, id);
    forall j | j in s.rows ensures SameIdentity(s.rows[j], s'.rows[j]) {
      if j != id { SettledOther(s, id, v, s', j); }
    }
  }

  lemma SettledSelf(s: State, id: Id, v: Row, s': State)
    requires Inv(s) && Settle(s, id, v, s')
    ensures RowHolds(s', id)
  {
    assert LiveAgrees(s, id) && RowHolds(s, id);
    SettledFramed(s, id, v, s');
    var p := s.rows[id].parent;
    if p != "" {
      SettledOther(s, id, v, s', p);
      assert s.rows[id].callStack[|s.rows[id].callStack| - 1] == p;
    }
  }

  lemma SettledFollows(s: State, id: Id, v: Row, s': State, j: Id)
    requires Inv(s) && Settle(s, id, v, s') && j in s.rows && j != id
    ensures FollowsParent(s', j)
  {
    assert LiveAgrees(s, id) && RowHolds(s, id) && RowHolds(s, j);
    SettledOther(s, id, v, s', j);
    var p := s.rows[j].parent;
    if p != "" && !s.rows[j].status.Completed? {
      if p == id {
        assert ChildOf(s.rows, j, id);
      } else {
        SettledOther(s, id, v, s', p);
        if v.status.Failed? && j in s.rows[id].callStack { AncestorsClosed(s, id, j); }
      }
    }
  }

  // Waking: the batch is over, and the parent collects only if all of it completed.
  lemma WokenParent(s: State, id: Id, v: Row, s': State)
    requires Inv(s) && Settle(s, id, v, s') && s.rows[id].parent != ""
    requires s.rows[id].parent in s.rows && s.rows[id].parent in s'.rows && s'.rows[s.rows[id].parent].wait.Collecting?
    ensures AllCompleted(s'.rows, s.rows[id].parent)
    ensures IsSpawn(s.defs, s.rows[s.rows[id].parent].def, s.rows[s.rows[id].parent].task)
  {
    var p := s.rows[id].parent;
    assert LiveAgrees(s, id) && RowHolds(s, id) && RowHolds(s, p);
    assert s.rows[id].callStack[|s.rows[id].callStack| - 1] == p;
    SettledOther(s, id, v, s', p);
    forall d | ChildOf(s'.rows, d, p) ensures s'.rows[d].status.Completed? {
      SettledFramed(s, id, v, s');
      assert ChildOf(s.rows, d, p) && RowHolds(s, d);
      if d != id { SettledOther(s, id, v, s', d); }
    }
  }

  lemma SettledWait(s: State, id: Id, v: Row, s': State, j: Id)
    requires Inv(s) && Settle(s, id, v, s') && j in s.rows && j != id
    ensures WaitHolds(s', j)
    ensures AllCompleted(s.rows, j) ==> AllCompleted(s'.rows, j)
  {
    assert LiveAgrees(s, id) && RowHolds(s, id) && RowHolds(s, j);
    SettledOther(s, id, v, s', j);
    SettledFramed(s, id, v, s');
    forall c | ChildOf(s.rows, c, j)
      ensures c != id ==> Terminal(s'.rows[c].status) == Terminal(s.rows[c].status)
      ensures s.rows[c].status.Completed? ==> s'.rows[c].status.Completed?
    {
      if c != id { SettledOther(s, id, v, s', c); }
    }
    if AllCompleted(s.rows, j) { CompletedFramed(s.rows, s'.rows, j); }
    if s'.rows[j].wait.Waiting? {
      if j == s.rows[id].parent {
        var d :| d in s.rows && d != id && s.rows[d].parent == j
                 && s.rows[d].spawnTask == s.rows[id].spawnTask && !Terminal(s.rows[d].status);
        assert ChildOf(s.rows, d, j);
        assert ChildOf(s'.rows, d, j);
      } else {
        ActiveChildFramed(s.rows, s'.rows, j);
      }
    } else if s'.rows[j].wait.Collecting? && s.rows[j].wait != Collecting {
      WokenParent(s, id, v, s');
    }
  }

  lemma SettleKeeps(s: State, id: Id, v: Row, s': State)
    requires Inv(s) && Settle(s, id, v, s')
    ensures Inv(s')
  {
    SettledFramed(s, id, v, s');
    forall j | j in s'.rows ensures RowHolds(s', j) {
      if j == id {
        SettledSelf(s, id, v, s');
      } else {
        assert RowHolds(s, j);
        SettledFollows(s, id, v, s', j);
        SettledWait(s, id, v, s', j);
      }
    }
    forall j | j in s'.live ensures LiveAgrees(s', j) {
      assert LiveAgrees(s, j);
      SettledOther(s, id, v, s', j);
      SettledWait(s, id, v, s', j);
    }
  }

  // --- spawning ---

  lemma SpawnedOld(s: State, id: Id, v: Row, children: map<Id, string>, s': State, j: Id)
    requires Inv(s) && SpawnChildren(s, id, v, children, s') && children != map[] && j in s.rows
    ensures RowHolds(s', j)
    ensures j != id && AllCompleted(s.rows, j) ==> AllCompleted(s'.rows, j)
  {
    assert LiveAgrees(s, id) && RowHolds(s, id) && RowHolds(s, j);
    assert Framed(s.rows, s'.rows);
    if j == id {
      var k :| k in children;
      assert ChildOf(s'.rows, k, id);
    } else {
      if HasActiveChild(s.rows, j) { ActiveChildFramed(s.rows, s'.rows, j); }
      if AllCompleted(s.rows, j) { CompletedFramed(s.rows, s'.rows, j); }
      if s.rows[j].parent == id { assert ChildOf(s.rows, j, id); }
    }
  }

  lemma SpawnedNew(s: State, id: Id, v: Row, children: map<Id, string>, s': State, k: Id)
    requires Inv(s) && SpawnChildren(s, id, v, children, s') && k in children
    ensures k in s'.rows && RowHolds(s', k)
  {
    assert children != map[];
    assert LiveAgrees(s, id) && RowHolds(s, id);
    assert s'.rows[k] == NewRow(s.defs, children[k], s.rows[id].status, id, v.task, s.rows[id].callStack + [id]);
  }

  lemma SpawnKeeps(s: State, id: Id, v: Row, children: map<Id, string>, s': State)
    requires Inv(s) && SpawnChildren(s, id, v, children, s')
    ensures Inv(s')
  {
    if children == map[] {
      CrashKeeps(s, id, s');
    } else {
      forall j | j in s'.rows ensures RowHolds(s', j) {
        if j in s.rows { SpawnedOld(s, id, v, children, s', j); } else { SpawnedNew(s, id, v, children, s', j); }
      }
      forall j | j in s'.live ensures LiveAgrees(s', j) {
        assert LiveAgrees(s, j);
        SpawnedOld(s, id, v, children, s', j);
      }
    }
  }

  // --- retry ---

  // Under a stopped root the whole tree is terminal, so no worker holds any of it.
  lemma RetryTreeSettled(s: State, root: Id, j: Id)
    requires Inv(s) && root in s.rows && Stopped(s.rows[root]) && InTree(s.rows, root, j)
    ensures Terminal(s.rows[j].status) && j !in s.live
  {
    TerminalSubtree(s, root, j);
    assert j in s.live ==> LiveAgrees(s, j);
  }

  // Every stopped member of the tree comes back running; the others are as they were.
  lemma RetriedStatus(s: State, root: Id, s': State, j: Id)
    requires Inv(s) && Retry(s, root, s') && j in s.rows
    ensures InTree(s.rows, root, j) ==> s'.rows[j].status == if Stopped(s.rows[j]) then Running else Completed
    ensures !(InTree(s.rows, root, j) && Stopped(s.rows[j])) ==> s'.rows[j] == s.rows[j]
    ensures SameIdentity(s.rows[j], s'.rows[j]) && s'.rows[j].task == s.rows[j].task
  {
    if InTree(s.rows, root, j) { RetryTreeSettled(s, root, j); }
  }

  lemma RetriedFollows(s: State, root: Id, s': State, j: Id)
    requires Inv(s) && Retry(s, root, s') && j in s.rows
    ensures FollowsParent(s', j)
  {
    RetriedStatus(s, root, s', j);
    assert RowHolds(s, j);
    var p := s.rows[j].parent;
    if p != "" {
      SameTree(s, root, j);
      RetriedStatus(s, root, s', p);
      if InTree(s.rows, root, j) && Stopped(s.rows[j]) {
        assert ChildOf(s.rows, j, p) && s.rows[j].spawnTask == s.rows[p].task && Stopped(s.rows[j]);
        assert s.rows[p].task != "";
        assert HasBatch(s.rows, p);
        RetryTreeSettled(s, root, p);
        assert Revived(s.rows, p).wait.Waiting?;
      }
    }
  }

  lemma RetriedWait(s: State, root: Id, s': State, j: Id)
    requires Inv(s) && Retry(s, root, s') && j in s.rows
    ensures WaitHolds(s', j)
    ensures AllCompleted(s.rows, j) ==> AllCompleted(s'.rows, j)
  {
    assert RowHolds(s, j);
    forall i | i in s.rows ensures SameIdentity(s.rows[i], s'.rows[i]) && (s.rows[i].status.Completed? ==> s'.rows[i] == s.rows[i]) {
      RetriedStatus(s, root, s', i);
    }
    assert Framed(s.rows, s'.rows);
    if AllCompleted(s.rows, j) { CompletedFramed(s.rows, s'.rows, j); }
    RetriedStatus(s, root, s', j);
    if InTree(s.rows, root, j) && Stopped(s.rows[j]) {
      if HasBatch(s.rows, j) {
        var k :| ChildOf(s.rows, k, j) && s.rows[k].spawnTask == s.rows[j].task;
        assert RowHolds(s, k);
        RevivedBatch(s, root, s', j);
      }
    } else if s.rows[j].wait.Waiting? {
      forall c | ChildOf(s.rows, c, j) && !Terminal(s.rows[c].status) ensures !Terminal(s'.rows[c].status) {
        RetriedStatus(s, root, s', c);
      }
      ActiveChildFramed(s.rows, s'.rows, j);
    }
  }

  // A revived parent of a batch waits for the members that came back, or collects if the
  // whole batch had completed.
  lemma RevivedBatch(s: State, root: Id, s': State, j: Id)
    requires Inv(s) && Retry(s, root, s') && InTree(s.rows, root, j) && Stopped(s.rows[j]) && HasBatch(s.rows, j)
    ensures s'.rows[j].wait.Waiting? || s'.rows[j].wait.Collecting?
    ensures s'.rows[j].wait.Waiting? <==> HasActiveChild(s'.rows, j)
    ensures s'.rows[j].wait.Collecting? <==> AllCompleted(s'.rows, j)
  {
    forall c | ChildOf(s'.rows, c, j)
      ensures ChildOf(s.rows, c, j) && InTree(s.rows, root, c)
      ensures s'.rows[c].status == if Stopped(s.rows[c]) then Running else Completed
      ensures Stopped(s.rows[c]) ==> s.rows[c].spawnTask == s.rows[j].task
    {
      RetriedStatus(s, root, s', c);
      assert RowHolds(s, c) && RowHolds(s, root);
    }
    if s'.rows[j].wait.Waiting? {
      var k :| ChildOf(s.rows, k, j) && s.rows[k].spawnTask == s.rows[j].task && Stopped(s.rows[k]);
      RetriedStatus(s, root, s', k);
      assert ChildOf(s'.rows, k, j);
    } else {
      assert AllCompleted(s'.rows, j);
    }
  }

  lemma RetryKeeps(s: State, root: Id, s': State)
    requires Inv(s) && Retry(s, root, s')
    ensures Inv(s')
  {
    forall j | j in s'.rows ensures RowHolds(s', j) {
      assert RowHolds(s, j);
      forall i | i in s.rows ensures SameIdentity(s.rows[i], s'.rows[i]) { RetriedStatus(s, root, s', i); }
      LinkedFramed(s, s', j);
      RetriedFollows(s, root, s', j);
      RetriedWait(s, root, s', j);
    }
    forall j | j in s'.live ensures LiveAgrees(s', j) {
      assert LiveAgrees(s, j);
      RetriedStatus(s, root, s', j);
      RetriedWait(s, root, s', j);
      if InTree(s.rows, root, j) { RetryTreeSettled(s, root, j); }
    }
  }

  // --- whole runs ---

  lemma StepKeeps(s: State, e: Event, s': State)
    requires Inv(s) && Step(s, e, s')
    ensures Inv(s')
  {
    match e
    case EvCreate(id, def) => CreateKeeps(s, id, def, s');
    case EvClaim(worker, ids, leaseMs) => ClaimKeeps(s, worker, ids, leaseMs, s');
    case EvTick => TickKeeps(s, s');
    case EvRenew(worker, expiry) => RenewKeeps(s, worker, expiry, s');
    case EvCrash(id) => CrashKeeps(s, id, s');
    case EvReturn(id, Progress(v)) => CheckpointKeeps(s, id, v, s');
    case EvReturn(id, Update(v)) => RescheduleKeeps(s, id, v, s');
    case EvReturn(id, Finish(v)) => SettleKeeps(s, id, v, s');
    case EvReturn(id, Spawn(v, children)) => SpawnKeeps(s, id, v, children, s');
    case EvReturn(id, Park(v)) => ParkKeeps(s, id, v, s');
    case EvUnpark(id) => UnparkKeeps(s, id, s');
    case EvCancel(root) => CancelKeeps(s, root, s');
    case EvRetry(root) => RetryKeeps(s, root, s');
  }

  lemma {:induction false} RunHolds(states: seq<State>, events: seq<Event>, n: nat)
    requires Run(states, events) && n < |states|
    ensures Inv(states[n])
  {
    if n > 0 {
      RunHolds(states, events, n - 1);
      StepKeeps(states[n - 1], events[n - 1], states[n]);
    }
  }

  // No lost wake-up, on every run: an instance waits exactly while a child is active, those
  // children are the batch of its current task, and nothing active hangs below a terminal.
  lemma NoLostWakeup(states: seq<State>, events: seq<Event>, n: nat, p: Id)
    requires Run(states, events) && n < |states| && p in states[n].rows
    ensures states[n].rows[p].wait.Waiting? <==> HasActiveChild(states[n].rows, p)
    ensures forall c :: ChildOf(states[n].rows, c, p) && !states[n].rows[c].status.Completed?
              ==> states[n].rows[c].spawnTask == states[n].rows[p].task
    ensures Terminal(states[n].rows[p].status) ==>
              forall j :: InTree(states[n].rows, p, j) ==> Terminal(states[n].rows[j].status)
  {
    RunHolds(states, events, n);
    WaitingIffActiveChild(states[n], p);
    forall c | ChildOf(states[n].rows, c, p) && !states[n].rows[c].status.Completed?
      ensures states[n].rows[c].spawnTask == states[n].rows[p].task
    {
      assert RowHolds(states[n], c);
    }
    if Terminal(states[n].rows[p].status) {
      forall j | InTree(states[n].rows, p, j) ensures Terminal(states[n].rows[j].status) {
        TerminalSubtree(states[n], p, j);
      }
    }
  }

  // The guard of collectChildOutputs never fires: whoever advances a collecting instance
  // finds every child completed.
  lemma CollectingIsSafe(states: seq<State>, events: seq<Event>, n: nat, p: Id)
    requires Run(states, events) && n < |states| && p in states[n].rows
    ensures states[n].rows[p].wait.Collecting? ==> AllCompleted(states[n].rows, p)
    ensures p in states[n].live && states[n].live[p].inst.wait.Collecting? ==> AllCompleted(states[n].rows, p)
    ensures states[n].rows[p].status.Running? ==>
              forall c :: ChildOf(states[n].rows, c, p) ==>
                states[n].rows[c].status.Running? || states[n].rows[c].status.Completed?
  {
    RunHolds(states, events, n);
    assert RowHolds(states[n], p);
    assert p in states[n].live ==> LiveAgrees(states[n], p);
    if states[n].rows[p].status.Running? {
      forall c | ChildOf(states[n].rows, c, p)
        ensures states[n].rows[c].status.Running? || states[n].rows[c].status.Completed?
      {
        RunningParentHasHealthyChildren(states[n], p, c);
      }
    }
  }
}
