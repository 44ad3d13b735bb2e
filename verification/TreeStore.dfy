/**
 The transactions as they are coded: reads, writes and loops over the table, each proved to
 be the step that TreeSteps describes. The table is a field that the methods of one store
 reassign row by row, in the order in which the code writes; a claim and a renewal pick their
 rows under a limit, and the renewal loop goes on until a chunk comes back short.
 */
module TreeStore {
  import opened Common
  import opened ProcessTree
  import opened TreeSteps

  const RENEW_CHUNK_SIZE: nat := 100

  predicate NeedsRenewal(r: Row, worker: string, expiry: int) {
    r.worker == Some(worker) && r.lease.Some? && r.lease.value < expiry
  }

  function Due(rows: map<Id, Row>, worker: string, expiry: int): set<Id> {
    set id | id in rows && NeedsRenewal(rows[id], worker, expiry)
  }

  ghost predicate RenewedIn(a: map<Id, Row>, b: map<Id, Row>, worker: string, expiry: int, done: set<Id>) {
    && a.Keys == b.Keys
    && forall id :: id in a ==>
         (id in done ==> NeedsRenewal(a[id], worker, expiry)) &&
         b[id] == if id in done then a[id].(lease := Some(expiry)) else a[id]
  }

  lemma ChunkRenewed(a: map<Id, Row>, b: map<Id, Row>, c: map<Id, Row>, worker: string, expiry: int, done: set<Id>, chunk: set<Id>)
    requires RenewedIn(a, b, worker, expiry, done) && chunk <= Due(b, worker, expiry) && c.Keys == b.Keys
    requires forall id :: id in c ==> c[id] == if id in chunk then b[id].(lease := Some(expiry)) else b[id]
    ensures RenewedIn(a, c, worker, expiry, done + chunk)
    ensures Due(c, worker, expiry) == Due(b, worker, expiry) - chunk
    ensures chunk != {} ==> Due(c, worker, expiry) < Due(b, worker, expiry)
  {
  }

  lemma AllRenewed(a: map<Id, Row>, b: map<Id, Row>, worker: string, expiry: int, done: set<Id>)
    requires RenewedIn(a, b, worker, expiry, done) && Due(b, worker, expiry) == {}
    ensures forall id :: id in a ==> b[id] == if NeedsRenewal(a[id], worker, expiry) then a[id].(lease := Some(expiry)) else a[id]
  {
    forall id | id in a ensures id in done <==> NeedsRenewal(a[id], worker, expiry) {
      assert id !in Due(b, worker, expiry);
    }
  }

  class Store {
    const defs: Definitions
    var rows: map<Id, Row>
    var live: map<Id, Claimed>
    var now: int

    ghost function St(): State
      reads this
    {
      State(defs, rows, live, now)
    }

    constructor (defs: Definitions, now: int)
      ensures St() == State(defs, map[], map[], now) && Inv(St())
    {
      this.defs := defs;
      this.rows := map[];
      this.live := map[];
      this.now := now;
    }

    method SaveInstance(id: Id, def: string)
      requires Inv(St()) && id !in rows && id != "" && def in defs && defs[def] != []
      modifies this
      ensures Create(old(St()), id, def, St()) && Inv(St())
    {
      rows := rows[id := Row(def, defs[def][0].id, Running, NoWait, "", "", [], 0, None, "", None, None)];
      CreateKeeps(old(St()), id, def, St());
    }

    // Select up to limit claimable rows, then stamp them: the SQLite branch.
    method ClaimInstances(worker: string, leaseMs: nat, limit: nat) returns (ids: set<Id>)
      requires Inv(St()) && 0 < leaseMs
      modifies this
      ensures Claim(old(St()), worker, ids, leaseMs, St()) && Inv(St())
      ensures |ids| <= limit
      ensures |ids| < limit ==> forall id :: id in old(rows) && Claimable(old(rows)[id], now) ==> id in ids
    {
      ids := {};
      var todo := rows.Keys;
      while todo != {} && |ids| < limit
        invariant ids !! todo && todo <= rows.Keys && ids <= rows.Keys && |ids| <= limit
        invariant forall id :: id in ids ==> Claimable(rows[id], now)
        invariant forall id :: id in rows && Claimable(rows[id], now) ==> id in ids || id in todo
        decreases |todo|
      {
        var id :| id in todo;
        todo := todo - {id};
        if Claimable(rows[id], now) { ids := ids + {id}; }
      }
      Stamp(worker, leaseMs, ids);
      ClaimKeeps(old(St()), worker, ids, leaseMs, St());
    }

    method Stamp(worker: string, leaseMs: nat, ids: set<Id>)
      requires 0 < leaseMs && ids <= rows.Keys
      requires forall id :: id in ids ==> Claimable(rows[id], now)
      modifies this`rows, this`live
      ensures Claim(old(St()), worker, ids, leaseMs, St())
    {
      var before := rows;
      rows := map id | id in before ::
        if id in ids then before[id].(worker := Some(worker), lease := Some(now + leaseMs)) else before[id];
      var held := live;
      live := map id | id in held.Keys + ids ::
        if id in ids then Claimed(rows[id], before[id].worker.Some?) else held[id];
    }

    // Chunks of the soonest-to-expire leases until one comes out short: all of the worker's
    // leases end up renewed.
    method RenewWorkerLeases(worker: string, expiry: int)
      requires Inv(St())
      modifies this`rows
      ensures Renew(old(St()), worker, expiry, St()) && Inv(St())
    {
      hide Inv;
      ghost var start := rows;
      assert RenewedIn(start, rows, worker, expiry, {});
      ghost var done: set<Id> := {};
      while true
        invariant RenewedIn(start, rows, worker, expiry, done)
        decreases Due(rows, worker, expiry)
      {
        ghost var before := rows;
        var chunk := RenewChunk(worker, expiry, RENEW_CHUNK_SIZE);
        ChunkRenewed(start, before, rows, worker, expiry, done, chunk);
        done := done + chunk;
        if |chunk| < RENEW_CHUNK_SIZE { break; }
      }
      AllRenewed(start, rows, worker, expiry, done);
      RenewKeeps(old(St()), worker, expiry, St());
    }

    // One UPDATE: up to size of the leases due, none of them later than one left out.
    method RenewChunk(worker: string, expiry: int, size: nat) returns (chunk: set<Id>)
      modifies this`rows
      ensures chunk <= Due(old(rows), worker, expiry) && |chunk| <= size
      ensures |chunk| < size ==> chunk == Due(old(rows), worker, expiry)
      ensures rows.Keys == old(rows).Keys
      ensures forall id :: id in rows ==> rows[id] == if id in chunk then old(rows)[id].(lease := Some(expiry)) else old(rows)[id]
      ensures forall a, b :: a in chunk && b in Due(old(rows), worker, expiry) - chunk ==> old(rows)[a].lease.value <= old(rows)[b].lease.value
    {
      var due := set id | id in rows && NeedsRenewal(rows[id], worker, expiry);
      assert due == Due(rows, worker, expiry);
      chunk := {};
      while |chunk| < size && chunk != due
        invariant rows == old(rows) && chunk <= due && |chunk| <= size
        invariant forall a, b :: a in chunk && b in due - chunk ==> rows[a].lease.value <= rows[b].lease.value
        decreases size - |chunk|
      {
        var next := Soonest(due - chunk);
        chunk := chunk + {next};
      }
      var before := rows;
      rows := map id | id in before :: if id in chunk then before[id].(lease := Some(expiry)) else before[id];
    }

    method Soonest(ids: set<Id>) returns (best: Id)
      requires ids != {} && forall id :: id in ids ==> id in rows && rows[id].lease.Some?
      ensures best in ids && forall id :: id in ids ==> rows[best].lease.value <= rows[id].lease.value
    {
      best :| best in ids;
      var todo := ids - {best};
      while todo != {}
        invariant todo <= ids && best in ids
        invariant forall id :: id in ids - todo ==> rows[best].lease.value <= rows[id].lease.value
        decreases |todo|
      {
        var id :| id in todo;
        todo := todo - {id};
        if rows[id].lease.value < rows[best].lease.value { best := id; }
      }
    }

    // --- single statements ---

    method UpdateInstance(id: Id, v: Row)
      requires id in rows
      modifies this`rows
      ensures rows == old(rows)[id := Written(old(rows)[id], v)]
    {
      rows := rows[id := rows[id].(
        task := v.task, retryCount := v.retryCount, wakeAt := v.wakeAt, status := v.status,
        wait := v.wait, error := v.error, worker := None, lease := None)];
    }

    method FailAncestors(error: string, ids: seq<Id>)
      modifies this`rows
      ensures rows.Keys == old(rows).Keys
      ensures forall j :: j in rows ==> rows[j] == if j in ids then Doomed(old(rows)[j], error) else old(rows)[j]
    {
      for k := 0 to |ids|
        invariant rows.Keys == old(rows).Keys
        invariant forall j :: j in rows ==> rows[j] == if j in ids[..k] then Doomed(old(rows)[j], error) else old(rows)[j]
      {
        var a := ids[k];
        if a in rows && (rows[a].status.Running? || rows[a].status.Cancelling?) {
          rows := rows[a := rows[a].(status := Failing, error := error)];
        }
      }
    }

    method CountActiveSiblings(parent: Id, spawnTask: string) returns (n: nat)
      ensures n == 0 <==>
        forall d :: d in rows && rows[d].parent == parent && rows[d].spawnTask == spawnTask ==> Terminal(rows[d].status)
    {
      n := 0;
      var todo := rows.Keys;
      while todo != {}
        invariant todo <= rows.Keys
        invariant n == 0 <==>
          forall d :: d in rows && d !in todo && rows[d].parent == parent && rows[d].spawnTask == spawnTask ==> Terminal(rows[d].status)
        decreases |todo|
      {
        var d :| d in todo;
        todo := todo - {d};
        if rows[d].parent == parent && rows[d].spawnTask == spawnTask && !Terminal(rows[d].status) { n := n + 1; }
      }
    }

    method WakeParent(id: Id)
      requires id in rows
      modifies this`rows
      ensures rows == old(rows)[id := Woken(old(rows)[id])]
    {
      rows := rows[id := rows[id].(wait := if rows[id].status == Running then Collecting else NoWait)];
    }

    // Wakes the parent if it waits and nothing of the child's batch is active any more.
    method WakeIfLast(child: Id)
      requires child in rows && rows[child].parent != child && Terminal(rows[child].status)
      modifies this`rows
      ensures rows.Keys == old(rows).Keys
      ensures forall j :: j in rows ==>
        rows[j] == if j == old(rows)[child].parent && old(rows)[j].wait.Waiting? && LastOfBatch(old(rows), child)
                   then Woken(old(rows)[j]) else old(rows)[j]
    {
      var parent := rows[child].parent;
      if parent in rows && rows[parent].wait == Waiting {
        var active := CountActiveSiblings(parent, rows[child].spawnTask);
        if active == 0 { WakeParent(parent); }
      }
    }

    // --- the end of an advance ---

    method UpdateInstanceProgress(id: Id, v: Row)
      requires Inv(St()) && id in live && id in rows && MayReturn(defs, live[id], Progress(v))
      modifies this
      ensures Checkpoint(old(St()), id, v, St()) && Inv(St())
    {
      rows := rows[id := rows[id].(
        task := v.task, retryCount := v.retryCount, wakeAt := v.wakeAt, wait := v.wait, worker := None, lease := None)];
      live := live - {id};
      CheckpointKeeps(old(St()), id, v, St());
    }

    method SaveUpdate(id: Id, v: Row)
      requires Inv(St()) && id in live && id in rows && MayReturn(defs, live[id], Update(v))
      modifies this
      ensures Reschedule(old(St()), id, v, St()) && Inv(St())
    {
      UpdateInstance(id, v);
      live := live - {id};
      RescheduleKeeps(old(St()), id, v, St());
    }

    // saveAndNotify: a root is saved directly, a failed child dooms its ancestors, and every
    // child may wake its parent.
    method SaveAndNotify(id: Id, v: Row)
      requires Inv(St()) && id in live && id in rows && MayReturn(defs, live[id], Finish(v))
      modifies this
      ensures Settle(old(St()), id, v, St()) && Inv(St())
    {
      assert LiveAgrees(St(), id) && RowHolds(St(), id);
      ghost var s := St();
      if rows[id].parent == "" {
        UpdateInstance(id, v);
      } else if v.status == Failed {
        FailInstanceAndAncestors(id, v);
      } else {
        FinishChild(id, v);
      }
      live := live - {id};
      SettleKeeps(s, id, v, St());
    }

    method FinishChild(id: Id, v: Row)
      requires Inv(St()) && id in rows && rows[id].parent != ""
      requires v.status.Completed? || v.status.Cancelled?
      modifies this`rows
      ensures rows.Keys == old(rows).Keys
      ensures rows[id] == Written(old(rows)[id], v)
      ensures forall j :: j in rows && j != id ==> rows[j] == AfterSettling(old(St()), id, v, j)
    {
      assert RowHolds(St(), id);
      UpdateInstance(id, v);
      label saved:
      WakeIfLast(id);
      BatchFramed(old(rows), old@saved(rows), id);
    }

    method FailInstanceAndAncestors(id: Id, v: Row)
      requires Inv(St()) && id in rows && rows[id].parent != "" && v.status.Failed?
      modifies this`rows
      ensures rows.Keys == old(rows).Keys
      ensures rows[id] == Written(old(rows)[id], v)
      ensures forall j :: j in rows && j != id ==> rows[j] == AfterSettling(old(St()), id, v, j)
    {
      assert RowHolds(St(), id);
      NotOwnAncestor(St(), id);
      UpdateInstance(id, v);
      FailAncestors(v.error, rows[id].callStack);
      label saved:
      BatchFramed(old(rows), rows, id);
      WakeIfLast(id);
    }

    method InsertChildren(parent: Id, spawnTask: string, status: Status, stack: seq<Id>, children: map<Id, string>)
      requires children.Keys !! rows.Keys
      requires forall k :: k in children ==> children[k] in defs && defs[children[k]] != []
      modifies this`rows
      ensures rows.Keys == old(rows).Keys + children.Keys
      ensures forall j :: j in old(rows) ==> rows[j] == old(rows)[j]
      ensures forall k :: k in children ==> rows[k] == NewRow(defs, children[k], status, parent, spawnTask, stack)
    {
      hide NewRow;
      var todo := children.Keys;
      while todo != {}
        invariant todo <= children.Keys
        invariant rows.Keys == old(rows).Keys + (children.Keys - todo)
        invariant forall j :: j in old(rows) ==> rows[j] == old(rows)[j]
        invariant forall k :: k in children && k !in todo ==>
          rows[k] == NewRow(defs, children[k], status, parent, spawnTask, stack)
        decreases |todo|
      {
        var k :| k in todo;
        todo := todo - {k};
        rows := rows[k := NewRow(defs, children[k], status, parent, spawnTask, stack)];
      }
    }

    method SpawnChildrenAndWait(id: Id, v: Row, children: map<Id, string>) returns (ok: bool)
      requires Inv(St()) && id in live && id in rows && MayReturn(defs, live[id], Spawn(v, children))
      requires children.Keys !! rows.Keys && "" !in children
      modifies this
      ensures ok <==> children == map[] || old(rows)[id].wait.NoWait?
      ensures !ok ==> St() == old(St())
      ensures ok && old(rows)[id].wait.NoWait? ==> SpawnChildren(old(St()), id, v, children, St())
      ensures Inv(St())
    {
      assert LiveAgrees(St(), id);
      if children == map[] {
        live := live - {id};
        CrashKeeps(old(St()), id, St());
        return true;
      }
      var status := rows[id].status;
      if rows[id].wait != NoWait {
        return false;
      }
      InsertChildren(id, v.task, status, rows[id].callStack + [id], children);
      UpdateInstance(id, v.(status := status, wait := Waiting, wakeAt := None));
      live := live - {id};
      SpawnKeeps(old(St()), id, v, children, St());
      return true;
    }

    // --- the tree as a whole ---

    // WITH RECURSIVE subtree: the walk down parent_id reaches exactly the rows whose call
    // stack holds the root.
    method Subtree(root: Id) returns (ids: set<Id>)
      requires Inv(St()) && root in rows
      ensures ids == set j | j in rows && InTree(rows, root, j)
    {
      ids := {root};
      var frontier := {root};
      while frontier != {}
        invariant frontier <= ids <= rows.Keys && root in ids
        invariant forall j :: j in ids ==> InTree(rows, root, j)
        invariant forall j :: j in rows && rows[j].parent in ids && rows[j].parent !in frontier ==> j in ids
        decreases rows.Keys - ids, |frontier|
      {
        var next := set j | j in rows && rows[j].parent in frontier && j !in ids;
        forall j | j in next ensures InTree(rows, root, j) {
          assert RowHolds(St(), j);
          assert InTree(rows, root, rows[j].parent);
        }
        if next == {} {
          frontier := {};
        } else {
          assert ids < ids + next;
          ids := ids + next;
          frontier := next;
        }
      }
      forall j | j in rows && InTree(rows, root, j) ensures j in ids {
        WalkReaches(St(), root, j, ids);
      }
    }

    method CancelProcess(id: Id) returns (ok: bool)
      requires Inv(St())
      modifies this
      ensures ok <==> id in old(rows) && old(rows)[id].parent == ""
      ensures if ok then Cancel(old(St()), id, St()) else St() == old(St())
      ensures Inv(St())
    {
      if id !in rows || rows[id].parent != "" {
        return false;
      }
      var tree := Subtree(id);
      rows := map j | j in rows :: if j in tree && rows[j].status == Running then rows[j].(status := Cancelling) else rows[j];
      CancelKeeps(old(St()), id, St());
      return true;
    }
  }

  lemma BatchFramed(a: map<Id, Row>, b: map<Id, Row>, c: Id)
    requires c in a && a.Keys == b.Keys
    requires forall j :: j in a ==> SameIdentity(a[j], b[j])
    requires forall j :: j in a && j != c ==> (Terminal(a[j].status) <==> Terminal(b[j].status))
    ensures LastOfBatch(a, c) <==> LastOfBatch(b, c)
  {
    if LastOfBatch(a, c) {
      forall d | d in b && d != c && b[d].parent == b[c].parent && b[d].spawnTask == b[c].spawnTask
        ensures Terminal(b[d].status)
      {
        assert SameIdentity(a[d], b[d]) && SameIdentity(a[c], b[c]);
      }
    } else {
      var d :| d in a && d != c && a[d].parent == a[c].parent && a[d].spawnTask == a[c].spawnTask && !Terminal(a[d].status);
      assert SameIdentity(a[d], b[d]) && SameIdentity(a[c], b[c]);
    }
  }

  lemma NotOwnAncestor(s: State, id: Id)
    requires Inv(s) && id in s.rows
    ensures id !in s.rows[id].callStack
  {
    if id in s.rows[id].callStack {
      var k :| 0 <= k < |s.rows[id].callStack| && s.rows[id].callStack[k] == id;
      CallStackIsPath(s, id, k);
      assert false;
    }
  }

  // A set closed under children that holds the root holds its whole tree.
  lemma {:induction false} WalkReaches(s: State, root: Id, j: Id, ids: set<Id>)
    requires Inv(s) && root in ids && InTree(s.rows, root, j)
    requires forall c :: c in s.rows && s.rows[c].parent in ids ==> c in ids
    ensures j in ids
    decreases if j in s.rows then |s.rows[j].callStack| else 0
  {
    if j != root {
      assert RowHolds(s, j);
      var p := s.rows[j].parent;
      WalkReaches(s, root, p, ids);
    }
  }
}
