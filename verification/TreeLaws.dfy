/** What the transactions make of the rows they meet, read off the states before and after. */
module TreeLaws {
  import opened Common
  import opened ProcessTree
  import opened TreeSteps

  // --- the end of a child ---

  // When a child ends, its parent goes on waiting while any child is active; the last one has a
  // running parent collect and leaves a doomed one to settle.
  lemma LastChildWakes(s: State, id: Id, v: Row, s': State)
    requires Inv(s) && Step(s, EvReturn(id, Finish(v)), s') && s.rows[id].parent != ""
    ensures var p := s.rows[id].parent;
            && p in s.rows && s.rows[p].wait.Waiting? && p in s'.rows
            && (HasActiveChild(s'.rows, p) ==> s'.rows[p].wait.Waiting?)
            && (!HasActiveChild(s'.rows, p) && s'.rows[p].status.Running? ==> s'.rows[p].wait.Collecting?)
            && (!HasActiveChild(s'.rows, p) && !s'.rows[p].status.Running? ==> s'.rows[p].wait.NoWait?)
  {
    var p := s.rows[id].parent;
    assert LiveAgrees(s, id) && RowHolds(s, id) && RowHolds(s, p);
    SettleKeeps(s, id, v, s');
    WaitingIffActiveChild(s', p);
    WaitingIffActiveChild(s, p);
    assert ChildOf(s.rows, id, p);
  }

  // A failure takes every ancestor along, with its error unless one was failing already; nothing
  // else about other rows changes but the wait state of the parent.
  lemma FailureDoomsAncestors(s: State, id: Id, v: Row, s': State, j: Id)
    requires Inv(s) && Step(s, EvReturn(id, Finish(v)), s') && j in s.rows && j != id
    ensures j in s'.rows
    ensures var r, r' := s.rows[j], s'.rows[j];
            && (v.status.Failed? && j in s.rows[id].callStack ==>
                  r'.status.Failing? && r'.error == if r.status.Failing? then r.error else v.error)
            && (!(v.status.Failed? && j in s.rows[id].callStack) ==> r'.status == r.status && r'.error == r.error)
            && (j != s.rows[id].parent ==> r'.wait == r.wait)
            && r' == r.(status := r'.status, error := r'.error, wait := r'.wait)
  {
    assert LiveAgrees(s, id) && RowHolds(s, id);
    SettledOther(s, id, v, s', j);
    if v.status.Failed? && j in s.rows[id].callStack {
      var k :| 0 <= k < |s.rows[id].callStack| && s.rows[id].callStack[k] == j;
      AncestorsWait(s, id, k);
      assert RowHolds(s, j);
      assert !s.rows[j].status.Completed?;
    }
  }

  // --- the write that ends an advance ---

  // The row is given back, and so is its copy; status and error of a row that goes on are left to
  // whoever changed them, unless the advance retries, routes an error or parks.
  lemma ReturnWrites(s: State, id: Id, o: Outcome, s': State)
    requires Inv(s) && Step(s, EvReturn(id, o), s') && (o.Spawn? ==> o.children != map[])
    ensures id in s.rows && id in s'.rows && id !in s'.live
    ensures var r, r' := s.rows[id], s'.rows[id];
            && r'.worker.None? && r'.lease.None? && r'.task == o.v.task && r'.retryCount == o.v.retryCount
            && r'.wakeAt == (if o.Spawn? then None else o.v.wakeAt)
            && r'.wait == (if o.Spawn? then Waiting else o.v.wait)
            && r'.status == (if o.Progress? || o.Spawn? then r.status else o.v.status)
            && r'.error == (if o.Progress? then r.error else o.v.error)
            && SameIdentity(r, r')
  {
    assert LiveAgrees(s, id);
  }

  // A child starts at the first task of its definition, untouched, below its parent and under the
  // status its parent has then.
  lemma ChildrenStart(s: State, id: Id, v: Row, children: map<Id, string>, s': State, k: Id)
    requires Inv(s) && Step(s, EvReturn(id, Spawn(v, children)), s') && k in children
    ensures k !in s.rows && k in s'.rows && k !in s'.live
    ensures var c := s'.rows[k];
            && c.def == children[k] && c.def in s.defs && s.defs[c.def] != [] && c.task == s.defs[c.def][0].id
            && c.status == s.rows[id].status && c.wait.NoWait? && c.error == "" && c.retryCount == 0 && c.wakeAt.None?
            && c.worker.None? && c.lease.None?
            && c.parent == id && c.spawnTask == s'.rows[id].task && c.callStack == s.rows[id].callStack + [id]
  {
    assert children != map[];
    assert k in s'.live ==> LiveAgrees(s, k);
  }

  // --- claiming ---

  predicate LeaseOver(r: Row, now: int) {
    r.worker.None? || (r.lease.Some? && r.lease.value <= now)
  }

  // When a row may be claimed: a draining one as soon as it is free, whatever its timer; a running
  // one from the time its timer names on; a parked one without a timer, a waiting one and a
  // terminal one never.
  lemma ClaimableFrom(r: Row, now: int)
    ensures Terminal(r.status) || r.wait.Waiting? ==> !Claimable(r, now)
    ensures Draining(r.status) && !r.wait.Waiting? ==> (Claimable(r, now) <==> LeaseOver(r, now))
    ensures r.status.Running? && !r.wait.Waiting? && r.wakeAt.Some? ==> (Claimable(r, now) <==> r.wakeAt.value <= now && LeaseOver(r, now))
    ensures r.status.Running? && r.wait.External? && r.wakeAt.None? ==> !Claimable(r, now)
    ensures r.status.Running? && (r.wait.NoWait? || r.wait.Collecting?) && r.wakeAt.None? ==> (Claimable(r, now) <==> LeaseOver(r, now))
  {
  }

  // On every run, a row that some worker advances is claimed by nobody, and a claim gives its copy
  // the columns of the row.
  lemma HeldByOne(states: seq<State>, events: seq<Event>, n: nat, id: Id)
    requires Run(states, events) && n < |events| && events[n].EvClaim? && id in events[n].ids
    ensures id !in states[n].live && id in states[n].rows && id in states[n + 1].live
    ensures var c, r := states[n + 1].live[id], states[n].rows[id];
            && c.inst == r.(worker := Some(events[n].worker), lease := Some(states[n].now + events[n].leaseMs))
            && (c.reclaimed <==> r.worker.Some?)
  {
    RunHolds(states, events, n);
    assert Step(states[n], events[n], states[n + 1]);
    assert id in states[n].live ==> LiveAgrees(states[n], id);
  }

  // A renewal puts every lease of the worker at the expiry or later, shortens none and touches nothing
  // else.
  lemma RenewalExtends(s: State, worker: string, expiry: int, s': State, j: Id)
    requires Step(s, EvRenew(worker, expiry), s') && j in s.rows
    ensures j in s'.rows && s'.rows[j] == s.rows[j].(lease := s'.rows[j].lease)
    ensures var r, r' := s.rows[j], s'.rows[j];
            if r.worker == Some(worker) && r.lease.Some? then
              r'.lease.Some? && r'.lease.value >= expiry && r'.lease.value >= r.lease.value && (r'.lease.value == expiry || r'.lease == r.lease)
            else r'.lease == r.lease
  {
  }

  // --- cancel and retry ---

  // A cancel marks exactly the running members of the tree, and changes nothing else of them.
  lemma CancelMarks(s: State, root: Id, s': State, j: Id)
    requires Inv(s) && Step(s, EvCancel(root), s') && j in s.rows
    ensures j in s'.rows && s'.rows[j] == s.rows[j].(status := s'.rows[j].status)
    ensures var hit := s.rows[j].status.Running? && (j == root || root in s.rows[j].callStack);
            if hit then s'.rows[j].status.Cancelling? else s'.rows[j].status == s.rows[j].status
  {
  }

  // A retry revives exactly the failed and cancelled members: running, without the error, at the
  // task where they stopped and with the attempts they had used; a retry timer is dropped, any
  // other kept; each waits, collects or runs by what became of the batch of that task.
  lemma RetryRevives(s: State, root: Id, s': State, j: Id)
    requires Inv(s) && Step(s, EvRetry(root), s') && j in s.rows
    ensures j in s'.rows
    ensures var r, r' := s.rows[j], s'.rows[j];
            if (r.status.Failed? || r.status.Cancelled?) && (j == root || root in r.callStack) then
              && r'.status.Running? && r'.error == "" && r'.task == r.task && r'.retryCount == r.retryCount
              && r'.worker.None? && r'.lease.None? && SameIdentity(r, r')
              && (r.retryCount > 0 ==> r'.wakeAt.None?) && (r.retryCount == 0 ==> r'.wakeAt == r.wakeAt)
              && (r'.wait.Waiting? <==> HasActiveChild(s'.rows, j))
              && (r'.wait.Collecting? <==> !HasActiveChild(s'.rows, j) && r.task != "" && BatchOf(s.rows, j, r.task))
              && !r'.wait.External?
            else r' == r
  {
    RetryKeeps(s, root, s');
    WaitingIffActiveChild(s', j);
  }

  // Some child was spawned by that task.
  ghost predicate BatchOf(rows: map<Id, Row>, p: Id, task: string) {
    exists k :: ChildOf(rows, k, p) && rows[k].spawnTask == task
  }
}
