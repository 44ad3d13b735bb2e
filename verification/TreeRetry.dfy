/**
 RetryProcess: the walk down the front batches of a settled tree, which revives in place and
 either fails without writing anything or brings back every stopped instance of the tree. The
 walk changes nodes it has loaded and lists them; only when all of it has succeeded are the
 listed nodes written back, one update for each.
 */
module TreeRetry {
  import opened Common
  import opened ProcessTree
  import opened TreeSteps
  import opened TreeStore

  // Without a batch a revived instance runs its current task again: refused, unless forced,
  // when that task is only_once or cannot be found.
  ghost predicate Blocked(s: State, j: Id)
    requires j in s.rows
  {
    && Stopped(s.rows[j]) && s.rows[j].task != "" && !HasBatch(s.rows, j)
    && var t := TaskOf(s.defs, s.rows[j].def, s.rows[j].task);
       t.None? || t.value.onlyOnce
  }

  // The first task of that name in the definition, which may be run again.
  predicate Repeatable(tasks: seq<Task>, id: string) {
    exists i :: 0 <= i < |tasks| && tasks[i].id == id && !tasks[i].onlyOnce && forall k :: 0 <= k < i ==> tasks[k].id != id
  }

  lemma {:induction false} FirstNamed(tasks: seq<Task>, id: string)
    ensures ActionOf(tasks, id).Some? && !ActionOf(tasks, id).value.onlyOnce <==> Repeatable(tasks, id)
  {
    if tasks != [] {
      FirstNamed(tasks[1..], id);
      if i :| 0 <= i < |tasks| && tasks[i].id == id && !tasks[i].onlyOnce && forall k :: 0 <= k < i ==> tasks[k].id != id {
        if i > 0 {
          assert tasks[1..][i - 1].id == id && forall k :: 0 <= k < i - 1 ==> tasks[1..][k] == tasks[k + 1];
        } else {
          assert tasks[0].id == id;
        }
      }
      if tasks[0].id != id && Repeatable(tasks[1..], id) {
        var i :| 0 <= i < |tasks[1..]| && tasks[1..][i].id == id && !tasks[1..][i].onlyOnce && forall k :: 0 <= k < i ==> tasks[1..][k].id != id;
        assert tasks[i + 1].id == id;
        forall k | 0 <= k < i + 1 ensures tasks[k].id != id { if k > 0 { assert tasks[k] == tasks[1..][k - 1]; } }
      }
    }
  }

  // An unforced retry of the tree runs nothing again that may not be: exactly when every failed or
  // cancelled member is off its task list, has a batch at its task to go back to, or stands at a task
  // of its definition that is not only_once.
  lemma NothingBlockedMeans(s: State, root: Id)
    ensures NothingBlocked(s, root) <==>
              forall j :: j in s.rows && (j == root || root in s.rows[j].callStack) && (s.rows[j].status.Failed? || s.rows[j].status.Cancelled?) ==>
                || s.rows[j].task == ""
                || (exists k :: ChildOf(s.rows, k, j) && s.rows[k].spawnTask == s.rows[j].task)
                || (s.rows[j].def in s.defs && Repeatable(s.defs[s.rows[j].def], s.rows[j].task))
  {
    forall j | j in s.rows
      ensures Blocked(s, j) <==>
                && (s.rows[j].status.Failed? || s.rows[j].status.Cancelled?) && s.rows[j].task != ""
                && !(exists k :: ChildOf(s.rows, k, j) && s.rows[k].spawnTask == s.rows[j].task)
                && !(s.rows[j].def in s.defs && Repeatable(s.defs[s.rows[j].def], s.rows[j].task))
    {
      if s.rows[j].def in s.defs { FirstNamed(s.defs[s.rows[j].def], s.rows[j].task); }
    }
  }

  ghost function StoppedIn(s: State, root: Id): set<Id> {
    set j | j in s.rows && InTree(s.rows, root, j) && Stopped(s.rows[j])
  }

  ghost predicate NothingBlocked(s: State, root: Id) {
    forall j :: j in StoppedIn(s, root) ==> !Blocked(s, j)
  }

  // The same three questions about a list of siblings.
  ghost function StoppedUnder(s: State, kids: seq<Id>): set<Id> {
    if kids == [] then {} else StoppedUnder(s, kids[..|kids| - 1]) + StoppedIn(s, kids[|kids| - 1])
  }

  ghost predicate NoneBlocked(s: State, kids: seq<Id>) {
    kids == [] || (NoneBlocked(s, kids[..|kids| - 1]) && NothingBlocked(s, kids[|kids| - 1]))
  }

  ghost predicate AnyStopped(s: State, kids: seq<Id>) {
    kids != [] && (AnyStopped(s, kids[..|kids| - 1])
                   || (kids[|kids| - 1] in s.rows && Stopped(s.rows[kids[|kids| - 1]])))
  }

  lemma NoSiblings(s: State, kids: seq<Id>)
    requires kids == []
    ensures StoppedUnder(s, kids) == {} && NoneBlocked(s, kids) && !AnyStopped(s, kids)
  {
  }

  lemma {:induction false} SiblingsMean(s: State, kids: seq<Id>)
    ensures forall j :: j in StoppedUnder(s, kids) <==> exists k :: k in kids && j in StoppedIn(s, k)
    ensures NoneBlocked(s, kids) <==> forall k :: k in kids ==> NothingBlocked(s, k)
    ensures AnyStopped(s, kids) <==> exists k :: k in kids && k in s.rows && Stopped(s.rows[k])
  {
    if kids != [] {
      var init, last := kids[..|kids| - 1], kids[|kids| - 1];
      SiblingsMean(s, init);
      assert kids == init + [last];
    }
  }

  lemma NextSibling(s: State, kids: seq<Id>, i: nat)
    requires i < |kids|
    ensures StoppedUnder(s, kids[..i + 1]) == StoppedUnder(s, kids[..i]) + StoppedIn(s, kids[i])
    ensures NoneBlocked(s, kids[..i + 1]) <==> NoneBlocked(s, kids[..i]) && NothingBlocked(s, kids[i])
    ensures AnyStopped(s, kids[..i + 1]) <==> AnyStopped(s, kids[..i]) || (kids[i] in s.rows && Stopped(s.rows[kids[i]]))
  {
    assert kids[..i + 1][..i] == kids[..i];
  }

  lemma OneBlocks(s: State, kids: seq<Id>, i: nat)
    requires i < |kids| && !NothingBlocked(s, kids[i])
    ensures !NoneBlocked(s, kids)
  {
    SiblingsMean(s, kids);
    assert kids[i] in kids;
  }

  function Elements(ids: seq<Id>): set<Id> {
    set j | j in ids
  }

  // --- the shape of the tree below a settled node ---

  lemma {:induction false} CompletedBelow(s: State, p: Id, j: Id)
    requires Inv(s) && p in s.rows && s.rows[p].status.Completed? && InTree(s.rows, p, j)
    ensures s.rows[j].status.Completed?
    decreases if j in s.rows then |s.rows[j].callStack| else 0
  {
    if j != p {
      assert RowHolds(s, j);
      CompletedBelow(s, p, s.rows[j].parent);
    }
  }

  lemma NothingStoppedBelow(s: State, p: Id)
    requires Inv(s) && p in s.rows && s.rows[p].status.Completed?
    ensures StoppedIn(s, p) == {} && NothingBlocked(s, p)
  {
    forall j | InTree(s.rows, p, j) ensures !Stopped(s.rows[j]) { CompletedBelow(s, p, j); }
  }

  // Below a node means below exactly one of its children.
  lemma BelowAChild(s: State, p: Id, j: Id) returns (k: Id)
    requires Inv(s) && p in s.rows && InTree(s.rows, p, j) && j != p
    ensures ChildOf(s.rows, k, p) && InTree(s.rows, k, j)
    ensures |s.rows[k].callStack| == |s.rows[p].callStack| + 1
    decreases if j in s.rows then |s.rows[j].callStack| else 0
  {
    assert RowHolds(s, j);
    var q := s.rows[j].parent;
    if q == p {
      k := j;
    } else {
      k := BelowAChild(s, p, q);
      if q != k {
        var i :| 0 <= i < |s.rows[q].callStack| && s.rows[q].callStack[i] == k;
        assert s.rows[j].callStack[i] == k;
      } else {
        assert s.rows[j].callStack[|s.rows[j].callStack| - 1] == k;
      }
    }
  }

  lemma TreeOfChild(s: State, p: Id, k: Id, j: Id)
    requires Inv(s) && ChildOf(s.rows, k, p) && InTree(s.rows, k, j)
    ensures InTree(s.rows, p, j) && j != p
  {
    assert RowHolds(s, k);
    assert s.rows[k].callStack[|s.rows[k].callStack| - 1] == p;
    if j != k {
      AncestorInLine(s, k, j);
      assert s.rows[j].callStack[|s.rows[k].callStack| - 1] == p;
    }
    if j == p { NotOwnAncestor(s, p); }
  }

  lemma AncestorInLine(s: State, a: Id, j: Id)
    requires Inv(s) && a in s.rows && j in s.rows && a in s.rows[j].callStack
    ensures |s.rows[a].callStack| < |s.rows[j].callStack|
    ensures s.rows[a].callStack == s.rows[j].callStack[..|s.rows[a].callStack|]
    ensures s.rows[j].callStack[|s.rows[a].callStack|] == a
  {
    var i :| 0 <= i < |s.rows[j].callStack| && s.rows[j].callStack[i] == a;
    CallStackIsPath(s, j, i);
    assert |s.rows[a].callStack| == i;
  }

  lemma SiblingsApart(s: State, p: Id, a: Id, b: Id, j: Id)
    requires Inv(s) && ChildOf(s.rows, a, p) && ChildOf(s.rows, b, p)
    requires InTree(s.rows, a, j) && InTree(s.rows, b, j)
    ensures a == b
  {
    assert RowHolds(s, a) && RowHolds(s, b);
    if a != j { AncestorInLine(s, a, j); }
    if b != j { AncestorInLine(s, b, j); }
  }

  // Everything stopped below a node is the node itself or sits below its front batch.
  lemma StoppedSplit(s: State, p: Id, kids: seq<Id>)
    requires Inv(s) && p in s.rows && Stopped(s.rows[p])
    requires forall k :: k in kids <==> ChildOf(s.rows, k, p) && s.rows[k].spawnTask == s.rows[p].task
    ensures StoppedIn(s, p) == {p} + StoppedUnder(s, kids)
    ensures NothingBlocked(s, p) <==> !Blocked(s, p) && NoneBlocked(s, kids)
  {
    SiblingsMean(s, kids);
    forall j | j in StoppedIn(s, p) && j != p ensures exists k :: k in kids && j in StoppedIn(s, k) {
      var k := BelowAChild(s, p, j);
      assert RowHolds(s, k);
      if s.rows[k].status.Completed? {
        CompletedBelow(s, k, j);
        assert false;
      }
      assert k in kids && j in StoppedIn(s, k);
    }
    forall j, k | k in kids && j in StoppedIn(s, k) ensures j in StoppedIn(s, p) {
      TreeOfChild(s, p, k, j);
    }
    assert p in StoppedIn(s, p);
    assert StoppedIn(s, p) == {p} + StoppedUnder(s, kids);
  }

  // --- the walk ---

  // The working set of one retry: the loaded rows, the batches they form, and the nodes
  // revived so far, in order.
  class Revival {
    const defs: Definitions
    const batches: map<(Id, string), seq<Id>>
    ghost const before: State
    ghost const tree: set<Id>
    var nodes: map<Id, Row>
    var dirty: seq<Id>

    // The loaded rows are a whole tree, the batches its children by parent and spawn task.
    ghost predicate Loaded() {
      && Inv(before) && before.defs == defs && tree <= before.rows.Keys
      && (forall k :: k in before.rows && before.rows[k].parent in tree ==>
            k in tree && (before.rows[k].parent, before.rows[k].spawnTask) in batches)
      && (forall p, t :: (p, t) in batches ==> IsBatch(p, t, batches[(p, t)]))
    }

    ghost predicate IsBatch(p: Id, t: string, kids: seq<Id>) {
      && p != ""
      && (forall k :: k in kids <==> ChildOf(before.rows, k, p) && before.rows[k].spawnTask == t)
      && (forall i, j :: 0 <= i < j < |kids| ==> kids[i] != kids[j])
    }

    ghost predicate Valid()
      reads this
    {
      && nodes.Keys == tree && tree <= before.rows.Keys
      && (forall j :: j in dirty ==> j in tree)
      && (forall j :: j in nodes ==> nodes[j] == Node(j))
    }

    // Lease columns are only cleared when the node is written back.
    ghost function Node(j: Id): Row
      requires j in before.rows
      reads this
    {
      if j in dirty then Revived(before.rows, j).(worker := before.rows[j].worker, lease := before.rows[j].lease)
      else before.rows[j]
    }

    constructor (defs: Definitions, nodes: map<Id, Row>, batches: map<(Id, string), seq<Id>>, ghost before: State)
      ensures this.defs == defs && this.nodes == nodes && this.batches == batches && this.before == before
      ensures tree == nodes.Keys && dirty == []
    {
      this.defs := defs;
      this.nodes := nodes;
      this.batches := batches;
      this.before := before;
      this.tree := nodes.Keys;
      this.dirty := [];
    }

    ghost predicate Settled(id: Id, height: nat) {
      && id in before.rows && id in tree
      && forall j {:trigger InTree(before.rows, id, j)} :: InTree(before.rows, id, j) ==>
           Terminal(before.rows[j].status) && |before.rows[j].callStack| <= |before.rows[id].callStack| + height
    }

    ghost predicate Untouched(id: Id, done: seq<Id>) {
      forall j {:trigger InTree(before.rows, id, j)} :: InTree(before.rows, id, j) ==> j !in done
    }

    ghost predicate Batch(id: Id, kids: seq<Id>) {
      id in before.rows && IsBatch(id, before.rows[id].task, kids)
    }

    method Revive(id: Id, force: bool, ghost height: nat) returns (ok: bool)
      requires Loaded() && Valid() && Settled(id, height) && Untouched(id, dirty)
      modifies this
      ensures ok <==> force || NothingBlocked(before, id)
      ensures ok ==> Valid() && Elements(dirty) == Elements(old(dirty)) + StoppedIn(before, id)
      decreases height, 3
    {
      assert InTree(before.rows, id, id);
      if nodes[id].status == Completed {
        NothingStoppedBelow(before, id);
        return true;
      }
      var kids := Kids(id);
      var wait;
      ok, wait := ReviveFront(id, kids, force, height);
      StoppedSplit(before, id, kids);
      if ok { Mark(id, wait); }
    }

    method Mark(id: Id, wait: WaitState)
      requires Valid() && id in tree && id !in dirty && wait == Revived(before.rows, id).wait
      modifies this
      ensures Valid() && dirty == old(dirty) + [id] && Elements(dirty) == Elements(old(dirty)) + {id}
    {
      var node := nodes[id];
      assert node == before.rows[id];
      nodes := nodes[id := node.(
        status := Running, wait := wait, error := "",
        wakeAt := if node.retryCount > 0 then None else node.wakeAt)];
      dirty := dirty + [id];
    }

    // children[node.ID][node.Task]
    method Kids(id: Id) returns (kids: seq<Id>)
      requires Loaded() && Valid() && id in tree && nodes[id] == before.rows[id]
      ensures Batch(id, kids)
    {
      kids := if (id, nodes[id].task) in batches then batches[(id, nodes[id].task)] else [];
      forall k ensures k in kids <==> ChildOf(before.rows, k, id) && before.rows[k].spawnTask == before.rows[id].task {
        if ChildOf(before.rows, k, id) { assert before.rows[k].parent == id; }
      }
    }

    // The part of a revival that depends on the front batch: the wait state to come back with.
    method ReviveFront(id: Id, kids: seq<Id>, force: bool, ghost height: nat) returns (ok: bool, wait: WaitState)
      requires Loaded() && Valid() && Settled(id, height) && Untouched(id, dirty)
      requires Stopped(before.rows[id]) && Batch(id, kids)
      modifies this
      ensures ok <==> force || (!Blocked(before, id) && NoneBlocked(before, kids))
      ensures ok ==> Valid() && id !in dirty && wait == Revived(before.rows, id).wait
      ensures ok ==> Elements(dirty) == Elements(old(dirty)) + StoppedUnder(before, kids)
      decreases height, 2
    {
      assert InTree(before.rows, id, id);
      assert nodes[id] == before.rows[id];
      if nodes[id].task == "" {
        NoBatchWithoutTask(before, id, kids);
        return true, NoWait;
      }
      BatchIsKids(before, id, kids);
      if kids == [] {
        if !force {
          var front := TaskOf(defs, nodes[id].def, nodes[id].task);
          if front.None? || front.value.onlyOnce { return false, NoWait; }
        }
        return true, NoWait;
      }
      var anyActive;
      assert id !in Elements(dirty);
      NotBelowItself(id, kids);
      ok, anyActive := ReviveKids(id, kids, force, height);
      assert ok ==> id !in Elements(dirty);
      wait := if anyActive then Waiting else Collecting;
    }

    method ReviveKids(id: Id, kids: seq<Id>, force: bool, ghost height: nat) returns (ok: bool, anyActive: bool)
      requires Loaded() && Valid() && Settled(id, height) && Untouched(id, dirty) && Batch(id, kids)
      modifies this
      ensures ok <==> force || NoneBlocked(before, kids)
      ensures ok ==> Valid()
      ensures ok ==> Elements(dirty) == Elements(old(dirty)) + StoppedUnder(before, kids)
      ensures ok ==> (anyActive <==> AnyStopped(before, kids))
      decreases height, 1
    {
      hide StoppedUnder, NoneBlocked, AnyStopped, StoppedIn, NothingBlocked, Batch, Settled, Untouched, Loaded, Valid, Elements;
      anyActive := false;
      ok := true;
      var i := 0;
      NoSiblings(before, kids[..0]);
      while i < |kids|
        invariant 0 <= i <= |kids| && Valid() && ok
        invariant Elements(dirty) == Elements(old(dirty)) + StoppedUnder(before, kids[..i])
        invariant force || NoneBlocked(before, kids[..i])
        invariant anyActive <==> AnyStopped(before, kids[..i])
      {
        var active;
        ok, active := ReviveNext(id, kids, i, force, height, old(dirty));
        if !ok {
          OneBlocks(before, kids, i);
          return;
        }
        NextSibling(before, kids, i);
        anyActive := anyActive || active;
        i := i + 1;
      }
      assert kids[..i] == kids;
    }

    method ReviveNext(id: Id, kids: seq<Id>, i: nat, force: bool, ghost height: nat, ghost first: seq<Id>)
      returns (ok: bool, active: bool)
      requires Loaded() && Valid() && Settled(id, height) && Untouched(id, first) && Batch(id, kids) && i < |kids|
      requires Elements(dirty) == Elements(first) + StoppedUnder(before, kids[..i])
      modifies this
      ensures kids[i] in before.rows && kids[i] in tree
      ensures ok <==> force || NothingBlocked(before, kids[i])
      ensures ok ==> Valid() && Elements(dirty) == Elements(old(dirty)) + StoppedIn(before, kids[i])
      ensures ok ==> (active <==> Stopped(before.rows[kids[i]]))
      decreases height, 0
    {
      var k := kids[i];
      KidReady(id, kids, i, height, first, dirty);
      assert k !in Elements(dirty);
      active := false;
      ok := Revive(k, force, height - 1);
      if ok {
        assert k in StoppedIn(before, k) <==> Stopped(before.rows[k]);
        KidStatus(k);
        active := !Terminal(nodes[k].status);
      }
    }

    // A revived node is running again, the others of a settled tree are still terminal.
    lemma KidStatus(k: Id)
      requires Valid() && k in tree && Terminal(before.rows[k].status)
      requires k in Elements(dirty) <==> Stopped(before.rows[k])
      ensures Terminal(nodes[k].status) <==> !Stopped(before.rows[k])
    {
      assert nodes[k] == Node(k);
    }

    lemma NotBelowItself(id: Id, kids: seq<Id>)
      requires Inv(before) && Batch(id, kids)
      ensures id !in StoppedUnder(before, kids)
    {
      SiblingsMean(before, kids);
      forall k | k in kids ensures id !in StoppedIn(before, k) {
        if id in StoppedIn(before, k) { TreeOfChild(before, id, k, id); }
      }
    }

    // The next member of the batch has its tree untouched by the members before it.
    lemma KidReady(id: Id, kids: seq<Id>, i: nat, height: nat, first: seq<Id>, done: seq<Id>)
      requires Loaded() && Settled(id, height) && Untouched(id, first) && Batch(id, kids) && i < |kids|
      requires Elements(done) == Elements(first) + StoppedUnder(before, kids[..i])
      ensures height > 0 && Settled(kids[i], height - 1) && Untouched(kids[i], done)
      ensures InTree(before.rows, kids[i], kids[i]) && kids[i] !in done
    {
      var k := kids[i];
      assert k in kids && ChildOf(before.rows, k, id);
      assert RowHolds(before, k);
      assert InTree(before.rows, k, k);
      TreeOfChild(before, id, k, k);
      SiblingsMean(before, kids[..i]);
      forall j | InTree(before.rows, k, j)
        ensures Terminal(before.rows[j].status) && j !in done && |before.rows[j].callStack| <= |before.rows[k].callStack| + height - 1
      {
        TreeOfChild(before, id, k, j);
        forall m | m in kids[..i] ensures j !in StoppedIn(before, m) {
          if j in StoppedIn(before, m) {
            assert m in kids;
            SiblingsApart(before, id, k, m, j);
          }
        }
        assert j !in Elements(done);
      }
    }
  }

  lemma BatchIsKids(s: State, id: Id, kids: seq<Id>)
    requires id in s.rows && s.rows[id].task != ""
    requires forall k :: k in kids <==> ChildOf(s.rows, k, id) && s.rows[k].spawnTask == s.rows[id].task
    ensures HasBatch(s.rows, id) <==> kids != []
    ensures AnyStopped(s, kids) <==>
              exists k :: ChildOf(s.rows, k, id) && s.rows[k].spawnTask == s.rows[id].task && Stopped(s.rows[k])
  {
    if kids != [] { assert kids[0] in kids; }
    SiblingsMean(s, kids);
  }

  lemma SpawnTaskNamed(s: State, k: Id)
    requires Inv(s) && k in s.rows && s.rows[k].parent != ""
    ensures s.rows[k].spawnTask != ""
  {
    assert RowHolds(s, k);
  }

  lemma NoBatchWithoutTask(s: State, id: Id, kids: seq<Id>)
    requires Inv(s) && id in s.rows && s.rows[id].task == ""
    requires forall k :: k in kids <==> ChildOf(s.rows, k, id) && s.rows[k].spawnTask == s.rows[id].task
    ensures kids == []
  {
    if kids != [] {
      assert kids[0] in kids;
      SpawnTaskNamed(s, kids[0]);
      assert false;
    }
  }

  // The rows of the tree grouped by parent and spawn task.
  method LoadBatches(rows: map<Id, Row>, tree: set<Id>) returns (batches: map<(Id, string), seq<Id>>)
    requires tree <= rows.Keys
    ensures forall k :: k in tree && rows[k].parent != "" ==> (rows[k].parent, rows[k].spawnTask) in batches
    ensures forall p, t :: (p, t) in batches ==> Grouped(rows, tree, p, t, batches[(p, t)])
  {
    batches := map[];
    var todo := tree;
    while todo != {}
      invariant todo <= tree
      invariant forall k :: k in tree - todo && rows[k].parent != "" ==> (rows[k].parent, rows[k].spawnTask) in batches
      invariant forall p, t :: (p, t) in batches ==> Grouped(rows, tree - todo, p, t, batches[(p, t)])
      decreases |todo|
    {
      var j :| j in todo;
      ghost var seen := tree - todo;
      todo := todo - {j};
      if rows[j].parent != "" {
        var key := (rows[j].parent, rows[j].spawnTask);
        var batch := if key in batches then batches[key] else [];
        batches := batches[key := batch + [j]];
      }
      forall p, t | (p, t) in batches ensures Grouped(rows, tree - todo, p, t, batches[(p, t)]) {
        assert tree - todo == seen + {j};
      }
    }
    assert tree - todo == tree;
  }

  ghost predicate Grouped(rows: map<Id, Row>, tree: set<Id>, p: Id, t: string, kids: seq<Id>)
    requires tree <= rows.Keys
  {
    && p != "" && kids != []
    && (forall k :: k in kids <==> k in tree && rows[k].parent == p && rows[k].spawnTask == t)
    && (forall i, j :: 0 <= i < j < |kids| ==> kids[i] != kids[j])
  }

  method RetryProcess(store: Store, id: Id, force: bool) returns (ok: bool)
    requires Inv(store.St())
    modifies store
    ensures ok <==>
      && id in old(store.rows) && old(store.rows)[id].parent == "" && Stopped(old(store.rows)[id])
      && (force || NothingBlocked(old(store.St()), id))
    ensures if ok then Retry(old(store.St()), id, store.St()) else store.St() == old(store.St())
    ensures Inv(store.St())
  {
    if id !in store.rows || store.rows[id].parent != "" {
      return false;
    }
    if store.rows[id].status != Failed && store.rows[id].status != Cancelled {
      return false;
    }
    ghost var s := store.St();
    var revival := Load(store, id);
    ghost var height := ReadyToRevive(s, id, revival);
    ok := revival.Revive(id, force, height);
    if !ok { return; }
    RevivedAll(revival, id);
    WriteBack(store, revival.nodes, revival.dirty);
    assert Retry(s, id, store.St());
    RetryKeeps(s, id, store.St());
  }

  method Load(store: Store, id: Id) returns (revival: Revival)
    requires Inv(store.St()) && id in store.rows
    ensures fresh(revival) && revival.before == store.St() && revival.defs == store.defs && revival.dirty == []
    ensures revival.tree == revival.nodes.Keys == set j | j in store.rows && InTree(store.rows, id, j)
    ensures forall j :: j in revival.nodes ==> revival.nodes[j] == store.rows[j]
    ensures forall k :: k in revival.tree && store.rows[k].parent != "" ==> (store.rows[k].parent, store.rows[k].spawnTask) in revival.batches
    ensures forall p, t :: (p, t) in revival.batches ==> Grouped(store.rows, revival.tree, p, t, revival.batches[(p, t)])
  {
    var tree := store.Subtree(id);
    var batches := LoadBatches(store.rows, tree);
    var nodes := map j | j in tree :: store.rows[j];
    revival := new Revival(store.defs, nodes, batches, store.St());
  }

  // Written back, a revived node is the row that Retry promises.
  lemma RevivedAll(revival: Revival, id: Id)
    requires revival.Valid() && Elements(revival.dirty) == StoppedIn(revival.before, id)
    ensures forall j :: j in revival.dirty <==> j in revival.before.rows && InTree(revival.before.rows, id, j) && Stopped(revival.before.rows[j])
    ensures forall j :: j in revival.dirty ==>
      j in revival.nodes && Written(revival.before.rows[j], revival.nodes[j]) == Revived(revival.before.rows, j)
  {
    forall j ensures j in revival.dirty <==> j in Elements(revival.dirty) { }
    forall j | j in revival.dirty
      ensures j in revival.nodes && Written(revival.before.rows[j], revival.nodes[j]) == Revived(revival.before.rows, j)
    {
      assert revival.nodes[j] == revival.Node(j);
    }
  }

  lemma ReadyToRevive(s: State, id: Id, revival: Revival) returns (height: nat)
    requires Inv(s) && id in s.rows && s.rows[id].parent == "" && Stopped(s.rows[id])
    requires revival.before == s && revival.defs == s.defs && revival.dirty == []
    requires revival.tree == revival.nodes.Keys == set j | j in s.rows && InTree(s.rows, id, j)
    requires forall j :: j in revival.nodes ==> revival.nodes[j] == s.rows[j]
    requires forall k :: k in revival.tree && s.rows[k].parent != "" ==> (s.rows[k].parent, s.rows[k].spawnTask) in revival.batches
    requires forall p, t :: (p, t) in revival.batches ==> Grouped(s.rows, revival.tree, p, t, revival.batches[(p, t)])
    ensures revival.Loaded() && revival.Valid() && revival.Settled(id, height) && revival.Untouched(id, revival.dirty)
  {
    var d := Deepest(s, s.rows.Keys);
    height := |s.rows[d].callStack|;
    forall k | k in s.rows && s.rows[k].parent != "" && s.rows[k].parent in s.rows
      ensures k in revival.tree <==> s.rows[k].parent in revival.tree
    {
      SameTree(s, id, k);
    }
    forall p, t | (p, t) in revival.batches ensures revival.IsBatch(p, t, revival.batches[(p, t)]) {
      var kids := revival.batches[(p, t)];
      assert Grouped(s.rows, revival.tree, p, t, kids);
      assert kids[0] in kids;
      assert RowHolds(s, kids[0]);
    }
    RetryTree(s, id);
    assert InTree(s.rows, id, id);
  }

  lemma RetryTree(s: State, id: Id)
    requires Inv(s) && id in s.rows && Stopped(s.rows[id])
    ensures forall j :: InTree(s.rows, id, j) ==> Terminal(s.rows[j].status)
  {
    forall j | InTree(s.rows, id, j) ensures Terminal(s.rows[j].status) { RetryTreeSettled(s, id, j); }
  }

  // One UPDATE per revived node, which also clears its lease columns.
  method WriteBack(store: Store, nodes: map<Id, Row>, dirty: seq<Id>)
    requires forall j :: j in dirty ==> j in nodes && j in store.rows
    modifies store`rows
    ensures store.rows.Keys == old(store.rows).Keys
    ensures forall j :: j in store.rows ==>
      store.rows[j] == (if j in dirty then Written(old(store.rows)[j], nodes[j]) else old(store.rows)[j])
  {
    for i := 0 to |dirty|
      invariant store.rows.Keys == old(store.rows).Keys
      invariant forall j :: j in store.rows ==>
        store.rows[j] == (if j in dirty[..i] then Written(old(store.rows)[j], nodes[j]) else old(store.rows)[j])
    {
      store.UpdateInstance(dirty[i], nodes[dirty[i]]);
    }
  }
}
