/** Results submitted to one instance's external tasks: none lost, none doubled, in order. */
module Signals {
  import opened Common
  import opened ProcessTree

  // --- the order of process_signals ---

  datatype Key = Key(created: int, id: int)

  predicate Before(a: Key, b: Key) {
    a.created < b.created || (a.created == b.created && a.id < b.id)
  }

  // A buffered submission. Accepted submissions are numbered from 0 as they come.
  datatype Signal = Signal(key: Key, task: string, sub: nat)

  // The engine's copy of the row, and the result it has taken from it so far.
  datatype Copy = Copy(task: string, wait: WaitState, token: Option<string>, result: Option<nat>, taken: Option<nat>)

  // The row's columns, its queue, the advance in flight; and what has happened: the task each
  // accepted submission was for; the order in which they reached the row; those consumed by
  // persisted advances; tokens minted; the submission each token took.
  datatype Box = Box(
    status: Status,
    wait: WaitState,
    task: string,
    wakeAt: Option<int>,
    token: Option<string>,
    result: Option<nat>,
    lease: Option<int>,
    now: int,
    queue: set<Signal>,
    copy: Option<Copy>,
    accepted: seq<string>,
    fed: seq<nat>,
    consumed: seq<nat>,
    minted: set<string>,
    answered: seq<(string, nat)>
  )

  predicate Leased(b: Box) {
    b.lease.Some? && b.lease.value > b.now
  }

  predicate ArmedFor(b: Box, task: string) {
    b.wait.External? && b.task == task
  }

  predicate Queued(b: Box, task: string) {
    exists s :: s in b.queue && s.task == task
  }

  predicate Oldest(b: Box, task: string, s: Signal) {
    s in b.queue && s.task == task && forall o :: o in b.queue && o.task == task && o != s ==> Before(s.key, o.key)
  }

  predicate FreshKey(b: Box, key: Key) {
    forall o :: o in b.queue ==> o.key != key
  }

  // --- events ---

  datatype Event =
    | EvDeliver(task: string, key: Key)
    | EvResolve(token: string)
    | EvClaim(leaseMs: nat)
    | EvTake                                         // phase 2: the pending result is taken
    | EvTimeout                                      // phase 3: the deadline passed
    | EvArm(task: string, token: string, wakeAt: Option<int>)
    | EvPersist(status: Status, task: string, wakeAt: Option<int>)
    | EvCrash
    | EvTick(now: int, lease: Option<int>)
    | EvCancel
    | EvRetry

  // The row answered directly: un-parked, with the next submission pending.
  function Answered(b: Box): Box
    requires b.token.Some?
  {
    var sub := |b.accepted|;
    b.(result := Some(sub), wait := NoWait, wakeAt := None, accepted := b.accepted + [b.task],
       fed := b.fed + [sub], answered := b.answered + [(b.token.value, sub)])
  }

  // Addressed to a task by name: answered at once when that task is parked and no live lease
  // holds the row, buffered otherwise, refused unless the instance is running.
  predicate Deliver(b: Box, task: string, key: Key, b': Box) {
    && FreshKey(b, key)
    && if !b.status.Running? then b' == b
       else if ArmedFor(b, task) && !Leased(b) then b.token.Some? && b' == Answered(b)
       else b' == b.(queue := b.queue + {Signal(key, task, |b.accepted|)}, accepted := b.accepted + [task])
  }

  predicate Resolvable(b: Box, token: string) {
    b.status.Running? && b.wait.External? && !Leased(b) && b.token == Some(token)
  }

  // Addressed to one arming by its token; refused when it is stale.
  predicate Resolve(b: Box, token: string, b': Box) {
    b' == if Resolvable(b, token) then Answered(b) else b
  }

  predicate MayClaim(b: Box) {
    && (b.status.Running? || Draining(b.status))
    && !b.wait.Waiting?
    && (Draining(b.status) || (b.wakeAt.Some? && b.wakeAt.value <= b.now) || (!b.wait.External? && b.wakeAt.None?))
    && !Leased(b)
  }

  predicate Claim(b: Box, leaseMs: nat, b': Box) {
    && MayClaim(b) && leaseMs > 0
    && b' == b.(lease := Some(b.now + leaseMs), copy := Some(Copy(b.task, b.wait, b.token, b.result, None)))
  }

  predicate Take(b: Box, b': Box) {
    && b.copy.Some? && b.copy.value.result.Some? && b.copy.value.taken.None?
    && b' == b.(copy := Some(b.copy.value.(result := None, token := None, taken := b.copy.value.result)))
  }

  predicate TimeOut(b: Box, b': Box) {
    && b.copy.Some? && b.copy.value.wait.External? && b.copy.value.result.None?
    && b' == b.(copy := Some(b.copy.value.(wait := NoWait, token := None)))
  }

  // First arrival at an external task: the oldest buffered signal feeds it and the lease is
  // kept; with none buffered the row is parked under a new token and the lease released.
  predicate Arm(b: Box, task: string, token: string, wakeAt: Option<int>, b': Box) {
    && b.copy.Some? && b.copy.value.wait.NoWait? && b.copy.value.result.None? && b.copy.value.taken.None?
    && token !in b.minted
    && if Queued(b, task) then
         exists s :: s in b.queue && Oldest(b, task, s) && b' == Popped(b, s)
       else
         b' == b.(task := task, wait := External, wakeAt := wakeAt, token := Some(token), result := None,
                  minted := b.minted + {token}, lease := None, copy := None,
                  status := if b.status.Cancelling? then Running else b.status)
  }

  function Popped(b: Box, s: Signal): Box
    requires b.copy.Some?
  {
    b.(queue := b.queue - {s}, result := Some(s.sub), fed := b.fed + [s.sub], token := None, wait := NoWait, wakeAt := None,
       copy := Some(b.copy.value.(taken := Some(s.sub))))
  }

  // The write that ends an advance: the copy's external data replaces the row's.
  predicate Persist(b: Box, status: Status, task: string, wakeAt: Option<int>, b': Box) {
    && b.copy.Some? && (status == b.status || !Draining(status))
    && b' == b.(status := status, task := task, wait := NoWait, wakeAt := wakeAt,
                token := b.copy.value.token, result := b.copy.value.result, lease := None, copy := None,
                consumed := if b.copy.value.taken.Some? then b.consumed + [b.copy.value.taken.value] else b.consumed)
  }

  predicate Crash(b: Box, b': Box) {
    b' == b.(copy := None)
  }

  // Leases may be renewed; that of a live advance does not run out.
  predicate Tick(b: Box, now: int, lease: Option<int>, b': Box) {
    && b.now <= now
    && lease.Some? == b.lease.Some? && (lease.Some? ==> b.lease.value <= lease.value)
    && (b.copy.Some? ==> lease.Some? && now < lease.value)
    && b' == b.(now := now, lease := lease)
  }

  predicate Cancel(b: Box, b': Box) {
    b' == if b.status.Running? then b.(status := Cancelling) else b
  }

  predicate Retry(b: Box, b': Box) {
    && (b.status.Failed? || b.status.Cancelled?)
    && b' == b.(status := Running, lease := None, wait := NoWait)
  }

  predicate Step(b: Box, e: Event, b': Box) {
    match e
    case EvDeliver(task, key) => Deliver(b, task, key, b')
    case EvResolve(token) => Resolve(b, token, b')
    case EvClaim(leaseMs) => Claim(b, leaseMs, b')
    case EvTake => Take(b, b')
    case EvTimeout => TimeOut(b, b')
    case EvArm(task, token, wakeAt) => Arm(b, task, token, wakeAt, b')
    case EvPersist(status, task, wakeAt) => Persist(b, status, task, wakeAt, b')
    case EvCrash => Crash(b, b')
    case EvTick(now, lease) => Tick(b, now, lease, b')
    case EvCancel => Cancel(b, b')
    case EvRetry => Retry(b, b')
  }

  predicate Initial(b: Box) {
    && b.status.Running? && b.wait.NoWait? && b.token.None? && b.result.None? && b.lease.None? && b.copy.None?
    && b.queue == {} && b.accepted == [] && b.fed == [] && b.consumed == [] && b.minted == {} && b.answered == []
  }

  predicate Run(boxes: seq<Box>, events: seq<Event>) {
    && |boxes| == |events| + 1 && Initial(boxes[0])
    && forall i :: 0 <= i < |events| ==> Step(boxes[i], events[i], boxes[i + 1])
  }

  // --- the invariant ---

  predicate QueueHolds(b: Box) {
    && (forall s :: s in b.queue ==> s.sub < |b.accepted| && b.accepted[s.sub] == s.task)
    && (forall s, o :: s in b.queue && o in b.queue && (s.sub == o.sub || s.key == o.key) ==> s == o)
  }

  predicate NoRepeats<T(==)>(xs: seq<T>) {
    forall i, j :: 0 <= i < j < |xs| ==> xs[i] != xs[j]
  }

  predicate InQueue(b: Box, sub: nat) {
    exists s :: s in b.queue && s.sub == sub
  }

  // Where an accepted submission is: in exactly one of three places.
  predicate Pending(b: Box, sub: nat) {
    b.result == Some(sub)
  }

  predicate OnePlace(b: Box, sub: nat) {
    && (sub < |b.accepted| <==> InQueue(b, sub) || Pending(b, sub) || sub in b.consumed)
    && !(InQueue(b, sub) && Pending(b, sub)) && !(InQueue(b, sub) && sub in b.consumed) && !(Pending(b, sub) && sub in b.consumed)
  }

  predicate CopyHolds(b: Box) {
    b.copy.Some? ==>
      && Leased(b) && !Terminal(b.status) && (b.copy.value.wait.External? ==> b.wait.External?)
      && (if b.copy.value.taken.Some? then b.result == b.copy.value.taken && b.copy.value.result.None?
          else b.result == b.copy.value.result)
  }

  predicate TokensHold(b: Box) {
    && (b.wait.External? ==> b.token.Some? && b.result.None? && forall i :: 0 <= i < |b.answered| ==> b.answered[i].0 != b.token.value)
    && (b.token.Some? ==> b.token.value in b.minted)
    && (b.copy.Some? && b.copy.value.token.Some? ==> b.copy.value.token.value in b.minted)
    && (forall i :: 0 <= i < |b.answered| ==> b.answered[i].0 in b.minted)
    && (forall i, j :: 0 <= i < j < |b.answered| ==> b.answered[i].0 != b.answered[j].0)
  }

  ghost predicate BoxInv(b: Box) {
    && QueueHolds(b) && CopyHolds(b) && TokensHold(b)
    && NoRepeats(b.consumed)
    && forall sub {:trigger OnePlace(b, sub)} :: OnePlace(b, sub)
  }

  lemma AppendFresh<T>(xs: seq<T>, x: T)
    requires NoRepeats(xs) && x !in xs
    ensures NoRepeats(xs + [x])
  {
  }

  // The row is parked, and no worker that lives holds it.
  predicate Idle(b: Box) {
    b.wait.External? && (b.lease.None? || b.lease.value <= b.now)
  }

  // Where a submission goes. Only a running instance takes one. By task it goes to the row if that task
  // is parked and idle, and into the queue otherwise; by token to the row alone, parked and idle under
  // that very token. A row that is answered can be claimed at once, whatever its deadline was.
  lemma SubmissionGoes(b: Box, e: Event, b': Box)
    requires BoxInv(b) && Step(b, e, b') && (e.EvDeliver? || e.EvResolve?)
    ensures var direct := b.status.Running? && Idle(b) && if e.EvDeliver? then b.task == e.task else b.token == Some(e.token);
            if direct then
              && b'.accepted == b.accepted + [b.task] && b'.result == Some(|b.accepted|) && b'.queue == b.queue
              && b'.wait.NoWait? && b'.wakeAt.None? && b'.status.Running? && b'.task == b.task && b'.token == b.token && MayClaim(b')
            else if e.EvDeliver? && b.status.Running? then
              b' == b.(accepted := b.accepted + [e.task], queue := b.queue + {Signal(e.key, e.task, |b.accepted|)})
            else b' == b
  {
  }

  // A step that leaves the three places of every submission alone.
  lemma SamePlaces(b: Box, b': Box)
    requires BoxInv(b)
    requires b'.queue == b.queue && b'.result == b.result && b'.consumed == b.consumed && b'.accepted == b.accepted
    ensures forall sub {:trigger OnePlace(b', sub)} :: OnePlace(b', sub)
  {
    forall sub ensures OnePlace(b', sub) {
      assert OnePlace(b, sub);
      assert InQueue(b, sub) == InQueue(b', sub);
    }
  }

  lemma AnsweredKeeps(b: Box)
    requires BoxInv(b) && b.wait.External? && !Leased(b)
    ensures BoxInv(Answered(b))
  {
    var b' := Answered(b);
    assert OnePlace(b, |b.accepted|);
    forall x ensures OnePlace(b', x) {
      assert OnePlace(b, x);
      assert InQueue(b, x) == InQueue(b', x);
    }
  }

  lemma BufferKeeps(b: Box, task: string, key: Key)
    requires BoxInv(b) && FreshKey(b, key)
    ensures BoxInv(b.(queue := b.queue + {Signal(key, task, |b.accepted|)}, accepted := b.accepted + [task]))
  {
    var s := Signal(key, task, |b.accepted|);
    var b' := b.(queue := b.queue + {s}, accepted := b.accepted + [task]);
    assert OnePlace(b, s.sub);
    forall x ensures OnePlace(b', x) {
      assert OnePlace(b, x);
      assert s in b'.queue;
      if InQueue(b, x) {
        var o :| o in b.queue && o.sub == x;
        assert o in b'.queue;
      }
      assert InQueue(b', x) <==> InQueue(b, x) || x == s.sub;
    }
  }

  lemma PopKeeps(b: Box, task: string, s: Signal, b': Box)
    requires BoxInv(b) && b.copy.Some? && b.copy.value.result.None? && b.copy.value.taken.None? && b.copy.value.wait.NoWait?
    requires Oldest(b, task, s) && b' == Popped(b, s)
    ensures BoxInv(b')
  {
    forall x ensures OnePlace(b', x) {
      assert OnePlace(b, x);
      assert InQueue(b, s.sub);
      if InQueue(b, x) {
        var o :| o in b.queue && o.sub == x;
        assert x != s.sub ==> o in b'.queue;
      }
      assert InQueue(b', x) <==> InQueue(b, x) && x != s.sub;
    }
  }

  lemma PersistKeeps(b: Box, status: Status, task: string, wakeAt: Option<int>, b': Box)
    requires BoxInv(b) && Persist(b, status, task, wakeAt, b')
    ensures BoxInv(b')
  {
    if b.copy.value.taken.Some? {
      var t := b.copy.value.taken.value;
      assert OnePlace(b, t);
      AppendFresh(b.consumed, t);
      forall x ensures OnePlace(b', x) {
        assert OnePlace(b, x);
        assert InQueue(b, x) == InQueue(b', x);
      }
    } else {
      SamePlaces(b, b');
    }
  }

  lemma StepKeeps(b: Box, e: Event, b': Box)
    requires BoxInv(b) && Step(b, e, b')
    ensures BoxInv(b')
  {
    match e
    case EvDeliver(task, key) =>
      if b.status.Running? {
        if ArmedFor(b, task) && !Leased(b) { AnsweredKeeps(b); } else { BufferKeeps(b, task, key); }
      }
    case EvResolve(token) => if Resolvable(b, token) { AnsweredKeeps(b); }
    case EvArm(task, token, wakeAt) =>
      if Queued(b, task) {
        var s :| Oldest(b, task, s) && b' == Popped(b, s);
        PopKeeps(b, task, s, b');
      } else {
        SamePlaces(b, b');
      }
    case EvPersist(status, task, wakeAt) => PersistKeeps(b, status, task, wakeAt, b');
    case _ => SamePlaces(b, b');
  }

  lemma {:induction false} RunHolds(boxes: seq<Box>, events: seq<Event>, i: nat)
    requires Run(boxes, events) && i < |boxes|
    ensures BoxInv(boxes[i])
  {
    if i == 0 {
      forall sub ensures OnePlace(boxes[0], sub) { }
    } else {
      RunHolds(boxes, events, i - 1);
      assert Step(boxes[i - 1], events[i - 1], boxes[i]);
      StepKeeps(boxes[i - 1], events[i - 1], boxes[i]);
    }
  }

  // Conservation: on every run each accepted result is at any time exactly one of buffered,
  // pending on the row, or consumed; and nothing else ever is.
  lemma NothingLostOrDoubled(boxes: seq<Box>, events: seq<Event>, i: nat, sub: nat)
    requires Run(boxes, events) && i < |boxes|
    ensures OnePlace(boxes[i], sub)
    ensures NoRepeats(boxes[i].consumed)
  {
    RunHolds(boxes, events, i);
  }

  // An arming token takes at most one result.
  lemma OneResultPerToken(boxes: seq<Box>, events: seq<Event>, i: nat, a: nat, c: nat)
    requires Run(boxes, events) && i < |boxes|
    requires a < |boxes[i].answered| && c < |boxes[i].answered| && boxes[i].answered[a].0 == boxes[i].answered[c].0
    ensures a == c
  {
    RunHolds(boxes, events, i);
  }

  // --- order ---

  // The row is answered directly, by a delivery or a resolver.
  predicate DirectAnswer(b: Box, e: Event) {
    match e
    case EvDeliver(task, _) => b.status.Running? && ArmedFor(b, task) && !Leased(b)
    case EvResolve(token) => Resolvable(b, token)
    case _ => false
  }

  // A direct answer finds nothing buffered for its task.
  predicate Guarded(b: Box, e: Event) {
    DirectAnswer(b, e) ==> !Queued(b, b.task)
  }

  // Queue keys grow as signals come.
  predicate KeyGrows(b: Box, e: Event) {
    e.EvDeliver? ==> forall s :: s in b.queue ==> Before(s.key, e.key)
  }

  predicate InOrder(b: Box) {
    && (forall i :: 0 <= i < |b.fed| ==> b.fed[i] < |b.accepted|)
    && (forall i, j :: 0 <= i < j < |b.fed| && b.accepted[b.fed[i]] == b.accepted[b.fed[j]] ==> b.fed[i] < b.fed[j])
    && (forall i, s :: 0 <= i < |b.fed| && s in b.queue && b.accepted[b.fed[i]] == s.task ==> b.fed[i] < s.sub)
    && (forall s, o :: s in b.queue && o in b.queue && s.task == o.task && s.sub < o.sub ==> Before(s.key, o.key))
  }

  lemma OldestIsFirst(b: Box, task: string, s: Signal, o: Signal)
    requires BoxInv(b) && InOrder(b) && Oldest(b, task, s) && o in b.queue && o.task == task && o != s
    ensures s.sub < o.sub
  {
    assert o.sub < s.sub ==> Before(o.key, s.key);
    assert s.sub == o.sub ==> s == o;
  }

  lemma PopInOrder(b: Box, task: string, s: Signal)
    requires BoxInv(b) && InOrder(b) && b.copy.Some? && Oldest(b, task, s)
    ensures InOrder(Popped(b, s))
  {
    var b' := Popped(b, s);
    forall i, o | 0 <= i < |b'.fed| && o in b'.queue && b'.accepted[b'.fed[i]] == o.task ensures b'.fed[i] < o.sub {
      if i == |b.fed| { OldestIsFirst(b, task, s, o); }
    }
  }

  // The exact guard: a direct answer keeps the order iff nothing is buffered for its task.
  lemma AnsweredInOrder(b: Box)
    requires BoxInv(b) && InOrder(b) && b.wait.External? && !Leased(b)
    ensures InOrder(Answered(b)) <==> !Queued(b, b.task)
  {
    var b' := Answered(b);
    if Queued(b, b.task) {
      var s :| s in b.queue && s.task == b.task;
      assert b'.fed[|b.fed|] == |b.accepted| && b'.accepted[|b.accepted|] == s.task && s in b'.queue && s.sub < |b.accepted|;
    } else {
      forall i, o | 0 <= i < |b'.fed| && o in b'.queue && b'.accepted[b'.fed[i]] == o.task ensures b'.fed[i] < o.sub {
        assert o in b.queue;
      }
    }
  }

  lemma BufferInOrder(b: Box, task: string, key: Key)
    requires BoxInv(b) && InOrder(b) && forall s :: s in b.queue ==> Before(s.key, key)
    ensures InOrder(b.(queue := b.queue + {Signal(key, task, |b.accepted|)}, accepted := b.accepted + [task]))
  {
  }

  lemma GuardedKeeps(b: Box, e: Event, b': Box)
    requires BoxInv(b) && InOrder(b) && Step(b, e, b') && Guarded(b, e) && KeyGrows(b, e)
    ensures InOrder(b')
  {
    match e
    case EvDeliver(task, key) =>
      if b.status.Running? {
        if ArmedFor(b, task) && !Leased(b) { AnsweredInOrder(b); } else { BufferInOrder(b, task, key); }
      }
    case EvResolve(token) => if Resolvable(b, token) { AnsweredInOrder(b); }
    case EvArm(task, token, wakeAt) =>
      if Queued(b, task) {
        var s :| s in b.queue && Oldest(b, task, s) && b' == Popped(b, s);
        PopInOrder(b, task, s);
      }
    case _ =>
  }

  predicate KeysGrow(boxes: seq<Box>, events: seq<Event>) {
    Run(boxes, events) && forall i :: 0 <= i < |events| ==> KeyGrows(boxes[i], events[i])
  }

  predicate AllGuarded(boxes: seq<Box>, events: seq<Event>, n: nat)
    requires n <= |events| < |boxes|
  {
    forall i :: 0 <= i < n ==> Guarded(boxes[i], events[i])
  }

  lemma {:induction false} GuardedInOrder(boxes: seq<Box>, events: seq<Event>, i: nat)
    requires KeysGrow(boxes, events) && i < |boxes| && AllGuarded(boxes, events, i)
    ensures InOrder(boxes[i])
  {
    hide BoxInv, InOrder, Step, Guarded, KeyGrows;
    if i == 0 {
      StartsInOrder(boxes[0]);
    } else {
      GuardedInOrder(boxes, events, i - 1);
      RunHolds(boxes, events, i - 1);
      assert Step(boxes[i - 1], events[i - 1], boxes[i]) && Guarded(boxes[i - 1], events[i - 1]) && KeyGrows(boxes[i - 1], events[i - 1]);
      GuardedKeeps(boxes[i - 1], events[i - 1], boxes[i]);
    }
  }

  lemma StartsInOrder(b: Box)
    requires Initial(b)
    ensures InOrder(b)
  {
  }

  // For any two results accepted for one task, the later one reaches the row only after the
  // earlier one.
  predicate Served(b: Box) {
    forall x: nat, y: nat :: x < y < |b.accepted| && b.accepted[x] == b.accepted[y] && y in b.fed ==> FedBefore(b, x, y)
  }

  predicate FedBefore(b: Box, x: nat, y: nat) {
    x in b.fed && forall a, c :: 0 <= a < |b.fed| && 0 <= c < |b.fed| && b.fed[a] == x && b.fed[c] == y ==> a < c
  }

  // First come, first served, on a whole run: exactly when every direct answer found nothing
  // buffered for its task.
  lemma FirstComeFirstServed(boxes: seq<Box>, events: seq<Event>)
    requires KeysGrow(boxes, events)
    ensures (forall i :: 0 <= i < |boxes| ==> Served(boxes[i])) <==> AllGuarded(boxes, events, |events|)
  {
    hide BoxInv, InOrder, Step, Guarded, KeyGrows, Served;
    if AllGuarded(boxes, events, |events|) {
      forall i | 0 <= i < |boxes| ensures Served(boxes[i]) {
        GuardedInOrder(boxes, events, i);
        InOrderServes(boxes, events, i);
      }
    }
    if forall i :: 0 <= i < |boxes| ==> Served(boxes[i]) {
      forall i | 0 <= i < |events| ensures Guarded(boxes[i], events[i]) {
        if !Guarded(boxes[i], events[i]) { UnguardedOvertakes(boxes, events, i); }
      }
    }
  }

  lemma InOrderServes(boxes: seq<Box>, events: seq<Event>, i: nat)
    requires Run(boxes, events) && i < |boxes| && InOrder(boxes[i])
    ensures Served(boxes[i])
  {
    var b := boxes[i];
    RunHolds(boxes, events, i);
    forall x: nat, y: nat | x < y < |b.accepted| && b.accepted[x] == b.accepted[y] && y in b.fed ensures FedBefore(b, x, y) {
      FedHolds(boxes, events, i, x);
    }
  }

  // A direct answer past a buffered result reaches the row first.
  lemma UnguardedOvertakes(boxes: seq<Box>, events: seq<Event>, i: nat)
    requires Run(boxes, events) && i < |events| && !Guarded(boxes[i], events[i])
    ensures !Served(boxes[i + 1])
  {
    var b, b' := boxes[i], boxes[i + 1];
    assert Step(b, events[i], b');
    RunHolds(boxes, events, i);
    var s :| s in b.queue && s.task == b.task;
    assert b' == Answered(b) && s.sub < |b.accepted|;
    assert InQueue(b, s.sub);
    FedOnce(boxes, events, i, s.sub);
    assert b'.fed[|b.fed|] == |b.accepted| && !FedBefore(b', s.sub, |b.accepted|);
  }

  // What is still buffered has not reached the row.
  lemma {:induction false} FedOnce(boxes: seq<Box>, events: seq<Event>, i: nat, x: nat)
    requires Run(boxes, events) && i < |boxes|
    ensures InQueue(boxes[i], x) ==> x !in boxes[i].fed
    ensures x in boxes[i].fed ==> x < |boxes[i].accepted|
  {
    if i > 0 {
      FedOnce(boxes, events, i - 1, x);
      RunHolds(boxes, events, i - 1);
      var b, e, b' := boxes[i - 1], events[i - 1], boxes[i];
      assert Step(b, e, b');
      if s :| s in b'.queue && s.sub == x {
        if s in b.queue { assert InQueue(b, x); }
      }
    }
  }

  // A run in which no crash strikes while the row is parked meets the guard: a parked row nobody
  // holds has nothing buffered for its task.
  predicate NothingBehind(b: Box) {
    b.wait.External? ==> b.copy.Some? || (b.lease.None? && !Queued(b, b.task))
  }

  lemma {:induction false} CalmIsGuarded(boxes: seq<Box>, events: seq<Event>, n: nat)
    requires Run(boxes, events) && n <= |events|
    requires forall i :: 0 <= i < |events| && events[i].EvCrash? ==> !boxes[i].wait.External?
    ensures AllGuarded(boxes, events, n) && NothingBehind(boxes[n])
  {
    if n > 0 {
      CalmIsGuarded(boxes, events, n - 1);
      RunHolds(boxes, events, n - 1);
      var b, e, b' := boxes[n - 1], events[n - 1], boxes[n];
      assert Step(b, e, b');
      NothingSlipsBehind(b, e, b');
    }
  }

  lemma NothingSlipsBehind(b: Box, e: Event, b': Box)
    requires BoxInv(b) && NothingBehind(b) && Step(b, e, b') && (e.EvCrash? ==> !b.wait.External?)
    ensures NothingBehind(b') && Guarded(b, e)
  {
    match e
    case EvDeliver(task, key) =>
      if b.status.Running? && !(ArmedFor(b, task) && !Leased(b)) && b.wait.External? && b.copy.None? { assert b.task != task; }
    case EvArm(task, token, wakeAt) =>
      if Queued(b, task) { var s :| s in b.queue && Oldest(b, task, s) && b' == Popped(b, s); }
    case _ =>
  }

  // What is accepted has reached the row or is still buffered.
  lemma {:induction false} FedHolds(boxes: seq<Box>, events: seq<Event>, i: nat, x: nat)
    requires Run(boxes, events) && i < |boxes|
    ensures x < |boxes[i].accepted| ==> x in boxes[i].fed || InQueue(boxes[i], x)
  {
    if i > 0 {
      FedHolds(boxes, events, i - 1, x);
      var b, e, b' := boxes[i - 1], events[i - 1], boxes[i];
      assert Step(b, e, b');
      if x < |b.accepted| && x !in b.fed {
        var s :| s in b.queue && s.sub == x;
        if s in b'.queue { assert InQueue(b', x); }
      } else if x == |b.accepted| && x < |b'.accepted| && x !in b'.fed {
        assert Signal(e.key, e.task, x) in b'.queue;
      }
    }
  }

  // After a crash in a timeout claim, a direct delivery overtakes what was buffered during it.
  const FRESH: Box := Box(Running, NoWait, "t", None, None, None, None, 0, {}, None, [], [], [], {}, [])
  const PARKED: Box := FRESH.(wait := External, wakeAt := Some(5), token := Some("k"), minted := {"k"})
  const TIMED_OUT: Box := PARKED.(now := 5, lease := Some(15), copy := Some(Copy("t", External, Some("k"), None, None)))
  const BEHIND: Signal := Signal(Key(5, 0), "t", 0)
  const BUFFERED: Box := TIMED_OUT.(queue := {BEHIND}, accepted := ["t"])
  const CRASHED: Box := BUFFERED.(copy := None)
  const OVERTAKING: Box := CRASHED.(now := 15)

  lemma OvertakenAfterCrash() returns (boxes: seq<Box>, events: seq<Event>)
    ensures Run(boxes, events)
    ensures var b := boxes[|boxes| - 1]; b.accepted == ["t", "t"] && b.fed == [1] && InQueue(b, 0)
  {
    hide Step;
    var claimed := FRESH.(lease := Some(10), copy := Some(Copy("t", NoWait, None, None, None)));
    boxes := [FRESH, claimed, PARKED, PARKED.(now := 5), TIMED_OUT, BUFFERED, CRASHED, OVERTAKING, Answered(OVERTAKING)];
    events := [EvClaim(10), EvArm("t", "k", Some(5)), EvTick(5, None), EvClaim(10), EvDeliver("t", Key(5, 0)), EvCrash,
               EvTick(15, Some(15)), EvDeliver("t", Key(15, 1))];
    UntilTimeout(claimed);
    UntilOvertaken();
    assert BEHIND in Answered(OVERTAKING).queue;
    assert Answered(OVERTAKING).accepted == ["t", "t"] && Answered(OVERTAKING).fed == [1];
  }

  lemma UntilTimeout(claimed: Box)
    requires claimed == FRESH.(lease := Some(10), copy := Some(Copy("t", NoWait, None, None, None)))
    ensures Step(FRESH, EvClaim(10), claimed) && Step(claimed, EvArm("t", "k", Some(5)), PARKED)
    ensures Step(PARKED, EvTick(5, None), PARKED.(now := 5)) && Step(PARKED.(now := 5), EvClaim(10), TIMED_OUT)
  {
    assert FRESH.minted + {"k"} == {"k"};
  }

  lemma UntilOvertaken()
    ensures Step(TIMED_OUT, EvDeliver("t", Key(5, 0)), BUFFERED) && Step(BUFFERED, EvCrash, CRASHED)
    ensures Step(CRASHED, EvTick(15, Some(15)), OVERTAKING) && Step(OVERTAKING, EvDeliver("t", Key(15, 1)), Answered(OVERTAKING))
  {
    assert TIMED_OUT.queue + {BEHIND} == {BEHIND} && TIMED_OUT.accepted + ["t"] == ["t"];
  }

  // --- the transactions ---

  class ExternalStore {
    var box: Box

    // PopOldestSignal inside the arm transaction, or the row parked and released.
    method ArmExternalOrConsumeSignal(task: string, token: string, wakeAt: Option<int>) returns (consumed: Option<nat>)
      requires BoxInv(box)
      requires box.copy.Some? && box.copy.value.wait.NoWait? && box.copy.value.result.None? && box.copy.value.taken.None?
      requires token !in box.minted
      modifies this
      ensures Arm(old(box), task, token, wakeAt, box) && BoxInv(box)
      ensures consumed.Some? <==> Queued(old(box), task)
      ensures consumed.Some? ==> box.result == consumed && box.lease == old(box).lease
      ensures consumed.None? ==> box.wait.External? && box.token == Some(token) && box.lease.None?
    {
      var popped := PopOldest(task);
      if popped.Some? {
        PopKeeps(box, task, popped.value, Popped(box, popped.value));
        box := Popped(box, popped.value);
        return Some(popped.value.sub);
      }
      ghost var before := box;
      box := box.(task := task, wait := External, wakeAt := wakeAt, token := Some(token), result := None,
                  minted := box.minted + {token}, lease := None, copy := None,
                  status := if box.status.Cancelling? then Running else box.status);
      StepKeeps(before, EvArm(task, token, wakeAt), box);
      return None;
    }

    // The row the DELETE picks: first by (created_at, id) among the task's signals.
    method PopOldest(task: string) returns (s: Option<Signal>)
      requires QueueHolds(box)
      ensures s.Some? <==> Queued(box, task)
      ensures s.Some? ==> Oldest(box, task, s.value)
    {
      s := None;
      var todo := box.queue;
      while todo != {}
        invariant todo <= box.queue
        invariant s.None? ==> forall o :: o in box.queue - todo ==> o.task != task
        invariant s.Some? ==> s.value in box.queue - todo && s.value.task == task
        invariant s.Some? ==> forall o :: o in box.queue - todo && o.task == task && o != s.value ==> Before(s.value.key, o.key)
        decreases |todo|
      {
        var o :| o in todo;
        todo := todo - {o};
        if o.task == task && (s.None? || Before(o.key, s.value.key)) { s := Some(o); }
      }
    }

    // Some(true) answered at once, Some(false) buffered, None refused.
    method DeliverSignal(task: string, key: Key) returns (delivered: Option<bool>)
      requires BoxInv(box) && FreshKey(box, key)
      modifies this
      ensures Deliver(old(box), task, key, box) && BoxInv(box)
      ensures delivered.Some? <==> old(box).status.Running?
      ensures delivered == Some(true) ==> Pending(box, |old(box).accepted|)
      ensures delivered == Some(false) ==> InQueue(box, |old(box).accepted|)
    {
      ghost var before := box;
      if box.status != Running { return None; }
      var armed := box.wait == External && box.task == task;
      var liveLeased := box.lease.Some? && box.lease.value > box.now;
      if armed && !liveLeased {
        box := Answered(box);
        StepKeeps(before, EvDeliver(task, key), box);
        return Some(true);
      }
      var s := Signal(key, task, |box.accepted|);
      box := box.(queue := box.queue + {s}, accepted := box.accepted + [task]);
      assert s in box.queue;
      StepKeeps(before, EvDeliver(task, key), box);
      return Some(false);
    }

    method ResolveExternalTask(token: string) returns (r: Result<()>)
      requires BoxInv(box)
      modifies this
      ensures Resolve(old(box), token, box) && BoxInv(box)
      ensures r.Ok? <==> Resolvable(old(box), token)
      ensures r.Err? ==> box == old(box)
    {
      if box.status != Running || box.wait != External { return Err("task is not waiting for an external result"); }
      if box.lease.Some? && box.lease.value > box.now { return Err("external task is being processed; try again"); }
      if box.token != Some(token) { return Err("token does not match the waiting task"); }
      ghost var before := box;
      box := Answered(box);
      StepKeeps(before, EvResolve(token), box);
      return Ok(());
    }
  }
}
