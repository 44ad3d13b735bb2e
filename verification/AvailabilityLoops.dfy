/**
 computeContextSets as it is coded: predecessor lists, four fixpoint loops over boolean
 tables, and the sets read off them. Each loop is proved to end in a table whose every entry is
 justified by runs, one way by the equations it solves and the other by witnesses that the
 loop's own steps build up; reachability is the search of the same graph from the start task.
 */
module AvailabilityLoops {
  import opened Availability

  // --- the predecessor graph ---

  // The last task with that id, as the id -> index map ends up.
  function IndexOf(tasks: seq<Task>, id: string): int {
    if tasks == [] then -1
    else if tasks[|tasks| - 1].id == id then |tasks| - 1
    else IndexOf(tasks[..|tasks| - 1], id)
  }

  // The routes out of task i, case by case.
  predicate NormalRoute(tasks: seq<Task>, i: nat, t: nat)
    requires i < |tasks|
  {
    || (exists c :: c in tasks[i].cases && c.ToTask? && IndexOf(tasks, c.id) == t)
    || (t == i + 1 && t < |tasks| && (Next in tasks[i].cases || tasks[i].cases == []))
  }

  predicate RoutedBy(tasks: seq<Task>, cases: seq<Goto>, i: nat, t: nat) {
    (exists c :: c in cases && c.ToTask? && IndexOf(tasks, c.id) == t) || (t == i + 1 && Next in cases)
  }

  predicate ErrorRoute(tasks: seq<Task>, i: nat, t: nat)
    requires i < |tasks|
  {
    exists c :: c in tasks[i].onError && c.ToTask? && IndexOf(tasks, c.id) == t
  }

  predicate Route(tasks: seq<Task>, e: PredEdge, t: nat) {
    match e
    case Start => t == 0
    case From(i, err) => i < |tasks| && if err then ErrorRoute(tasks, i, t) else NormalRoute(tasks, i, t)
  }

  ghost predicate PredsOf(tasks: seq<Task>, preds: Preds) {
    |preds| == |tasks| && forall t, e :: 0 <= t < |preds| ==> (e in preds[t] <==> Route(tasks, e, t))
  }

  // The routes into task t that come from the first n tasks, in one fixed order.
  ghost function Incoming(tasks: seq<Task>, t: nat, n: nat): (es: seq<PredEdge>)
    requires n <= |tasks|
    ensures forall e :: e in es <==> Route(tasks, e, t) && (e.Start? || e.idx < n)
  {
    if n == 0 then (if t == 0 then [Start] else [])
    else
      Incoming(tasks, t, n - 1)
      + (if NormalRoute(tasks, n - 1, t) then [From(n - 1, false)] else [])
      + (if ErrorRoute(tasks, n - 1, t) then [From(n - 1, true)] else [])
  }

  // The task graph whose runs the analysis is about; the lists the code builds may be in another
  // order and hold repeats.
  ghost function Graph(tasks: seq<Task>): (preds: Preds)
    ensures PredsOf(tasks, preds)
  {
    seq(|tasks|, t requires 0 <= t < |tasks| => Incoming(tasks, t, |tasks|))
  }

  ghost predicate SameEdges(a: Preds, b: Preds) {
    |a| == |b| && forall t, e :: 0 <= t < |a| ==> (e in a[t] <==> e in b[t])
  }

  lemma {:induction false} SameRuns(a: Preds, b: Preds, p: seq<Visit>, i: nat)
    requires SameEdges(a, b) && Run(a, p, i)
    ensures Run(b, p, i)
    decreases |p|
  {
    if p != [] { SameRuns(a, b, p[..|p| - 1], p[|p| - 1].task); }
  }

  lemma {:induction false} SameWalks(a: Preds, b: Preds, i: nat, n: nat)
    requires SameEdges(a, b) && NormalWalk(a, i, n)
    ensures NormalWalk(b, i, n)
    decreases n
  {
    if n > 0 {
      var e :| e in a[i] && (e.Start? || (!e.isErr && NormalWalk(a, e.idx, n - 1)));
      if e.From? { SameWalks(a, b, e.idx, n - 1); }
      assert e in b[i];
    }
  }

  lemma SameReach(a: Preds, b: Preds)
    requires SameEdges(a, b) && AllReachable(a)
    ensures AllReachable(b)
  {
    forall i | 0 <= i < |b| ensures Reachable(b, i) {
      assert Reachable(a, i);
      var p :| Run(a, p, i);
      SameRuns(a, b, p, i);
    }
  }

  lemma {:induction false} IndexInRange(tasks: seq<Task>, id: string)
    ensures -1 <= IndexOf(tasks, id) < |tasks|
    ensures IndexOf(tasks, id) >= 0 ==> tasks[IndexOf(tasks, id)].id == id
    ensures IndexOf(tasks, id) < 0 ==> forall i :: 0 <= i < |tasks| ==> tasks[i].id != id
  {
    if tasks != [] { IndexInRange(tasks[..|tasks| - 1], id); }
  }

  method IndexMap(tasks: seq<Task>) returns (idx: map<string, nat>)
    ensures forall id :: id in idx <==> IndexOf(tasks, id) >= 0
    ensures forall id :: id in idx ==> idx[id] == IndexOf(tasks, id)
  {
    idx := map[];
    for i := 0 to |tasks|
      invariant forall id :: id in idx <==> IndexOf(tasks[..i], id) >= 0
      invariant forall id :: id in idx ==> idx[id] == IndexOf(tasks[..i], id)
    {
      assert tasks[..i + 1][..i] == tasks[..i];
      idx := idx[tasks[i].id := i];
    }
    assert tasks[..|tasks|] == tasks;
  }

  // Appends e to the list of task t, if there is such a task.
  function AddPred(preds: Preds, t: int, e: PredEdge): (r: Preds)
    ensures |r| == |preds|
    ensures forall k, f :: 0 <= k < |r| ==> (f in r[k] <==> f in preds[k] || (k == t && f == e))
  {
    if 0 <= t < |preds| then preds[t := preds[t] + [e]] else preds
  }

  method BuildPreds(tasks: seq<Task>) returns (preds: Preds)
    requires tasks != []
    ensures PredsOf(tasks, preds) && Wired(preds)
  {
    var n := |tasks|;
    var idx := IndexMap(tasks);
    preds := AddPred(seq(n, k => []), 0, Start);
    for i := 0 to n
      invariant |preds| == n
      invariant forall t, e :: 0 <= t < n ==>
        (e in preds[t] <==> Route(tasks, e, t) && (e.Start? || e.idx < i))
    {
      ghost var before := preds;
      preds := AddSwitch(tasks, idx, preds, i);
      preds := AddHandlers(tasks, idx, preds, i);
      forall t, e | 0 <= t < n ensures e in preds[t] <==> Route(tasks, e, t) && (e.Start? || e.idx < i + 1) {
        assert e in preds[t] <==>
          e in before[t] || (e == From(i, false) && NormalRoute(tasks, i, t)) || (e == From(i, true) && ErrorRoute(tasks, i, t));
      }
    }
  }

  method AddSwitch(tasks: seq<Task>, idx: map<string, nat>, preds: Preds, i: nat) returns (r: Preds)
    requires i < |tasks| == |preds|
    requires forall id :: id in idx <==> IndexOf(tasks, id) >= 0
    requires forall id :: id in idx ==> idx[id] == IndexOf(tasks, id)
    ensures |r| == |preds|
    ensures forall t, e :: 0 <= t < |r| ==>
      (e in r[t] <==> e in preds[t] || (e == From(i, false) && NormalRoute(tasks, i, t)))
  {
    r := preds;
    var addedNext := false;
    var cases := tasks[i].cases;
    for k := 0 to |cases|
      invariant |r| == |preds|
      invariant addedNext ==> Next in cases[..k]
      invariant Next in cases[..k] && i + 1 < |tasks| ==> addedNext
      invariant forall t, e :: 0 <= t < |r| ==>
        (e in r[t] <==> e in preds[t] || (e == From(i, false) && RoutedBy(tasks, cases[..k], i, t)))
    {
      var c := cases[k];
      assert cases[..k + 1] == cases[..k] + [c];
      if c.ToTask? {
        if c.id in idx { r := AddPred(r, idx[c.id], From(i, false)); }
      } else if c == Next && !addedNext && i + 1 < |tasks| {
        r := AddPred(r, i + 1, From(i, false));
        addedNext := true;
      }
    }
    assert cases[..|cases|] == cases;
    if cases == [] && i + 1 < |tasks| { r := AddPred(r, i + 1, From(i, false)); }
  }

  method AddHandlers(tasks: seq<Task>, idx: map<string, nat>, preds: Preds, i: nat) returns (r: Preds)
    requires i < |tasks| == |preds|
    requires forall id :: id in idx <==> IndexOf(tasks, id) >= 0
    requires forall id :: id in idx ==> idx[id] == IndexOf(tasks, id)
    ensures |r| == |preds|
    ensures forall t, e :: 0 <= t < |r| ==>
      (e in r[t] <==> e in preds[t] || (e == From(i, true) && ErrorRoute(tasks, i, t)))
  {
    r := preds;
    var rules := tasks[i].onError;
    for k := 0 to |rules|
      invariant |r| == |preds|
      invariant forall t, e :: 0 <= t < |r| ==>
        (e in r[t] <==> e in preds[t] || (e == From(i, true) && exists c :: c in rules[..k] && c.ToTask? && IndexOf(tasks, c.id) == t))
    {
      var c := rules[k];
      assert rules[..k + 1] == rules[..k] + [c];
      if c.ToTask? && c.id in idx { r := AddPred(r, idx[c.id], From(i, true)); }
    }
    assert rules[..|rules|] == rules;
  }

  // --- counting set bits, for termination ---

  function Bits(row: seq<bool>): nat {
    if row == [] then 0 else Bits(row[..|row| - 1]) + if row[|row| - 1] then 1 else 0
  }

  function AllBits(m: Matrix): nat {
    if m == [] then 0 else AllBits(m[..|m| - 1]) + Bits(m[|m| - 1])
  }

  predicate Below(a: seq<bool>, b: seq<bool>) {
    |a| == |b| && forall j :: 0 <= j < |a| ==> a[j] ==> b[j]
  }

  lemma {:induction false} BitsBelow(a: seq<bool>, b: seq<bool>)
    requires Below(a, b)
    ensures Bits(a) <= Bits(b) <= |b|
    ensures a != b ==> Bits(a) < Bits(b)
  {
    if a != [] {
      var n := |a| - 1;
      BitsBelow(a[..n], b[..n]);
      assert a == a[..n] + [a[n]] && b == b[..n] + [b[n]];
    }
  }

  lemma {:induction false} RowBits(m: Matrix, i: nat, row: seq<bool>)
    requires i < |m|
    ensures AllBits(m[i := row]) + Bits(m[i]) == AllBits(m) + Bits(row)
  {
    var n := |m| - 1;
    if i < n {
      RowBits(m[..n], i, row);
      assert m[i := row][..n] == m[..n][i := row];
    } else {
      assert m[i := row][..n] == m[..n];
    }
  }

  lemma {:induction false} BitsAtMost(m: Matrix, n: nat)
    requires forall i :: 0 <= i < |m| ==> |m[i]| == n
    ensures AllBits(m) <= |m| * n
  {
    if m != [] {
      var k := |m| - 1;
      BitsAtMost(m[..k], n);
      assert Bits(m[k]) <= n by { BitsBelow(m[k], m[k]); }
      assert (k + 1) * n == k * n + n;
    }
  }

  lemma Snoc<T>(s: seq<T>, k: nat)
    requires k < |s|
    ensures forall x :: x in s[..k + 1] <==> x in s[..k] || x == s[k]
  {
    assert s[..k + 1] == s[..k] + [s[k]];
  }

  // --- the must loop ---

  // The row the loop body computes for task i: the edges are met one by one.
  method MustRow(preds: Preds, m: Matrix, has: seq<bool>, i: nat) returns (inn: seq<bool>)
    requires |preds| == |has| && Wired(preds) && Square(m, |has|) && i < |has|
    ensures |inn| == |has| && forall j :: 0 <= j < |has| ==> inn[j] == MustIn(preds, m, has, i, j)
  {
    var n := |has|;
    inn := seq(n, j => true);
    for k := 0 to |preds[i]|
      invariant |inn| == n
      invariant forall j :: 0 <= j < n ==> (inn[j] <==> forall e :: e in preds[i][..k] ==> MustCarry(m, has, e, j))
    {
      var e := preds[i][k];
      assert preds[i][..k + 1] == preds[i][..k] + [e];
      assert e in preds[i];
      if e.Start? {
        inn := seq(n, j => false);
        assert forall j :: 0 <= j < n ==> !MustCarry(m, has, Start, j);
        return;
      }
      var src := m[e.idx];
      if e.isErr && has[e.idx] { src := src[e.idx := false]; }
      assert forall j :: 0 <= j < n ==> src[j] == MustCarry(m, has, e, j);
      Snoc(preds[i], k);
      inn := seq(n, j requires 0 <= j < n => inn[j] && src[j]);
    }
    assert preds[i][..|preds[i]|] == preds[i];
    if preds[i] == [] { inn := seq(n, j => false); }
  }

  ghost predicate MustShrinks(preds: Preds, m: Matrix, has: seq<bool>)
    requires |preds| == |has| && Wired(preds) && Square(m, |has|)
  {
    forall i, j :: 0 <= i < |has| && 0 <= j < |has| && MustOut(preds, m, has, i, j) ==> m[i][j]
  }

  method MustMatrix(preds: Preds, has: seq<bool>) returns (m: Matrix)
    requires |preds| == |has| && Wired(preds)
    ensures Square(m, |has|) && MustFixed(preds, m, has)
    ensures AllReachable(preds) ==> Witnessed(preds, m, has)
  {
    var n := |has|;
    m := seq(n, i => seq(n, j => true));
    var changed := true;
    while changed
      invariant Square(m, n) && MustShrinks(preds, m, has) && (AllReachable(preds) ==> Witnessed(preds, m, has))
      invariant !changed ==> MustFixed(preds, m, has)
      decreases AllBits(m), if changed then 1 else 0
    {
      ghost var before := m;
      changed := false;
      for i := 0 to n
        invariant Square(m, n) && MustShrinks(preds, m, has) && (AllReachable(preds) ==> Witnessed(preds, m, has))
        invariant changed ==> AllBits(m) < AllBits(before)
        invariant !changed ==> m == before
        invariant !changed ==> forall i', j :: 0 <= i' < i && 0 <= j < n ==> m[i'][j] == MustOut(preds, m, has, i', j)
      {
        var inn := MustRow(preds, m, has, i);
        var out := inn;
        if has[i] { out := out[i := true]; }
        if m[i] != out {
          MustUpdate(preds, m, has, i, out);
          m := m[i := out];
          changed := true;
        }
      }
    }
  }

  lemma MustUpdate(preds: Preds, m: Matrix, has: seq<bool>, i: nat, out: seq<bool>)
    requires |preds| == |has| && Wired(preds) && Square(m, |has|)
    requires MustShrinks(preds, m, has)
    requires i < |has| && |out| == |has| && forall j :: 0 <= j < |has| ==> out[j] == MustOut(preds, m, has, i, j)
    requires m[i] != out
    ensures Square(m[i := out], |has|) && MustShrinks(preds, m[i := out], has)
    ensures AllReachable(preds) && Witnessed(preds, m, has) ==> Witnessed(preds, m[i := out], has)
    ensures AllBits(m[i := out]) < AllBits(m)
  {
    var m' := m[i := out];
    BitsBelow(out, m[i]);
    RowBits(m, i, out);
    forall i', j | 0 <= i' < |has| && 0 <= j < |has| && MustOut(preds, m', has, i', j) ensures m'[i'][j] {
      forall e | e in preds[i'] && MustCarry(m', has, e, j) ensures MustCarry(m, has, e, j) { }
      assert MustIn(preds, m', has, i', j) ==> MustIn(preds, m, has, i', j);
    }
    if AllReachable(preds) && Witnessed(preds, m, has) {
      forall i', j | 0 <= i' < |has| && 0 <= j < |has| && !m'[i'][j] ensures Missing(preds, has, i', j) {
        if i' == i {
          var p := NotRequiredIsMissing(preds, m, has, i, j);
        } else {
          assert !m[i'][j];
        }
      }
    }
  }

  // --- the may loop ---

  method MayRow(preds: Preds, m: Matrix, has: seq<bool>, i: nat) returns (inn: seq<bool>)
    requires |preds| == |has| && Wired(preds) && Square(m, |has|) && i < |has|
    ensures |inn| == |has| && forall j :: 0 <= j < |has| ==> inn[j] == MayIn(preds, m, has, i, j)
  {
    var n := |has|;
    inn := seq(n, j => false);
    for k := 0 to |preds[i]|
      invariant |inn| == n
      invariant forall j :: 0 <= j < n ==> (inn[j] <==> exists e :: e in preds[i][..k] && MustCarry(m, has, e, j))
    {
      var e := preds[i][k];
      assert preds[i][..k + 1] == preds[i][..k] + [e];
      assert e in preds[i];
      if e.From? {
        var src := m[e.idx];
        if e.isErr && has[e.idx] { src := src[e.idx := false]; }
        assert forall j :: 0 <= j < n ==> src[j] == MustCarry(m, has, e, j);
        inn := seq(n, j requires 0 <= j < n => inn[j] || src[j]);
      }
      Snoc(preds[i], k);
    }
    assert preds[i][..|preds[i]|] == preds[i];
  }

  ghost predicate MayGrows(preds: Preds, m: Matrix, has: seq<bool>)
    requires |preds| == |has| && Wired(preds) && Square(m, |has|)
  {
    forall i, j :: 0 <= i < |has| && 0 <= j < |has| && m[i][j] ==> MayOut(preds, m, has, i, j)
  }

  method MayMatrix(preds: Preds, has: seq<bool>) returns (m: Matrix)
    requires |preds| == |has| && Wired(preds)
    ensures Square(m, |has|) && MayFixed(preds, m, has)
    ensures AllReachable(preds) ==> Justified(preds, m, has)
  {
    var n := |has|;
    m := seq(n, i => seq(n, j => false));
    var changed := true;
    while changed
      invariant Square(m, n) && MayGrows(preds, m, has) && (AllReachable(preds) ==> Justified(preds, m, has))
      invariant !changed ==> MayFixed(preds, m, has)
      decreases n * n - AllBits(m), if changed then 1 else 0
    {
      ghost var before := m;
      changed := false;
      for i := 0 to n
        invariant Square(m, n) && MayGrows(preds, m, has) && (AllReachable(preds) ==> Justified(preds, m, has))
        invariant changed ==> AllBits(before) < AllBits(m)
        invariant !changed ==> m == before
        invariant !changed ==> forall i', j :: 0 <= i' < i && 0 <= j < n ==> m[i'][j] == MayOut(preds, m, has, i', j)
      {
        var inn := MayRow(preds, m, has, i);
        var out := inn;
        if has[i] { out := out[i := true]; }
        if m[i] != out {
          MayUpdate(preds, m, has, i, out);
          m := m[i := out];
          changed := true;
        }
      }
      BitsAtMost(m, n);
    }
  }

  lemma MayUpdate(preds: Preds, m: Matrix, has: seq<bool>, i: nat, out: seq<bool>)
    requires |preds| == |has| && Wired(preds) && Square(m, |has|)
    requires MayGrows(preds, m, has)
    requires i < |has| && |out| == |has| && forall j :: 0 <= j < |has| ==> out[j] == MayOut(preds, m, has, i, j)
    requires m[i] != out
    ensures Square(m[i := out], |has|) && MayGrows(preds, m[i := out], has)
    ensures AllReachable(preds) && Justified(preds, m, has) ==> Justified(preds, m[i := out], has)
    ensures AllBits(m) < AllBits(m[i := out])
  {
    var m' := m[i := out];
    BitsBelow(m[i], out);
    RowBits(m, i, out);
    forall i', j | 0 <= i' < |has| && 0 <= j < |has| && m'[i'][j] ensures MayOut(preds, m', has, i', j) {
      if MayIn(preds, m, has, i', j) {
        var e :| e in preds[i'] && MustCarry(m, has, e, j);
        assert MustCarry(m', has, e, j);
      }
    }
    if AllReachable(preds) && Justified(preds, m, has) {
      forall j | 0 <= j < |has| && out[j] ensures (i == j && has[i]) || MaybeKept(preds, has, i, j) {
        if MayIn(preds, m, has, i, j) {
          var e :| e in preds[i] && MustCarry(m, has, e, j);
          CarriedIsKept(preds, m, has, i, j, e);
        }
      }
    }
  }

  // --- the error loops ---

  method MustErrOf(preds: Preds, me: seq<bool>, i: nat) returns (val: bool)
    requires |me| == |preds| && Wired(preds) && i < |preds| && preds[i] != []
    ensures val == MustErrAt(preds, me, i)
  {
    val := true;
    for k := 0 to |preds[i]|
      invariant val <==> forall m :: 0 <= m < k ==> preds[i][m].From? && (preds[i][m].isErr || me[preds[i][m].idx])
    {
      var e := preds[i][k];
      assert e in preds[i];
      if e.Start? {
        val := false;
        break;
      }
      if !e.isErr { val := val && me[e.idx]; }
    }
    assert Start in preds[i] ==> !MustErrAt(preds, me, i);
  }

  method MustErrs(preds: Preds) returns (me: seq<bool>)
    requires Wired(preds)
    ensures |me| == |preds| && ErrGrounded(preds, me)
    ensures forall i :: 0 <= i < |preds| ==> me[i] == MustErrAt(preds, me, i)
  {
    var n := |preds|;
    me := seq(n, i => false);
    var changed := true;
    while changed
      invariant |me| == n && ErrGrounded(preds, me)
      invariant forall i :: 0 <= i < n && me[i] ==> MustErrAt(preds, me, i)
      invariant !changed ==> forall i :: 0 <= i < n ==> me[i] == MustErrAt(preds, me, i)
      decreases n - Bits(me), if changed then 1 else 0
    {
      ghost var before := me;
      changed := false;
      for i := 0 to n
        invariant |me| == n && ErrGrounded(preds, me)
        invariant forall i :: 0 <= i < n && me[i] ==> MustErrAt(preds, me, i)
        invariant changed ==> Bits(before) < Bits(me)
        invariant !changed ==> me == before && forall i' :: 0 <= i' < i ==> me[i'] == MustErrAt(preds, me, i')
      {
        if preds[i] != [] {
          var val := MustErrOf(preds, me, i);
          if me[i] != val {
            ErrStaysGrounded(preds, me, i);
            OneMoreBit(me, i);
            me := me[i := val];
            changed := true;
          }
        }
      }
      BitsBelow(me, me);
    }
  }

  lemma OneMoreBit(me: seq<bool>, i: nat)
    requires i < |me| && !me[i]
    ensures Bits(me) < Bits(me[i := true])
  {
    BitsBelow(me, me[i := true]);
  }

  method MayErrs(preds: Preds) returns (me: seq<bool>)
    requires Wired(preds)
    ensures |me| == |preds| && (AllReachable(preds) ==> ErrSeen(preds, me))
    ensures forall i :: 0 <= i < |preds| ==> me[i] == MayErrAt(preds, me, i)
  {
    var n := |preds|;
    me := seq(n, i => false);
    var changed := true;
    while changed
      invariant |me| == n && (AllReachable(preds) ==> ErrSeen(preds, me))
      invariant forall i :: 0 <= i < n && me[i] ==> MayErrAt(preds, me, i)
      invariant !changed ==> forall i :: 0 <= i < n ==> me[i] == MayErrAt(preds, me, i)
      decreases n - Bits(me), if changed then 1 else 0
    {
      ghost var before := me;
      changed := false;
      for i := 0 to n
        invariant |me| == n && (AllReachable(preds) ==> ErrSeen(preds, me))
        invariant forall i :: 0 <= i < n && me[i] ==> MayErrAt(preds, me, i)
        invariant changed ==> Bits(before) < Bits(me)
        invariant !changed ==> me == before && forall i' :: 0 <= i' < i ==> me[i'] == MayErrAt(preds, me, i')
      {
        var val := false;
        for k := 0 to |preds[i]|
          invariant val <==> exists e :: e in preds[i][..k] && e.From? && (e.isErr || me[e.idx])
        {
          var e := preds[i][k];
          assert preds[i][..k + 1] == preds[i][..k] + [e];
          assert e in preds[i];
          if e.From? && (e.isErr || me[e.idx]) { val := true; }
        }
        assert preds[i][..|preds[i]|] == preds[i];
        assert val == MayErrAt(preds, me, i);
        if me[i] != val {
          if AllReachable(preds) { ErrStaysSeen(preds, me, i); }
          OneMoreBit(me, i);
          me := me[i := val];
          changed := true;
        }
      }
      BitsBelow(me, me);
    }
  }

  // --- reachability ---

  predicate Closed(preds: Preds, seen: seq<bool>, k: nat)
    requires Wired(preds) && |seen| == |preds| && k <= |preds|
  {
    forall i, e: PredEdge :: 0 <= i < k && e in preds[i] && e.From? && seen[e.idx] ==> seen[i]
  }

  lemma ClosedStep(preds: Preds, seen: seq<bool>, i: nat)
    requires Wired(preds) && |seen| == |preds| && i < |preds|
    ensures Closed(preds, seen, 0)
    ensures Closed(preds, seen, i) && (seen[i] || !exists e :: e in preds[i] && e.From? && seen[e.idx]) ==> Closed(preds, seen, i + 1)
  {
  }

  // An edge into task i from a task seen before.
  method LeadsFromSeen(preds: Preds, seen: seq<bool>, i: nat) returns (found: bool)
    requires Wired(preds) && |seen| == |preds| && i < |preds|
    ensures found <==> exists e :: e in preds[i] && e.From? && seen[e.idx]
  {
    for k := 0 to |preds[i]|
      invariant forall e :: e in preds[i][..k] && e.From? ==> !seen[e.idx]
    {
      var e := preds[i][k];
      assert preds[i][..k + 1] == preds[i][..k] + [e];
      assert e in preds[i];
      if e.From? && seen[e.idx] { return true; }
    }
    assert preds[i][..|preds[i]|] == preds[i];
    return false;
  }

  lemma SeenIsReachable(preds: Preds, seen: seq<bool>, i: nat)
    requires Wired(preds) && |seen| == |preds| && i < |preds|
    requires forall t :: 0 <= t < |seen| && seen[t] ==> Reachable(preds, t)
    requires exists e :: e in preds[i] && e.From? && seen[e.idx]
    ensures Reachable(preds, i)
  {
    var e :| e in preds[i] && e.From? && seen[e.idx];
    assert Reachable(preds, e.idx);
    var r :| Run(preds, r, e.idx);
    RunExtends(preds, r, e.idx, e.isErr, i);
  }

  method CheckReachability(tasks: seq<Task>) returns (ok: bool)
    ensures ok <==> AllReachable(Graph(tasks))
  {
    if tasks == [] { return true; }
    var preds := BuildPreds(tasks);
    var n := |tasks|;
    var seen := seq(n, i => i == 0);
    assert Start in preds[0] && Run(preds, [], 0);
    assert Reachable(preds, 0);
    assert forall t :: 0 <= t < n && Start in preds[t] ==> t == 0;
    assert SameEdges(preds, Graph(tasks));
    hide Run, Reachable, AllReachable, Graph, PredsOf, SameEdges, Bits, Closed, Wired;
    var changed := true;
    while changed
      invariant |seen| == n && seen[0]
      invariant forall i :: 0 <= i < n && seen[i] ==> Reachable(preds, i)
      invariant !changed ==> Closed(preds, seen, n)
      decreases n - Bits(seen), if changed then 1 else 0
    {
      ghost var before := seen;
      changed := false;
      ClosedStep(preds, seen, 0);
      for i := 0 to n
        invariant |seen| == n && seen[0]
        invariant forall i :: 0 <= i < n && seen[i] ==> Reachable(preds, i)
        invariant changed ==> Bits(before) < Bits(seen)
        invariant !changed ==> seen == before
        invariant !changed ==> Closed(preds, seen, i)
      {
        if !seen[i] {
          var found := LeadsFromSeen(preds, seen, i);
          ClosedStep(preds, seen, i);
          if found {
            SeenIsReachable(preds, seen, i);
            OneMoreBit(seen, i);
            seen := seen[i := true];
            changed := true;
          }
        } else {
          ClosedStep(preds, seen, i);
        }
      }
      BitsBelow(seen, seen);
    }
    ok := forall i :: 0 <= i < n ==> seen[i];
    forall i | 0 <= i < n ensures seen[i] <==> Reachable(preds, i) {
      if Reachable(preds, i) { ReachableIsSeen(preds, seen, i); }
    }
    assert ok <==> AllReachable(preds) by { AllSeen(preds, seen); }
    SameReachBothWays(preds, Graph(tasks));
  }

  lemma SameReachBothWays(a: Preds, b: Preds)
    requires SameEdges(a, b)
    ensures AllReachable(a) <==> AllReachable(b)
  {
    hide AllReachable;
    if AllReachable(a) { SameReach(a, b); }
    if AllReachable(b) { SameReach(b, a); }
  }

  lemma {:induction false} RunIsSeen(preds: Preds, seen: seq<bool>, p: seq<Visit>, i: nat)
    requires Wired(preds) && |seen| == |preds| && |seen| > 0 && seen[0] && Run(preds, p, i)
    requires forall t :: 0 <= t < |preds| && Start in preds[t] ==> t == 0
    requires Closed(preds, seen, |preds|)
    ensures seen[i]
    decreases |p|
  {
    if p != [] {
      var v := p[|p| - 1];
      RunIsSeen(preds, seen, p[..|p| - 1], v.task);
      assert From(v.task, v.err) in preds[i];
    }
  }

  lemma ReachableIsSeen(preds: Preds, seen: seq<bool>, i: nat)
    requires Wired(preds) && |seen| == |preds| && |seen| > 0 && seen[0] && Reachable(preds, i)
    requires forall t :: 0 <= t < |preds| && Start in preds[t] ==> t == 0
    requires Closed(preds, seen, |preds|)
    ensures seen[i]
  {
    var p :| Run(preds, p, i);
    RunIsSeen(preds, seen, p, i);
  }

  lemma AllSeen(preds: Preds, seen: seq<bool>)
    requires |seen| == |preds| && forall i :: 0 <= i < |preds| ==> (seen[i] <==> Reachable(preds, i))
    ensures (forall i :: 0 <= i < |preds| ==> seen[i]) <==> AllReachable(preds)
  {
  }

  // --- the sets ---

  function Listed(m: map<string, seq<string>>, id: string): seq<string> {
    if id in m then m[id] else []
  }

  predicate DistinctIds(tasks: seq<Task>) {
    forall i, j :: 0 <= i < j < |tasks| ==> tasks[i].id != tasks[j].id
  }

  function Outputs(tasks: seq<Task>): (has: seq<bool>)
    ensures |has| == |tasks| && forall i :: 0 <= i < |has| ==> has[i] == tasks[i].hasOutput
  {
    seq(|tasks|, i requires 0 <= i < |tasks| => tasks[i].hasOutput)
  }

  // Names of the tasks whose bit is set.
  method Names(tasks: seq<Task>, row: seq<bool>) returns (ids: seq<string>)
    requires |row| == |tasks|
    ensures forall id :: id in ids <==> exists j :: 0 <= j < |tasks| && row[j] && tasks[j].id == id
  {
    ids := [];
    for j := 0 to |tasks|
      invariant forall id :: id in ids <==> exists k :: 0 <= k < j && row[k] && tasks[k].id == id
    {
      if row[j] { ids := ids + [tasks[j].id]; }
    }
  }

  method ByTask(tasks: seq<Task>, row: seq<bool>) returns (m: map<string, bool>)
    requires |row| == |tasks|
    ensures forall k :: 0 <= k < |tasks| ==> tasks[k].id in m
    ensures DistinctIds(tasks) ==> forall k :: 0 <= k < |tasks| ==> m[tasks[k].id] == row[k]
  {
    m := map[];
    for i := 0 to |tasks|
      invariant forall k :: 0 <= k < i ==> tasks[k].id in m
      invariant DistinctIds(tasks) ==> forall k :: 0 <= k < i ==> m[tasks[k].id] == row[k]
    {
      m := m[tasks[i].id := row[i]];
    }
  }

  method ReadSets(tasks: seq<Task>, preds: Preds, must: Matrix, may: Matrix, has: seq<bool>)
    returns (required: map<string, seq<string>>, optional: map<string, seq<string>>)
    requires |preds| == |has| == |tasks| && Wired(preds) && Square(must, |has|) && Square(may, |has|)
    ensures DistinctIds(tasks) ==> forall k :: 0 <= k < |tasks| ==> SetsFor(tasks, preds, must, may, has, required, optional, k)
  {
    hide SetsFor, MustIn, MayIn;
    required, optional := map[], map[];
    for i := 0 to |tasks|
      invariant forall id :: (id in required || id in optional) ==> exists k :: 0 <= k < i && tasks[k].id == id
      invariant DistinctIds(tasks) ==> forall k :: 0 <= k < i ==> SetsFor(tasks, preds, must, may, has, required, optional, k)
    {
      var id := tasks[i].id;
      var mustIn := MustRow(preds, must, has, i);
      var mayIn := MayRow(preds, may, has, i);
      var req := Names(tasks, mustIn);
      var opt := Names(tasks, seq(|tasks|, j requires 0 <= j < |tasks| => !mustIn[j] && mayIn[j]));
      ghost var r, o := required, optional;
      required := required[id := Listed(required, id) + req];
      optional := optional[id := Listed(optional, id) + opt];
      if DistinctIds(tasks) {
        forall k | 0 <= k < i ensures SetsFor(tasks, preds, must, may, has, required, optional, k) {
          assert tasks[k].id != id;
          SetsStay(tasks, preds, must, may, has, r, o, required, optional, k);
        }
        assert Listed(required, id) == req && Listed(optional, id) == opt;
        SetsRead(tasks, preds, must, may, has, required, optional, i, mustIn, mayIn, req, opt);
      }
    }
  }

  lemma SetsRead(tasks: seq<Task>, preds: Preds, must: Matrix, may: Matrix, has: seq<bool>,
      required: map<string, seq<string>>, optional: map<string, seq<string>>, i: nat,
      mustIn: seq<bool>, mayIn: seq<bool>, req: seq<string>, opt: seq<string>)
    requires |preds| == |has| == |tasks| == |mustIn| == |mayIn| && Wired(preds) && Square(must, |has|) && Square(may, |has|) && i < |tasks|
    requires forall j :: 0 <= j < |tasks| ==> mustIn[j] == MustIn(preds, must, has, i, j) && mayIn[j] == MayIn(preds, may, has, i, j)
    requires DistinctIds(tasks) && Listed(required, tasks[i].id) == req && Listed(optional, tasks[i].id) == opt
    requires forall id :: id in req <==> exists j :: 0 <= j < |tasks| && mustIn[j] && tasks[j].id == id
    requires forall id :: id in opt <==> exists j :: 0 <= j < |tasks| && !mustIn[j] && mayIn[j] && tasks[j].id == id
    ensures SetsFor(tasks, preds, must, may, has, required, optional, i)
  {
    hide MustIn, MayIn, Listed;
  }

  lemma SetsStay(tasks: seq<Task>, preds: Preds, must: Matrix, may: Matrix, has: seq<bool>,
      r: map<string, seq<string>>, o: map<string, seq<string>>, required: map<string, seq<string>>, optional: map<string, seq<string>>, k: nat)
    requires |preds| == |has| == |tasks| && Wired(preds) && Square(must, |has|) && Square(may, |has|) && k < |tasks|
    requires SetsFor(tasks, preds, must, may, has, r, o, k)
    requires Listed(r, tasks[k].id) == Listed(required, tasks[k].id) && Listed(o, tasks[k].id) == Listed(optional, tasks[k].id)
    ensures SetsFor(tasks, preds, must, may, has, required, optional, k)
  {
    hide MustIn, MayIn, Listed;
  }

  // Entries of tasks that share an id are appended to one another.
  method ComputeContextSets(tasks: seq<Task>) returns (
      required: map<string, seq<string>>, optional: map<string, seq<string>>,
      mustErr: map<string, bool>, mayErr: map<string, bool>)
    ensures DistinctIds(tasks) && AllReachable(Graph(tasks)) ==>
      forall i :: 0 <= i < |tasks| ==> Exact(tasks, Graph(tasks), required, optional, mustErr, mayErr, i)
    ensures tasks == [] ==> required == optional == map[] && mustErr == mayErr == map[]
  {
    hide AllReachable, MustFixed, MayFixed, Witnessed, Justified, ErrGrounded, ErrSeen, MustErrAt, MayErrAt, Exact, Graph;
    if tasks == [] { return map[], map[], map[], map[]; }
    var edges := BuildPreds(tasks);
    var n := |tasks|;
    var has := Outputs(tasks);
    var must := MustMatrix(edges, has);
    var may := MayMatrix(edges, has);
    var mustErrArr := MustErrs(edges);
    var mayErrArr := MayErrs(edges);
    required, optional := ReadSets(tasks, edges, must, may, has);
    mustErr := ByTask(tasks, mustErrArr);
    mayErr := ByTask(tasks, mayErrArr);
    if DistinctIds(tasks) && AllReachable(Graph(tasks)) {
      SameReach(Graph(tasks), edges);
      forall i | 0 <= i < n ensures Exact(tasks, Graph(tasks), required, optional, mustErr, mayErr, i) {
        SetsExact(tasks, edges, must, may, mustErrArr, mayErrArr, required, optional, mustErr, mayErr, i);
        SameExact(tasks, edges, Graph(tasks), required, optional, mustErr, mayErr, i);
      }
    }
  }

  // What the lists say about task i, in terms of runs.
  ghost predicate Exact(tasks: seq<Task>, preds: Preds, required: map<string, seq<string>>, optional: map<string, seq<string>>,
      mustErr: map<string, bool>, mayErr: map<string, bool>, i: nat)
    requires i < |tasks|
  {
    && (forall j :: 0 <= j < |tasks| ==>
          && (tasks[j].id in Listed(required, tasks[i].id) <==> AlwaysProduced(preds, Outputs(tasks), i, j))
          && (tasks[j].id in Listed(optional, tasks[i].id) <==>
                MaybeKept(preds, Outputs(tasks), i, j) && !AlwaysProduced(preds, Outputs(tasks), i, j)))
    && tasks[i].id in mustErr && tasks[i].id in mayErr
    && (mustErr[tasks[i].id] <==> WalksStop(preds, i))
    && (mayErr[tasks[i].id] <==> MaybeError(preds, i))
  }

  lemma SameExact(tasks: seq<Task>, a: Preds, b: Preds, required: map<string, seq<string>>, optional: map<string, seq<string>>,
      mustErr: map<string, bool>, mayErr: map<string, bool>, i: nat)
    requires SameEdges(a, b) && i < |tasks| && Exact(tasks, a, required, optional, mustErr, mayErr, i)
    ensures Exact(tasks, b, required, optional, mustErr, mayErr, i)
  {
    hide Run, NormalWalk, Produced, Kept, ErrorSet, Listed, SameEdges;
    assert SameEdges(b, a) by { SameEdgesBack(a, b); }
    forall p ensures Run(a, p, i) <==> Run(b, p, i) {
      if Run(a, p, i) { SameRuns(a, b, p, i); }
      if Run(b, p, i) { SameRuns(b, a, p, i); }
    }
    forall n: nat ensures NormalWalk(a, i, n) <==> NormalWalk(b, i, n) {
      if NormalWalk(a, i, n) { SameWalks(a, b, i, n); }
      if NormalWalk(b, i, n) { SameWalks(b, a, i, n); }
    }
  }

  lemma SameEdgesBack(a: Preds, b: Preds)
    requires SameEdges(a, b)
    ensures SameEdges(b, a)
  {
  }

  lemma SetsExact(tasks: seq<Task>, preds: Preds, must: Matrix, may: Matrix, me: seq<bool>, ye: seq<bool>,
      required: map<string, seq<string>>, optional: map<string, seq<string>>,
      mustErr: map<string, bool>, mayErr: map<string, bool>, i: nat)
    requires |preds| == |tasks| == |me| == |ye| && Wired(preds) && AllReachable(preds) && i < |tasks|
    requires Square(must, |tasks|) && MustFixed(preds, must, Outputs(tasks)) && Witnessed(preds, must, Outputs(tasks))
    requires Square(may, |tasks|) && MayFixed(preds, may, Outputs(tasks)) && Justified(preds, may, Outputs(tasks))
    requires ErrGrounded(preds, me) && forall t :: 0 <= t < |preds| ==> me[t] == MustErrAt(preds, me, t)
    requires ErrSeen(preds, ye) && forall t :: 0 <= t < |preds| ==> ye[t] == MayErrAt(preds, ye, t)
    requires SetsFor(tasks, preds, must, may, Outputs(tasks), required, optional, i)
    requires tasks[i].id in mustErr && tasks[i].id in mayErr && mustErr[tasks[i].id] == me[i] && mayErr[tasks[i].id] == ye[i]
    ensures Exact(tasks, preds, required, optional, mustErr, mayErr, i)
  {
    forall j | 0 <= j < |tasks|
      ensures MustIn(preds, must, Outputs(tasks), i, j) <==> AlwaysProduced(preds, Outputs(tasks), i, j)
      ensures MayIn(preds, may, Outputs(tasks), i, j) <==> MaybeKept(preds, Outputs(tasks), i, j)
    {
      MustIsExact(preds, must, Outputs(tasks), i, j);
      MayIsExact(preds, may, Outputs(tasks), i, j);
    }
    MustErrIsExact(preds, me, i);
    MayErrIsExact(preds, ye, i);
  }

  ghost predicate SetsFor(tasks: seq<Task>, preds: Preds, must: Matrix, may: Matrix, has: seq<bool>,
      required: map<string, seq<string>>, optional: map<string, seq<string>>, i: nat)
    requires |preds| == |has| == |tasks| && Wired(preds) && Square(must, |has|) && Square(may, |has|) && i < |tasks|
  {
    forall j :: 0 <= j < |tasks| ==>
      && (tasks[j].id in Listed(required, tasks[i].id) <==> MustIn(preds, must, has, i, j))
      && (tasks[j].id in Listed(optional, tasks[i].id) <==> MayIn(preds, may, has, i, j) && !MustIn(preds, must, has, i, j))
  }
}
