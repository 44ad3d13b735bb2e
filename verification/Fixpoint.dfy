/** The types of mutually recursive outputs, and why they stay true over any loop iterations. */
module Fixpoint {
  import opened Common
  import opened Schema
  import opened Sorting
  import opened Expression
  import opened Inference
  import opened Membership
  import opened Canonical
  import opened CanonicalMeaning
  import opened Join
  import Tarjan

  type Defs = map<string, Node>

  // The type of one output map, its references read from the definitions.
  type Infer = (string, Defs) -> Result<Node>

  const MAX_RECURSIVE_PASSES: nat := 16
  const MAX_OUTPUT_TYPE_BYTES: nat := 64 * 1024

  // What the members of a component see of each other while they are inferred.
  function Nullable(d: Defs, members: seq<string>): Defs {
    map x | x in d :: if x in members then WithNull(d[x]) else d[x]
  }

  // Inferring m again adds nothing to its accepted type.
  predicate Absorbed(less: Order, infer: Infer, d: Defs, m: string, accepted: Node) {
    infer(m, d).Ok? && JoinNodes(less, accepted, Canon(less, infer(m, d).value)) == accepted
  }

  predicate Same(a: Defs, b: Defs, x: string) {
    (x in a <==> x in b) && (x in a ==> a[x] == b[x])
  }

  ghost predicate Agree(a: Defs, b: Defs, members: seq<string>) {
    forall x :: x !in members ==> Same(a, b, x)
  }

  // Each member's map has a type of its own, whatever is thought of the members: it reads none of them.
  ghost predicate Constant(infer: Infer, d: Defs, members: seq<string>, types: Defs) {
    forall m, e: Defs {:trigger infer(m, e)} :: m in members && Agree(e, d, members) ==> m in types && infer(m, e) == Ok(types[m])
  }

  // None of the types, in canonical form, is too large.
  ghost predicate Small(less: Order, size: Node -> nat, members: seq<string>, types: Defs) {
    forall m :: m in members && m in types ==> size(Canon(less, types[m])) <= MAX_OUTPUT_TYPE_BYTES
  }

  // The estimate of every member of the set is its own type.
  ghost predicate Own(less: Order, members: set<string>, types: Defs, est: Defs) {
    forall m :: m in members ==> m in est && m in types && est[m] == Canon(less, types[m])
  }

  function Members(members: seq<string>): set<string> {
    set m | m in members
  }

  // --- the fixpoint ---

  class Types {
    var defs: Defs

    constructor (d: Defs)
      ensures defs == d
    {
      defs := d;
    }

    // Accepted types absorb what is inferred against them; other definitions stay.
    // Outputs that read no member are accepted, each with its own type.
    method InferOutputFixpoint(less: Order, infer: Infer, size: Node -> nat, members: seq<string>, ghost types: Defs) returns (r: Result<()>)
      requires StrictOrder(less)
      modifies this
      ensures Constant(infer, old(defs), members, types) && Small(less, size, members, types) ==>
                r.Ok? && Own(less, Members(members), types, defs)
      ensures forall x :: x !in members ==> Same(defs, old(defs), x)
      ensures r.Ok? ==> forall m :: m in members ==> m in defs && Absorbed(less, infer, Nullable(defs, members), m, defs[m])
    {
      hide JoinNodes, Canon, NodesEqual, StrictOrder, WithNull, Absorbed, Constant, Small, Estimates;
      ghost var start := defs;
      var est: Defs := map[];
      for i := 0 to |members|
        invariant forall x :: x !in members ==> Same(defs, start, x)
      {
        defs := defs[members[i] := Type("null")];
      }
      NoEstimates(less, defs, members);
      for pass := 0 to MAX_RECURSIVE_PASSES
        invariant forall x :: x !in members ==> Same(defs, start, x)
        invariant Estimates(less, est, defs, members)
        invariant pass == 0 ==> est == map[]
        invariant Constant(infer, start, members, types) && Small(less, size, members, types) ==>
          pass <= 1 && (pass == 1 ==> Own(less, Members(members), types, est))
      {
        if Constant(infer, start, members, types) { SameElsewhere(infer, start, defs, members, types); }
        var stable, err := Pass(less, infer, size, members, est, types);
        if err.Some? { return Err(err.value); }
        est := stable.1;
        if stable.0 {
          ghost var seen := defs;
          for i := 0 to |members|
            invariant forall x :: x !in members[..i] ==> Same(defs, seen, x)
            invariant forall x :: x in members[..i] ==> x in defs && defs[x] == est[x]
          {
            assert members[i] in members;
            defs := defs[members[i] := est[members[i]]];
            assert members[..i + 1] == members[..i] + [members[i]];
          }
          assert members[..|members|] == members;
          NullableAgain(est, seen, defs, members);
          return Ok(());
        }
      }
      return Err("recursive output types did not stabilize");
    }

    // One pass over the members: stable when it changed no estimate.
    method Pass(less: Order, infer: Infer, size: Node -> nat, members: seq<string>, est: Defs, ghost types: Defs)
      returns (stable: (bool, Defs), err: Option<string>)
      requires StrictOrder(less) && Estimates(less, est, defs, members)
      modifies this
      ensures forall x :: x !in members ==> Same(defs, old(defs), x)
      ensures err.None? ==> Estimates(less, stable.1, defs, members) && forall m :: m in members ==> m in stable.1
      ensures Constant(infer, old(defs), members, types) && Small(less, size, members, types) ==>
                && (est == map[] ==> err.None? && Own(less, Members(members), types, stable.1))
                && (Own(less, Members(members), types, est) ==> err.None? && stable.0)
      // The first pass is never stable, not even for an output that reads no other.
      ensures err.None? && est == map[] && members != [] ==> !stable.0
      ensures err.None? && stable.0 ==>
        && stable.1 == est && (forall m :: m in members ==> m in est && m in defs && defs[m] == WithNull(est[m]))
        && defs == old(defs) && forall m :: m in members ==> Absorbed(less, infer, defs, m, est[m])
    {
      hide JoinNodes, Canon, NodesEqual, StrictOrder, WithNull, Constant, Small, Own, KeepsOwn, Members, Absorbed, Estimates;
      var now, settled := est, true;
      ghost var start := defs;
      OwnStarts(less, members, types, est);
      for i := 0 to |members|
        invariant forall x :: x !in members ==> Same(defs, start, x)
        invariant Estimates(less, now, defs, members)
        invariant forall k :: 0 <= k < i ==> members[k] in now
        invariant settled ==> now == est && defs == start
        invariant Constant(infer, start, members, types) && Small(less, size, members, types) ==> KeepsOwn(less, members, i, types, est, now, settled)
        invariant settled ==> forall k :: 0 <= k < i ==> Absorbed(less, infer, start, members[k], est[members[k]])
      {
        var m := members[i];
        assert m in members;
        ghost var own := Constant(infer, start, members, types) && Small(less, size, members, types);
        if own { OwnInferred(less, infer, size, start, members, types, defs, m); }
        var cur := infer(m, defs);
        if cur.Err? { return (false, now), Some(cur.error); }
        var c := Canon(less, cur.value);
        if size(c) > MAX_OUTPUT_TYPE_BYTES { return (false, now), Some("output type grew without converging"); }
        var next := c;
        ghost var unmoved := settled;
        CanonIdempotent(less, cur.value);
        if m in now {
          EstimateAt(less, now, defs, members, m);
          next := JoinNodes(less, now[m], c);
          JoinIsCanonical(less, now[m], c);
          if !NodesEqual(less, next, now[m]) {
            settled := false;
          } else {
            EqualCanonical(less, next, now[m]);
            AbsorbedNow(less, infer, defs, m, now[m]);
          }
        } else {
          settled := false;
        }
        ghost var before, seen := now, defs;
        EstimatesMore(less, now, defs, members, m, next);
        if own { OwnStep(less, members, i, types, est, now, unmoved, next, settled); }
        now := now[m := next];
        defs := defs[m := WithNull(next)];
        if settled {
          assert now == before;
          assert defs == seen;
        }
      }
      forall m | m in members ensures m in now {
        var k :| 0 <= k < |members| && members[k] == m;
      }
      assert members != [] ==> members[0] in now;
      forall m | m in members ensures m in defs && defs[m] == WithNull(now[m]) { EstimateAt(less, now, defs, members, m); }
      if Constant(infer, start, members, types) && Small(less, size, members, types) { OwnEnds(less, members, types, est, now, settled); }
      return (settled, now), None;
    }

    // Components in dependency order: in the end every output's type absorbs what its map is
    // inferred to, its own component read nullable and everything else as exported.
    method InferOutputs(less: Order, infer: Infer, size: Node -> nat, graph: Tarjan.Graph, ids: seq<string>)
      returns (sccs: seq<seq<string>>, r: Result<()>)
      requires StrictOrder(less) && Covers(graph, ids) && Local(infer, graph)
      modifies this
      ensures Tarjan.Condensation(graph, ids, sccs)
      ensures r.Ok? ==> forall i, m :: 0 <= i < |sccs| && m in sccs[i] ==>
                m in defs && Absorbed(less, infer, Nullable(defs, sccs[i]), m, defs[m])
      ensures forall x :: x !in ids ==> Same(defs, old(defs), x)
    {
      hide Absorbed, Local, Tarjan.Condensation, Tarjan.DependencyFirst, Tarjan.Apart, Tarjan.IsComponent, Tarjan.Emitted, Nullable;
      sccs := Tarjan.TarjanScc(graph, ids);
      ghost var start := defs;
      for n := 0 to |sccs|
        invariant forall i {:trigger Settled(less, infer, defs, sccs[i])} :: 0 <= i < n ==> Settled(less, infer, defs, sccs[i])
        invariant forall x :: x !in ids ==> Same(defs, start, x)
      {
        ghost var before := defs;
        r := InferOutputFixpoint(less, infer, size, sccs[n], map[]);
        MembersAreIds(graph, ids, sccs, n);
        if r.Err? { return; }
        forall i {:trigger Settled(less, infer, defs, sccs[i])} | 0 <= i < n + 1 ensures Settled(less, infer, defs, sccs[i]) {
          if i < n { StaysSettled(less, infer, graph, ids, sccs, i, n, before, defs); }
        }
      }
      forall i, m | 0 <= i < |sccs| && m in sccs[i]
        ensures m in defs && Absorbed(less, infer, Nullable(defs, sccs[i]), m, defs[m])
      {
        assert Settled(less, infer, defs, sccs[i]);
      }
      return sccs, Ok(());
    }
  }

  lemma SameElsewhere(infer: Infer, a: Defs, b: Defs, members: seq<string>, types: Defs)
    requires Constant(infer, a, members, types) && Agree(b, a, members)
    ensures Constant(infer, b, members, types)
  {
    forall m, e: Defs | m in members && Agree(e, b, members) ensures m in types && infer(m, e) == Ok(types[m]) {
      forall x | x !in members ensures Same(e, a, x) { assert Same(e, b, x) && Same(b, a, x); }
      ConstantAt(infer, a, members, types, m, e);
    }
  }

  lemma ConstantAt(infer: Infer, d: Defs, members: seq<string>, types: Defs, m: string, e: Defs)
    requires Constant(infer, d, members, types) && m in members && Agree(e, d, members)
    ensures m in types && infer(m, e) == Ok(types[m])
  {
    assert infer(m, e) == infer(m, e);
  }

  // During a pass: the estimates made from nothing are the members' own types; those that were so
  // to begin with have not been moved.
  ghost predicate KeepsOwn(less: Order, members: seq<string>, i: nat, types: Defs, est: Defs, now: Defs, settled: bool)
    requires i <= |members|
  {
    && (est == map[] ==> Own(less, Members(members[..i]), types, now) && now.Keys == Members(members[..i]))
    && (Own(less, Members(members), types, est) ==> settled)
  }

  lemma OwnInferred(less: Order, infer: Infer, size: Node -> nat, d: Defs, members: seq<string>, types: Defs, e: Defs, m: string)
    requires Constant(infer, d, members, types) && Small(less, size, members, types) && Agree(e, d, members) && m in members
    ensures m in types && infer(m, e) == Ok(types[m]) && size(Canon(less, types[m])) <= MAX_OUTPUT_TYPE_BYTES
  {
    hide Canon;
    ConstantAt(infer, d, members, types, m, e);
  }

  lemma AbsorbedNow(less: Order, infer: Infer, d: Defs, m: string, accepted: Node)
    requires infer(m, d).Ok? && JoinNodes(less, accepted, Canon(less, infer(m, d).value)) == accepted
    ensures Absorbed(less, infer, d, m, accepted)
  {
  }

  lemma OwnStarts(less: Order, members: seq<string>, types: Defs, est: Defs)
    ensures KeepsOwn(less, members, 0, types, est, est, true)
  {
    assert members[..0] == [];
  }

  lemma OwnEnds(less: Order, members: seq<string>, types: Defs, est: Defs, now: Defs, settled: bool)
    requires KeepsOwn(less, members, |members|, types, est, now, settled)
    ensures est == map[] ==> Own(less, Members(members), types, now)
    ensures Own(less, Members(members), types, est) ==> settled
  {
    assert members[..|members|] == members;
  }

  lemma OwnStep(less: Order, members: seq<string>, i: nat, types: Defs, est: Defs, now: Defs, settled: bool, next: Node, after: bool)
    requires StrictOrder(less) && i < |members| && members[i] in types && KeepsOwn(less, members, i, types, est, now, settled) && (settled ==> now == est)
    requires var m, c := members[i], Canon(less, types[members[i]]);
             && next == (if m in now then JoinNodes(less, now[m], c) else c)
             && after == (settled && m in now && NodesEqual(less, next, now[m]))
    ensures KeepsOwn(less, members, i + 1, types, est, now[members[i] := next], after)
  {
    hide Canon;
    var m, c := members[i], Canon(less, types[members[i]]);
    assert members[..i + 1] == members[..i] + [m];
    CanonIdempotent(less, types[m]);
    assert m in members;
    if est == map[] || Own(less, Members(members), types, est) {
      assert m in now ==> now[m] == c;
      assert next == c;
    }
  }

  // --- all components ---

  // The graph lists every output map and what it reads, which are output maps too.
  ghost predicate Covers(graph: Tarjan.Graph, ids: seq<string>) {
    && (forall m :: m in graph <==> m in ids)
    && forall m, x :: m in ids && x in Tarjan.Succ(graph, m) ==> x in ids
  }

  // A map's type depends on its own definition, on those it refers to, directly or through others,
  // and on what is no output map.
  ghost predicate Local(infer: Infer, graph: Tarjan.Graph) {
    forall m, a: Defs, b: Defs {:trigger infer(m, a), infer(m, b)} ::
      (forall x :: Tarjan.Reach(graph, m, x) ==> Same(a, b, x)) && Elsewhere(graph, a, b) ==> infer(m, a) == infer(m, b)
  }

  ghost predicate Elsewhere(graph: Tarjan.Graph, a: Defs, b: Defs) {
    forall x :: x !in graph ==> Same(a, b, x)
  }

  ghost predicate Settled(less: Order, infer: Infer, d: Defs, scc: seq<string>) {
    forall m :: m in scc ==> m in d && Absorbed(less, infer, Nullable(d, scc), m, d[m])
  }

  lemma MembersAreIds(graph: Tarjan.Graph, ids: seq<string>, sccs: seq<seq<string>>, n: nat)
    requires Tarjan.Condensation(graph, ids, sccs) && n < |sccs| && Covers(graph, ids)
    ensures forall m :: m in sccs[n] ==> m in ids
  {
    forall m | m in sccs[n] ensures m in ids {
      assert Tarjan.Emitted(sccs, m);
      var s :| s in ids && Tarjan.Reach(graph, s, m);
      ReachedIsId(graph, ids, s, m);
    }
  }

  lemma ReachedIsId(graph: Tarjan.Graph, ids: seq<string>, s: string, m: string)
    requires Covers(graph, ids) && s in ids && Tarjan.Reach(graph, s, m)
    ensures m in ids
  {
    if m !in ids {
      var p :| Tarjan.Path(graph, p) && p[0] == s && p[|p| - 1] == m;
      var x, y := Tarjan.Crossing(graph, p, set i | i in ids);
    }
  }

  // A component inferred later is none of an earlier component's business.
  lemma StaysSettled(less: Order, infer: Infer, graph: Tarjan.Graph, ids: seq<string>, sccs: seq<seq<string>>, i: nat, n: nat, a: Defs, b: Defs)
    requires Covers(graph, ids) && Local(infer, graph) && Tarjan.Condensation(graph, ids, sccs) && i < n < |sccs|
    requires (forall x :: x !in sccs[n] ==> Same(b, a, x)) && Settled(less, infer, a, sccs[i])
    ensures Settled(less, infer, b, sccs[i])
  {
    hide Canon, JoinNodes, WithNull;
    var na, nb := Nullable(a, sccs[i]), Nullable(b, sccs[i]);
    forall m | m in sccs[i] ensures m in b && Absorbed(less, infer, nb, m, b[m]) {
      assert m !in sccs[n] && Same(b, a, m);
      forall x | Tarjan.Reach(graph, m, x) ensures Same(na, nb, x) {
        var p :| Tarjan.Path(graph, p) && p[0] == m && p[|p| - 1] == x;
        var j := Tarjan.ReferencesComeFirst(graph, ids, sccs, i, p);
        assert x !in sccs[n] && Same(b, a, x);
      }
      MembersAreIds(graph, ids, sccs, n);
      forall x | x !in graph ensures Same(na, nb, x) { assert x !in sccs[n] && Same(b, a, x); }
      assert infer(m, na) == infer(m, nb);
    }
  }

  // Estimates are canonical and members read them nullable.
  ghost predicate Estimates(less: Order, est: Defs, defs: Defs, members: seq<string>) {
    forall m :: m in est ==> m in members && Canon(less, est[m]) == est[m] && m in defs && defs[m] == WithNull(est[m])
  }

  lemma NoEstimates(less: Order, defs: Defs, members: seq<string>)
    ensures Estimates(less, map[], defs, members)
  {
  }

  lemma EstimateAt(less: Order, est: Defs, defs: Defs, members: seq<string>, m: string)
    requires Estimates(less, est, defs, members) && m in est
    ensures Canon(less, est[m]) == est[m] && m in defs && defs[m] == WithNull(est[m])
  {
  }

  lemma EstimatesMore(less: Order, est: Defs, defs: Defs, members: seq<string>, m: string, next: Node)
    requires Estimates(less, est, defs, members) && m in members && Canon(less, next) == next
    ensures Estimates(less, est[m := next], defs[m := WithNull(next)], members)
  {
  }

  lemma EqualCanonical(less: Order, a: Node, b: Node)
    requires NodesEqual(less, a, b) && Canon(less, a) == a && Canon(less, b) == b
    ensures a == b
  {
  }

  lemma NullableAgain(est: Defs, seen: Defs, defs: Defs, members: seq<string>)
    requires forall x :: x !in members ==> Same(defs, seen, x)
    requires forall m :: m in members ==> m in est && m in seen && seen[m] == WithNull(est[m]) && m in defs && defs[m] == est[m]
    ensures Nullable(defs, members) == seen
  {
    hide WithNull;
    var n := Nullable(defs, members);
    forall x ensures Same(n, seen, x) { assert x !in members ==> Same(defs, seen, x); }
    assert n.Keys == seen.Keys;
  }

  // --- what an accepted type is worth ---

  // Output values so far; a member without one reads as null.
  type Outputs = map<string, Datum>

  // One output map evaluated over what the outputs are now, on one occasion: results of actions and
  // whatever else it reads differ from one to the next.
  type Eval = (string, Outputs, nat) -> Option<Datum>

  ghost predicate Fits(d: Defs, members: seq<string>, o: Outputs) {
    forall m :: m in members ==> m in d && Mem(d[m], if m in o then o[m] else VNull)
  }

  // Inference is sound: over outputs that fit the definitions a map yields values of its type.
  ghost predicate SoundAt(infer: Infer, eval: Eval, d: Defs, members: seq<string>) {
    forall m, o, n {:trigger eval(m, o, n)} :: m in members && Fits(d, members, o) && eval(m, o, n).Some? && infer(m, d).Ok? ==>
      Mem(infer(m, d).value, eval(m, o, n).value)
  }

  // A run of the loop: at each step one member is evaluated and its output replaced.
  ghost predicate Iterates(eval: Eval, members: seq<string>, outputs: seq<Outputs>) {
    && outputs != [] && outputs[0] == map[]
    && forall i :: 0 <= i < |outputs| - 1 ==> Evaluates(eval, members, outputs[i], outputs[i + 1], i)
  }

  ghost predicate Evaluates(eval: Eval, members: seq<string>, o: Outputs, o': Outputs, n: nat) {
    exists m :: m in members && eval(m, o, n).Some? && o' == o[m := eval(m, o, n).value]
  }

  // What inferOutputFixpoint leaves, with types the join is an upper bound on.
  ghost predicate Accepted(less: Order, infer: Infer, d: Defs, members: seq<string>) {
    forall m :: m in members ==>
      && m in d && Joinable(d[m]) && Absorbed(less, infer, Nullable(d, members), m, d[m])
      && Formed(infer(m, Nullable(d, members)).value) && Joinable(Canon(less, infer(m, Nullable(d, members)).value))
  }

  lemma AcceptedAdmits(less: Order, infer: Infer, eval: Eval, d: Defs, members: seq<string>, o: Outputs, m: string, n: nat)
    requires StrictOrder(less) && Accepted(less, infer, d, members) && SoundAt(infer, eval, Nullable(d, members), members)
    requires (forall x :: x in members && x in o ==> Mem(d[x], o[x])) && m in members && eval(m, o, n).Some?
    ensures Mem(d[m], eval(m, o, n).value)
  {
    hide Canon, JoinNodes, Mem, Formed, Joinable, WithNull, StrictOrder;
    var nd := Nullable(d, members);
    forall x | x in members ensures x in nd && Mem(nd[x], if x in o then o[x] else VNull) {
      JoinableForms(d[x]);
      WithNullMem(d[x], if x in o then o[x] else VNull);
    }
    var t, v := infer(m, nd).value, eval(m, o, n).value;
    CanonMeans(less, t, v);
    JoinAdmits(less, d[m], Canon(less, t), v);
  }

  // However often the loop goes round, every output is in its accepted type.
  lemma {:induction false} OutputsStayTyped(less: Order, infer: Infer, eval: Eval, d: Defs, members: seq<string>, outputs: seq<Outputs>, i: nat)
    requires StrictOrder(less) && Accepted(less, infer, d, members) && SoundAt(infer, eval, Nullable(d, members), members)
    requires Iterates(eval, members, outputs) && i < |outputs|
    ensures forall m :: m in members && m in outputs[i] ==> Mem(d[m], outputs[i][m])
  {
    hide Mem, Accepted, SoundAt, StrictOrder;
    if i > 0 {
      OutputsStayTyped(less, infer, eval, d, members, outputs, i - 1);
      var o := outputs[i - 1];
      assert Evaluates(eval, members, o, outputs[i], i - 1);
      var m :| m in members && eval(m, o, i - 1).Some? && outputs[i] == o[m := eval(m, o, i - 1).value];
      AcceptedKnows(less, infer, d, members);
      AcceptedAdmits(less, infer, eval, d, members, o, m, i - 1);
    }
  }

  lemma AcceptedKnows(less: Order, infer: Infer, d: Defs, members: seq<string>)
    requires Accepted(less, infer, d, members)
    ensures forall m :: m in members ==> m in d
  {
  }
}
