/**
 lookupProperty, inferIndex and stripNull as they are coded, with their flags and
 accumulators, each proved to compute what Inference says. The loops walk the variants of a
 union in order, skip null, remember whether a variant missed, and decide at the end whether
 the results are one type, a new union of the same kind, or either of these made nullable.
 */
module Navigator {
  import opened Common
  import opened Schema
  import opened Inference

  method LookupProperty(n: Node, name: string) returns (r: Result<Node>)
    ensures r.Ok? <==> Lookup(n, name).Ok?
    ensures r.Ok? ==> r == Lookup(n, name)
    decreases n, 2
  {
    if n.anyOf.Variants? {
      r := AcrossVariants(n, n.anyOf.all, name, false);
      return;
    }
    if n.oneOf.Variants? {
      r := AcrossVariants(n, n.oneOf.all, name, true);
      return;
    }
    if n.props.NoProps? { return Err("cannot access property: schema has no properties"); }
    if name !in n.props.all { return Err("field not found in schema"); }
    var result := n.props.all[name];
    if !IsRequired(n, name) { return Ok(WithNull(result)); }
    return Ok(result);
  }

  lemma HitsStep(n: Node, vs: seq<Node>, name: string, i: nat)
    requires Inside(n, vs) && i < |vs|
    ensures Inside(n, vs[i..]) && Inside(n, vs[i + 1..]) && vs[i] < n
    ensures Hits(n, vs[i..], name) ==
            (if IsNullType(vs[i]) || Lookup(vs[i], name).Err? then [] else [Lookup(vs[i], name).value]) + Hits(n, vs[i + 1..], name)
    ensures Elements(n, vs[i..]) ==
            (if IsNullType(vs[i]) || Index(vs[i]).Err? then [] else [Index(vs[i]).value]) + Elements(n, vs[i + 1..])
  {
    hide Lookup, Index;
    assert Inside(n, vs[i..]) by { forall b | b in vs[i..] ensures b < n { assert b in vs; } }
    TailInside(n, vs[i..]);
    assert vs[i..][0] == vs[i] && vs[i..][1..] == vs[i + 1..];
  }

  method AcrossVariants(n: Node, variants: seq<Node>, name: string, exclusive: bool) returns (r: Result<Node>)
    requires Inside(n, variants)
    ensures r.Ok? <==> LookupUnion(n, variants, name, exclusive).Ok?
    ensures r.Ok? ==> r == LookupUnion(n, variants, name, exclusive)
    decreases n, 1
  {
    hide Lookup, Hits;
    var results: seq<Node> := [];
    var hadNull, hadMiss := false, false;
    assert variants[0..] == variants;
    for i := 0 to |variants|
      invariant Inside(n, variants[i..])
      invariant results + Hits(n, variants[i..], name) == Hits(n, variants, name)
      invariant hadMiss <==> exists k :: 0 <= k < i && !IsNullType(variants[k]) && Lookup(variants[k], name).Err?
      invariant hadNull <==> hadMiss || exists k :: 0 <= k < i && IsNullType(variants[k])
    {
      HitsStep(n, variants, name, i);
      if IsNullType(variants[i]) {
        hadNull := true;
      } else {
        var hit := LookupProperty(variants[i], name);
        if hit.Err? {
          hadMiss := true;
          hadNull := true;
        } else {
          results := results + [hit.value];
        }
      }
    }
    NoHits(n, variants[|variants|..], name);
    Occurs(n, variants, name);
    if |results| == 0 {
      if hadMiss { return Err("field not found in any variant"); }
      return Ok(Type("null"));
    }
    var result := results[0];
    var same := SameAll(results);
    if !same { result := if exclusive then OneOf(results) else AnyOf(results); }
    assert result == Merge(results, exclusive);
    assert hadNull <==> Missed(n, variants, name) || (exists b :: b in variants && IsNullType(b));
    assert results == Hits(n, variants, name);
    if hadNull {
      r := Ok(WithNull(result));
      assert r == LookupUnion(n, variants, name, exclusive);
      return;
    }
    return Ok(result);
  }

  lemma NoHits(n: Node, vs: seq<Node>, name: string)
    requires vs == []
    ensures Inside(n, vs) && Hits(n, vs, name) == [] && Elements(n, vs) == []
  {
  }

  lemma Occurs(n: Node, vs: seq<Node>, name: string)
    requires Inside(n, vs)
    ensures Missed(n, vs, name) <==> exists k :: 0 <= k < |vs| && !IsNullType(vs[k]) && Lookup(vs[k], name).Err?
    ensures (exists b :: b in vs && IsNullType(b)) <==> exists k :: 0 <= k < |vs| && IsNullType(vs[k])
  {
  }

  method SameAll(results: seq<Node>) returns (same: bool)
    ensures same == AllSame(results)
  {
    if |results| == 0 { return true; }
    for i := 1 to |results|
      invariant forall k :: 0 <= k < i ==> results[k] == results[0]
    {
      if results[i] != results[0] { return false; }
    }
    return true;
  }

  method InferIndex(n: Node) returns (r: Result<Node>)
    ensures r.Ok? <==> Index(n).Ok?
    ensures r.Ok? ==> r == Index(n)
    decreases n, 2
  {
    var resolved := WithoutNull(n);
    StripSmaller(n);
    if resolved.anyOf.Variants? {
      var t := IndexVariants(n, resolved.anyOf.all);
      return Ok(t);
    }
    if resolved.oneOf.Variants? {
      var t := IndexVariants(n, resolved.oneOf.all);
      return Ok(t);
    }
    if "array" !in resolved.types { return Err("index access [n] requires an array schema"); }
    if resolved.items.NoItems? { return Ok(EMPTY); }
    return Ok(WithNull(resolved.items.of));
  }

  method IndexVariants(n: Node, variants: seq<Node>) returns (r: Node)
    requires Inside(n, variants)
    ensures r == IndexUnion(n, variants)
    decreases n, 1
  {
    hide Index, Elements;
    var results: seq<Node> := [];
    var hadNull := false;
    assert variants[0..] == variants;
    for i := 0 to |variants|
      invariant Inside(n, variants[i..])
      invariant results + Elements(n, variants[i..]) == Elements(n, variants)
      invariant hadNull <==> exists k :: 0 <= k < i && (IsNullType(variants[k]) || Index(variants[k]).Err?)
    {
      HitsStep(n, variants, "", i);
      if IsNullType(variants[i]) {
        hadNull := true;
      } else {
        var element := InferIndex(variants[i]);
        if element.Err? {
          hadNull := true;
        } else {
          results := results + [element.value];
        }
      }
    }
    NoHits(n, variants[|variants|..], "");
    assert hadNull <==> exists b :: b in variants && (IsNullType(b) || Index(b).Err?);
    if |results| == 0 { return Type("null"); }
    var result := results[0];
    var same := SameAll(results);
    if !same { result := AnyOf(results); }
    assert result == Merge(results, false);
    assert results == Elements(n, variants);
    if hadNull && !HasNull(result) {
      r := WithNull(result);
      assert r == IndexUnion(n, variants);
      return;
    }
    return result;
  }

  method WithoutNull(n: Node) returns (r: Node)
    ensures r == StripNull(n)
  {
    hide NonNullVariants, NonNullTypes;
    if |n.types| > 0 {
      var nonNull := DropNullTypes(n.types);
      return n.(types := nonNull);
    }
    if n.oneOf.Variants? && |n.oneOf.all| > 0 {
      var rest := DropNull(n.oneOf.all);
      return if |rest| == |n.oneOf.all| then n else if |rest| == 1 then rest[0] else n.(oneOf := Listed(rest));
    }
    if n.anyOf.Variants? && |n.anyOf.all| > 0 {
      var rest := DropNull(n.anyOf.all);
      return if |rest| == |n.anyOf.all| then n else if |rest| == 1 then rest[0] else n.(anyOf := Listed(rest));
    }
    return n;
  }

  method DropNullTypes(ts: seq<string>) returns (r: seq<string>)
    ensures r == NonNullTypes(ts)
  {
    r := [];
    assert ts[0..] == ts;
    for i := 0 to |ts|
      invariant r + NonNullTypes(ts[i..]) == NonNullTypes(ts)
    {
      assert ts[i..][0] == ts[i] && ts[i..][1..] == ts[i + 1..];
      if ts[i] != "null" { r := r + [ts[i]]; }
    }
    assert ts[|ts|..] == [];
  }

  lemma DropStep(vs: seq<Node>, i: nat)
    requires i < |vs|
    ensures NonNullVariants(vs[i..]) == (if IsNullType(vs[i]) then [] else [vs[i]]) + NonNullVariants(vs[i + 1..])
  {
    hide IsNullType;
    assert vs[i..][0] == vs[i] && vs[i..][1..] == vs[i + 1..];
  }

  lemma NothingDropped(vs: seq<Node>)
    requires vs == []
    ensures NonNullVariants(vs) == []
  {
  }

  method DropNull(vs: seq<Node>) returns (r: seq<Node>)
    ensures r == NonNullVariants(vs)
  {
    hide IsNullType, NonNullVariants;
    r := [];
    assert vs[0..] == vs;
    for i := 0 to |vs|
      invariant r + NonNullVariants(vs[i..]) == NonNullVariants(vs)
    {
      DropStep(vs, i);
      if !IsNullType(vs[i]) { r := r + [vs[i]]; }
    }
    NothingDropped(vs[|vs|..]);
  }
}
