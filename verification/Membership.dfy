/**
 Membership of run-time values in schema nodes, and navigation that respects it: what a lookup,
 an index, null added or null taken off promise of a value is what the value keeps. Bounds and
 enums play no part; a union has the values of any of its variants. Formed, Firm and Shaped name
 what some of the facts need of a node: no empty unions, no untyped variants, properties on
 objects alone.
 */
module Membership {
  import opened Common
  import opened Schema
  import opened Expression
  import opened Inference

  // --- membership: the JSON type of a value, all the way down ---

  predicate OfType(v: Datum, t: string) {
    match t
    case "null" => v.VNull?
    case "boolean" => v.VBool?
    case "string" => v.VStr?
    case "object" => v.VObj?
    case "array" => v.VArr?
    case "number" => Numeric(v)
    case "integer" => Numeric(v) && Integral(AsReal(v))
    case _ => false
  }

  predicate Typed(n: Node, v: Datum) {
    n.types == [] || exists t :: t in n.types && OfType(v, t)
  }

  // Objects hold declared fields only, as after normalisation; bounds and enums are not
  // part of a type; both kinds of union mean "one of these".
  predicate Mem(n: Node, v: Datum)
    decreases n, 1
  {
    if IsEmpty(n) then true
    else if n.anyOf.Variants? then exists b :: b in n.anyOf.all && Mem(b, v)
    else if n.oneOf.Variants? then exists b :: b in n.oneOf.all && Mem(b, v)
    else
      && Typed(n, v)
      && (v.VObj? ==> FieldsMem(n, v.fields))
      && (v.VArr? && n.items.Items? ==> forall x :: x in v.items ==> Mem(n.items.of, x))
  }

  predicate FieldsMem(n: Node, fields: map<string, Datum>)
    decreases n, 0
  {
    && (forall name :: name in fields ==> name in PropsOf(n))
    && (forall name :: name in PropsOf(n) ==>
          if name in fields then Mem(PropsOf(n)[name], fields[name]) else !IsRequired(n, name))
  }

  // Unions stand alone; plain nodes name their types; only a node of type object alone
  // declares properties.
  predicate Formed(n: Node)
    decreases n
  {
    IsEmpty(n) ||
    if n.anyOf.Variants? then
      n.types == [] && n.oneOf.NoVariants? && n.anyOf.all != [] && forall b :: b in n.anyOf.all ==> Formed(b)
    else if n.oneOf.Variants? then
      n.types == [] && n.oneOf.all != [] && forall b :: b in n.oneOf.all ==> Formed(b)
    else
      && n.types != []
      && (n.props.Props? ==> n.types == ["object"] && forall name :: name in n.props.all ==> Formed(n.props.all[name]))
      && (n.items.Items? ==> Formed(n.items.of))
  }

  // No union has an untyped variant.
  predicate Firm(n: Node)
    decreases n
  {
    if n.anyOf.Variants? then forall b :: b in n.anyOf.all ==> Firm(b) && !IsEmpty(b)
    else if n.oneOf.Variants? then forall b :: b in n.oneOf.all ==> Firm(b) && !IsEmpty(b)
    else
      && (n.props.Props? ==> forall name :: name in n.props.all ==> Firm(n.props.all[name]))
      && (n.items.Items? ==> Firm(n.items.of))
  }

  predicate Shaped(n: Node) {
    Formed(n) && Firm(n)
  }

  lemma ShapedForms(n: Node)
    requires Shaped(n)
    ensures Formed(n)
  {
  }

  // --- null ---

  lemma NullOnly(n: Node, v: Datum)
    requires Formed(n) && IsNullType(n)
    ensures Mem(n, v) <==> v == VNull
  {
    assert "null" in n.types;
  }

  lemma NullIn(n: Node)
    requires Formed(n) && HasNull(n)
    ensures Mem(n, VNull)
  {
    if "null" in n.types {
      assert OfType(VNull, "null");
    } else if NullVariant(n.oneOf) {
      var b :| b in n.oneOf.all && IsNullType(b);
      NullOnly(b, VNull);
    } else {
      var b :| b in n.anyOf.all && IsNullType(b);
      NullOnly(b, VNull);
    }
  }

  lemma WithNullMem(n: Node, v: Datum)
    requires Formed(n) && (v == VNull || Mem(n, v))
    ensures Mem(WithNull(n), v)
  {
    if IsEmpty(n) {
    } else if HasNull(n) {
      if v == VNull { NullIn(n); }
    } else if n.types != [] && n.props.NoProps? {
      var m := WithNull(n);
      assert "null" in m.types && OfType(VNull, "null");
      if v != VNull {
        var t :| t in n.types && OfType(v, t);
        assert t in m.types;
        assert PropsOf(m) == PropsOf(n);
      }
    } else {
      var u := [n, Type("null")];
      assert u[0] == n && u[1] == Type("null");
      assert n in u && Type("null") in u;
      NullOnly(Type("null"), VNull);
    }
  }

  // Null comes off a type without losing any other value.
  lemma StripNullMem(n: Node, v: Datum)
    requires Formed(n) && Mem(n, v) && v != VNull
    ensures Mem(StripNull(n), v)
    ensures Shaped(n) && !IsEmpty(n) ==> StripNull(n).types != [] || VariantsOf(StripNull(n)).Variants?
  {
    if n.types != [] {
      var t :| t in n.types && OfType(v, t);
      NonNullStays(n.types, t);
      assert PropsOf(StripNull(n)) == PropsOf(n);
    } else if n.oneOf.Variants? {
      var b :| b in n.oneOf.all && Mem(b, v);
      if IsNullType(b) { NullOnly(b, v); }
      RestKeeps(n.oneOf.all, b);
    } else if n.anyOf.Variants? {
      var b :| b in n.anyOf.all && Mem(b, v);
      if IsNullType(b) { NullOnly(b, v); }
      RestKeeps(n.anyOf.all, b);
    }
  }

  lemma {:induction false} NonNullStays(ts: seq<string>, t: string)
    requires t in ts && t != "null"
    ensures t in NonNullTypes(ts)
  {
    if ts[0] != t { NonNullStays(ts[1..], t); }
  }

  lemma RestKeeps(vs: seq<Node>, b: Node)
    requires b in vs && !IsNullType(b)
    ensures b in NonNullVariants(vs) && NonNullVariants(vs) != []
    ensures |NonNullVariants(vs)| == 1 ==> NonNullVariants(vs)[0] == b
  {
  }

  lemma UnwrapMem(n: Node, v: Datum)
    requires Shaped(n)
    ensures Shaped(Unwrap(n))
    ensures Mem(n, v) <==> Mem(Unwrap(n), v)
    ensures !IsEmpty(n) ==> !IsEmpty(Unwrap(n))
  {
    if Unwrap(n) != n {
      var vs := VariantsOf(n).all;
      assert vs == [vs[0]];
      assert vs[0] in vs;
      forall b | b in vs ensures b == vs[0] { }
    }
  }

  // --- properties ---

  // The property a variant lacks reads as null from every member of that variant.
  lemma {:induction false} LookupMisses(n: Node, name: string, v: Datum)
    requires Shaped(n) && !IsEmpty(n) && Mem(n, v) && Lookup(n, name).Err?
    ensures FieldOf(v, name) == VNull
    decreases n
  {
    if VariantsOf(n).Variants? {
      var vs := VariantsOf(n).all;
      var b :| b in vs && Mem(b, v);
      if IsNullType(b) {
        NullOnly(b, v);
      } else if Lookup(b, name).Ok? {
        HitsHave(n, vs, name, b);
      } else {
        LookupMisses(b, name, v);
      }
    }
  }

  lemma {:induction false} HitsHave(n: Node, vs: seq<Node>, name: string, b: Node)
    requires Inside(n, vs) && b in vs && !IsNullType(b) && Lookup(b, name).Ok?
    ensures Lookup(b, name).value in Hits(n, vs, name)
    decreases |vs|
  {
    TailInside(n, vs);
    if vs[0] != b { HitsHave(n, vs[1..], name, b); }
  }

  lemma MergeMem(results: seq<Node>, r: Node, exclusive: bool, v: Datum)
    requires r in results && Mem(r, v)
    ensures Mem(Merge(results, exclusive), v)
  {
  }

  lemma MergeShaped(results: seq<Node>, r: Node, exclusive: bool)
    requires r in results && Shaped(Merge(results, exclusive))
    ensures Shaped(r)
  {
    assert AllSame(results) ==> r == results[0];
  }

  lemma WithNullShaped(n: Node)
    requires Shaped(WithNull(n))
    ensures Shaped(n)
  {
    if !IsEmpty(n) && !HasNull(n) {
      if n.types != [] && n.props.NoProps? {
        assert WithNull(n).types != [];
      } else {
        assert [n, Type("null")][0] == n;
        assert n in WithNull(n).oneOf.all;
      }
    }
  }

  // Reading a property of a member of a type gives a member of the property's type.
  lemma {:induction false} LookupMem(n: Node, name: string, v: Datum)
    requires Shaped(n) && !IsEmpty(n) && Mem(n, v)
    requires Lookup(n, name).Ok? && Shaped(Lookup(n, name).value)
    ensures Mem(Lookup(n, name).value, FieldOf(v, name))
    decreases n
  {
    var x := FieldOf(v, name);
    if VariantsOf(n).Variants? {
      LookupUnionMem(n, VariantsOf(n).all, name, n.anyOf.NoVariants?, v);
    } else {
      var p := n.props.all[name];
      assert PropsOf(n)[name] == p;
      assert v.VObj? by { assert n.types == ["object"]; }
      if name in v.fields {
        assert Mem(p, x);
        WithNullMem(p, x);
      } else {
        WithNullMem(p, VNull);
      }
    }
  }

  lemma {:induction false} LookupUnionMem(n: Node, vs: seq<Node>, name: string, exclusive: bool, v: Datum)
    requires Inside(n, vs) && (forall b :: b in vs ==> Shaped(b) && !IsEmpty(b))
    requires exists b :: b in vs && Mem(b, v)
    requires LookupUnion(n, vs, name, exclusive).Ok? && Shaped(LookupUnion(n, vs, name, exclusive).value)
    ensures Mem(LookupUnion(n, vs, name, exclusive).value, FieldOf(v, name))
    decreases n, 0
  {
    var x := FieldOf(v, name);
    var results := Hits(n, vs, name);
    var b :| b in vs && Mem(b, v);
    if IsNullType(b) {
      NullOnly(b, v);
    } else if Lookup(b, name).Err? {
      LookupMisses(b, name, v);
    } else {
      HitsHave(n, vs, name, b);
    }
    if results == [] {
      NullOnly(Type("null"), VNull);
    } else {
      var merged := Merge(results, exclusive);
      var r := LookupUnion(n, vs, name, exclusive).value;
      if r != merged { WithNullShaped(merged); }
      if !IsNullType(b) && Lookup(b, name).Ok? {
        MergeShaped(results, Lookup(b, name).value, exclusive);
        LookupMem(b, name, v);
        MergeMem(results, Lookup(b, name).value, exclusive, x);
        WithNullMem(merged, x);
      } else {
        WithNullMem(merged, VNull);
      }
    }
  }

  // --- elements ---

  lemma {:induction false} ElementsHave(n: Node, vs: seq<Node>, b: Node)
    requires Inside(n, vs) && b in vs && !IsNullType(b) && Index(b).Ok?
    ensures Index(b).value in Elements(n, vs)
    decreases |vs|
  {
    TailInside(n, vs);
    if vs[0] != b { ElementsHave(n, vs[1..], b); }
  }

  lemma {:induction false} ElementsFrom(n: Node, vs: seq<Node>, r: Node) returns (b: Node)
    requires Inside(n, vs) && r in Elements(n, vs)
    ensures b in vs && !IsNullType(b) && Index(b) == Ok(r)
    decreases |vs|
  {
    TailInside(n, vs);
    if !IsNullType(vs[0]) && Index(vs[0]) == Ok(r) {
      b := vs[0];
    } else {
      b := ElementsFrom(n, vs[1..], r);
    }
  }

  lemma StrippedVariants(n: Node)
    requires Shaped(n) && !IsEmpty(n)
    ensures VariantsOf(StripNull(n)).Variants? ==> forall b :: b in VariantsOf(StripNull(n)).all ==> Shaped(b) && !IsEmpty(b)
    ensures "array" in StripNull(n).types && StripNull(n).items.Items? ==> Shaped(StripNull(n).items.of)
  {
    if n.types == [] && StripNull(n) != n {
      var vs := if n.oneOf.Variants? then n.oneOf.all else n.anyOf.all;
      var rest := NonNullVariants(vs);
      assert forall b :: b in rest ==> b in vs && Formed(b) && Firm(b) && !IsEmpty(b);
      if |rest| == 1 { assert rest[0] in rest; }
    }
  }

  // An index may always be out of bounds: null is in every element type.
  lemma {:induction false} IndexNullable(n: Node)
    requires Shaped(n) && !IsEmpty(n) && Index(n).Ok? && Shaped(Index(n).value)
    ensures Mem(Index(n).value, VNull)
    decreases n
  {
    StripSmaller(n);
    StrippedVariants(n);
    var r := StripNull(n);
    if VariantsOf(r).Variants? {
      var vs := VariantsOf(r).all;
      var results := Elements(n, vs);
      if results == [] {
        NullOnly(Type("null"), VNull);
      } else {
        var merged := Merge(results, false);
        if IndexUnion(n, vs) != merged {
          WithNullShaped(merged);
          WithNullMem(merged, VNull);
        } else {
          var b := ElementsFrom(n, vs, results[0]);
          MergeShaped(results, results[0], false);
          IndexNullable(b);
          MergeMem(results, results[0], false, VNull);
        }
      }
    } else if r.items.Items? {
      WithNullMem(r.items.of, VNull);
    }
  }

  lemma {:induction false} IndexMisses(n: Node, i: int, v: Datum)
    requires Shaped(n) && !IsEmpty(n) && Mem(n, v) && Index(n).Err?
    ensures ElementOf(v, i) == VNull
  {
    StripSmaller(n);
    if v != VNull { StripNullMem(n, v); }
  }

  lemma {:induction false} IndexMem(n: Node, i: int, v: Datum)
    requires Shaped(n) && !IsEmpty(n) && Mem(n, v)
    requires Index(n).Ok? && Shaped(Index(n).value)
    ensures Mem(Index(n).value, ElementOf(v, i))
    decreases n
  {
    var x := ElementOf(v, i);
    IndexNullable(n);
    if x != VNull {
      StripSmaller(n);
      StrippedVariants(n);
      StripNullMem(n, v);
      var r := StripNull(n);
      if VariantsOf(r).Variants? {
        var vs := VariantsOf(r).all;
        var b :| b in vs && Mem(b, v);
        if IsNullType(b) { NullOnly(b, v); }
        if Index(b).Err? { IndexMisses(b, i, v); }
        ElementsHave(n, vs, b);
        var results := Elements(n, vs);
        var merged := Merge(results, false);
        if IndexUnion(n, vs) != merged { WithNullShaped(merged); }
        MergeShaped(results, Index(b).value, false);
        IndexMem(b, i, v);
        MergeMem(results, Index(b).value, false, x);
        WithNullMem(merged, x);
      } else if r.items.Items? {
        assert x in v.items;
        WithNullMem(r.items.of, x);
      }
    }
  }
}
