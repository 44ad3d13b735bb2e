/** Navigated and combined types admit nothing they need not: with soundness, exactly what is read. */
module MembershipExact {
  import opened Common
  import opened Schema
  import opened Expression
  import opened Inference
  import opened Membership
  import opened TypeSoundness

  // --- null on and off ---

  lemma WithNullExactly(n: Node, v: Datum)
    requires Formed(n)
    ensures Mem(WithNull(n), v) <==> v == VNull || Mem(n, v)
  {
    if v == VNull || Mem(n, v) { WithNullMem(n, v); }
    if Mem(WithNull(n), v) && !IsEmpty(n) && !HasNull(n) {
      if n.types != [] && n.props.NoProps? {
        var t :| t in n.types + ["null"] && OfType(v, t);
      } else {
        var b :| b in [n, Type("null")] && Mem(b, v);
        if b != n { NullOnly(b, v); }
      }
    }
  }

  // Something besides null is left when null comes off.
  predicate HasOther(n: Node) {
    IsEmpty(n) || (exists t :: t in n.types && t != "null") || (VariantsOf(n).Variants? && exists b :: b in VariantsOf(n).all && !IsNullType(b))
  }

  lemma {:induction false} NonNullAre(ts: seq<string>)
    ensures forall t :: t in NonNullTypes(ts) <==> t in ts && t != "null"
  {
    if ts != [] {
      NonNullAre(ts[1..]);
      assert ts == [ts[0]] + ts[1..];
    }
  }

  // Null off a type adds no value, and takes null itself off a list of types.
  lemma StripNullTight(n: Node, v: Datum)
    requires Formed(n) && HasOther(n) && Mem(StripNull(n), v)
    ensures Mem(n, v)
    ensures n.types != [] ==> v != VNull
  {
    if n.types != [] {
      NonNullAre(n.types);
      var r := StripNull(n);
      assert r.types != [] by {
        var t :| t in n.types && t != "null";
        assert t in r.types;
      }
      var t :| t in r.types && OfType(v, t);
      assert t in n.types;
      assert PropsOf(r) == PropsOf(n);
    } else if !IsEmpty(n) {
      VariantsStripped(n, VariantsOf(n).all, v);
    }
  }

  lemma VariantsStripped(n: Node, vs: seq<Node>, v: Datum)
    requires Formed(n) && n.types == [] && VariantsOf(n) == Variants(vs) && HasOther(n) && Mem(StripNull(n), v)
    ensures exists b :: b in vs && Mem(b, v)
  {
    var rest := NonNullVariants(vs);
    var b :| b in vs && !IsNullType(b);
    assert b in rest;
    if |rest| == |vs| {
    } else if |rest| == 1 {
      assert rest[0] in rest;
    } else {
      assert exists c :: c in rest && Mem(c, v);
    }
  }

  // --- choices ---

  // The type of a conditional admits exactly what one of its branches does.
  lemma EitherExactly(t: Node, f: Node, v: Datum)
    requires Shaped(t) && Shaped(f)
    ensures Mem(Either(t, f), v) <==> Mem(t, v) || Mem(f, v)
  {
    if Mem(t, v) || Mem(f, v) { EitherSound(t, f, v); }
    if Mem(Either(t, f), v) && t != f {
      if MadeNullable(t, f).Some? {
        NullOnly(f, v);
        WithNullExactly(t, v);
      } else if MadeNullable(f, t).Some? {
        NullOnly(t, v);
        WithNullExactly(f, v);
      } else {
        var b :| b in [t, f] && Mem(b, v);
      }
    }
  }

  // A number type that reads as one has every number, one that reads as integers every integer.
  lemma NumbersAll(n: Node, v: Datum)
    requires Formed(n) && ConcreteType(n).Some? && NumericType(ConcreteType(n).value) && OfType(v, ConcreteType(n).value)
    ensures Mem(n, v)
  {
    var t := ConcreteType(n).value;
    if |n.types| == 1 {
      assert n.types[0] in n.types;
    } else {
      var vs := VariantsOf(n).all;
      var ts := FirstTypes(vs);
      TypesFrom(vs, t);
      assert t in ts by { CommonAmong(ts, t); }
      var b :| b in vs && b.types == [t];
      assert b.types[0] in b.types;
      assert Mem(b, v);
    }
  }

  lemma CommonAmong(ts: seq<string>, t: string)
    requires ts != [] && forall s :: s in ts ==> NumericType(s)
    requires if forall s :: s in ts ==> s == ts[0] then t == ts[0] else t == "number"
    ensures t in ts
  {
    assert ts[0] in ts;
  }

  lemma {:induction false} TypesFrom(vs: seq<Node>, t: string)
    requires forall b :: b in vs ==> |b.types| == 1
    ensures t in FirstTypes(vs) <==> exists b :: b in vs && b.types == [t]
  {
    if vs != [] {
      assert vs[0] in vs && vs == [vs[0]] + vs[1..];
      TypesFrom(vs[1..], t);
      if vs[0].types[0] == t { assert vs[0].types == [t]; }
    }
  }

  // The type of a ?? b admits what b does, and of a what is left with null off: nothing else.
  lemma CoalesceTight(l: Node, r: Node, v: Datum)
    requires Shaped(l) && Shaped(r) && HasOther(l) && Formed(StripNull(l))
    requires Mem(InferCoalesce(l, r), v)
    ensures Mem(r, v) || (Mem(l, v) && Mem(StripNull(l), v))
  {
    hide Mem, ConcreteType, StripNull, Shaped, Formed;
    if !IsNullType(l) {
      var rest := StripNull(l);
      if Mem(rest, v) {
        ShapedForms(l);
        StripNullTight(l, v);
      }
      if l != rest && rest != r {
        ShapedForms(r);
        var lt, rt := ConcreteType(rest), ConcreteType(r);
        if lt.Some? && rt.Some? && NumericType(lt.value) && NumericType(rt.value) {
          WidenedTight(rest, r, v);
        } else {
          OneOfTwo(rest, r, v);
        }
      }
    }
  }

  lemma OneOfTwo(a: Node, b: Node, v: Datum)
    requires Mem(OneOf([a, b]), v)
    ensures Mem(a, v) || Mem(b, v)
  {
    var c :| c in [a, b] && Mem(c, v);
  }

  lemma WidenedTight(a: Node, b: Node, v: Datum)
    requires Formed(a) && Formed(b) && ConcreteType(a).Some? && ConcreteType(b).Some?
    requires NumericType(ConcreteType(a).value) && NumericType(ConcreteType(b).value)
    requires Mem(Type(if ConcreteType(a) == ConcreteType(b) then ConcreteType(a).value else "number"), v)
    ensures Mem(a, v) || Mem(b, v)
  {
    hide ConcreteType, Formed;
    var lt, rt := ConcreteType(a), ConcreteType(b);
    var t := if lt == rt then lt.value else "number";
    assert OfType(v, t) by {
      var s :| s in Type(t).types && OfType(v, s);
    }
    if lt == rt || lt.value == "number" { NumbersAll(a, v); } else { NumbersAll(b, v); }
  }

  // --- properties ---

  // The type and everything in it that a value could hold has a value.
  ghost predicate Filled(n: Node)
    decreases n
  {
    && (exists v :: Mem(n, v))
    && (n.anyOf.Variants? ==> forall b :: b in n.anyOf.all ==> Filled(b))
    && (n.oneOf.Variants? ==> forall b :: b in n.oneOf.all ==> Filled(b))
    && (n.props.Props? ==> forall name :: name in n.props.all ==> Filled(n.props.all[name]))
  }

  // An object with a value under every required name, and under the one asked for.
  lemma SomeObject(n: Node, name: string, u: Datum) returns (v: Datum)
    requires Formed(n) && Filled(n) && n.types != [] && n.props.Props? && n.anyOf.NoVariants? && n.oneOf.NoVariants? && name in n.props.all
    requires Mem(n.props.all[name], u) || (u == VNull && !IsRequired(n, name))
    ensures Mem(n, v) && FieldOf(v, name) == u
  {
    hide Formed, Filled;
    var props := n.props.all;
    var keeps := Mem(props[name], u);
    var todo := set k | k in props && (k != name || keeps) && (k == name || IsRequired(n, k));
    ghost var all := todo;
    var out: map<string, Datum> := map[];
    while todo != {}
      invariant todo <= all && out.Keys == all - todo
      invariant forall k :: k in out ==> Mem(props[k], out[k]) && (k == name ==> out[k] == u)
    {
      var k :| k in todo;
      var x := u;
      if k != name {
        assert Filled(props[k]) by { FilledProp(n, k); }
        x := Member(props[k]);
      }
      out := out[k := x];
      todo := todo - {k};
    }
    v := VObj(out);
    ObjectMem(n, out);
  }

  lemma FilledProp(n: Node, k: string)
    requires Filled(n) && n.props.Props? && k in n.props.all
    ensures Filled(n.props.all[k])
  {
  }

  lemma Member(n: Node) returns (v: Datum)
    requires Filled(n)
    ensures Mem(n, v)
  {
    v :| Mem(n, v);
  }

  lemma ObjectMem(n: Node, fields: map<string, Datum>)
    requires Formed(n) && n.types != [] && n.props.Props? && n.anyOf.NoVariants? && n.oneOf.NoVariants?
    requires forall k :: k in fields ==> k in n.props.all && Mem(n.props.all[k], fields[k])
    requires forall k :: k in n.props.all && IsRequired(n, k) ==> k in fields
    ensures Mem(n, VObj(fields))
  {
    assert PropsOf(n) == n.props.all;
    assert OfType(VObj(fields), "object") && n.types[0] in n.types;
    assert FieldsMem(n, fields);
  }

  lemma {:induction false} HitsFrom(n: Node, vs: seq<Node>, name: string, r: Node) returns (b: Node)
    requires Inside(n, vs) && r in Hits(n, vs, name)
    ensures b in vs && !IsNullType(b) && Lookup(b, name) == Ok(r)
    decreases |vs|
  {
    TailInside(n, vs);
    if !IsNullType(vs[0]) && Lookup(vs[0], name) == Ok(r) {
      b := vs[0];
    } else {
      b := HitsFrom(n, vs[1..], name, r);
    }
  }

  lemma MergedFrom(results: seq<Node>, exclusive: bool, u: Datum) returns (r: Node)
    requires results != [] && Mem(Merge(results, exclusive), u)
    ensures r in results && Mem(r, u)
  {
    if AllSame(results) {
      r := results[0];
    } else {
      r :| r in results && Mem(r, u);
    }
  }

  // Every value of a property's type is what some value of the type has there.
  lemma {:induction false} LookupTight(n: Node, name: string, u: Datum) returns (v: Datum)
    requires Shaped(n) && !IsEmpty(n) && Filled(n)
    requires Lookup(n, name).Ok? && Shaped(Lookup(n, name).value) && Mem(Lookup(n, name).value, u)
    ensures Mem(n, v) && FieldOf(v, name) == u
    decreases n, 1
  {
    if VariantsOf(n).Variants? {
      v := LookupUnionTight(n, VariantsOf(n).all, name, n.anyOf.NoVariants?, u);
    } else {
      var p := n.props.all[name];
      WithNullExactly(p, u);
      v := SomeObject(n, name, u);
    }
  }

  lemma {:induction false} LookupUnionTight(n: Node, vs: seq<Node>, name: string, exclusive: bool, u: Datum) returns (v: Datum)
    requires Shaped(n) && !IsEmpty(n) && Filled(n) && VariantsOf(n) == Variants(vs) && Inside(n, vs)
    requires LookupUnion(n, vs, name, exclusive).Ok?
    requires Shaped(LookupUnion(n, vs, name, exclusive).value) && Mem(LookupUnion(n, vs, name, exclusive).value, u)
    ensures Mem(n, v) && FieldOf(v, name) == u
    decreases n, 0
  {
    hide Lookup, HasNull;
    var results := Hits(n, vs, name);
    if results == [] {
      assert vs != [] && vs[0] in vs;
      NullOnly(Type("null"), u);
      v := NullThere(n, vs, name);
    } else {
      var merged := Merge(results, exclusive);
      if LookupUnion(n, vs, name, exclusive).value != merged { WithNullShaped(merged); }
      WithNullExactly(merged, u);
      if Mem(merged, u) {
        var r := MergedFrom(results, exclusive, u);
        var b := HitsFrom(n, vs, name, r);
        MergeShaped(results, r, exclusive);
        v := LookupTight(b, name, u);
      } else {
        v := NullThere(n, vs, name);
      }
    }
  }

  // Some variant is null, or lacks the property.
  lemma NullThere(n: Node, vs: seq<Node>, name: string) returns (v: Datum)
    requires Shaped(n) && !IsEmpty(n) && Filled(n) && VariantsOf(n) == Variants(vs) && Inside(n, vs)
    requires Missed(n, vs, name) || exists b :: b in vs && IsNullType(b)
    ensures Mem(n, v) && FieldOf(v, name) == VNull
  {
    if b :| b in vs && IsNullType(b) {
      v := VNull;
      NullOnly(b, VNull);
    } else {
      var b :| b in vs && !IsNullType(b) && Lookup(b, name).Err?;
      v := Member(b);
      LookupMisses(b, name, v);
    }
  }

  // The type of a property admits exactly the values that the values of the type have there.
  lemma LookupExactly(n: Node, name: string, u: Datum)
    requires Shaped(n) && !IsEmpty(n) && Filled(n) && Lookup(n, name).Ok? && Shaped(Lookup(n, name).value)
    ensures Mem(Lookup(n, name).value, u) <==> exists v :: Mem(n, v) && FieldOf(v, name) == u
  {
    if v :| Mem(n, v) && FieldOf(v, name) == u { LookupMem(n, name, v); }
    if Mem(Lookup(n, name).value, u) { var v := LookupTight(n, name, u); }
  }

  // --- elements ---

  // Something besides null is left at every depth of a union.
  predicate Solid(n: Node)
    decreases n
  {
    && HasOther(n)
    && (n.anyOf.Variants? ==> forall b :: b in n.anyOf.all && !IsNullType(b) ==> Solid(b))
    && (n.oneOf.Variants? ==> forall b :: b in n.oneOf.all && !IsNullType(b) ==> Solid(b))
  }

  lemma SolidInside(n: Node, b: Node)
    requires Shaped(n) && Solid(n) && !IsNullType(b) && VariantsOf(StripNull(n)).Variants? && b in VariantsOf(StripNull(n)).all
    ensures Solid(b)
  {
    if n.types == [] && StripNull(n) != n {
      var vs := if n.oneOf.Variants? then n.oneOf.all else n.anyOf.all;
      var rest := NonNullVariants(vs);
      assert forall c :: c in rest ==> c in vs && Solid(c);
      if |rest| == 1 { assert rest[0] in rest; }
    }
  }

  lemma {:induction false} IndexTight(n: Node, u: Datum) returns (v: Datum, i: int)
    requires Shaped(n) && !IsEmpty(n) && Filled(n) && Solid(n)
    requires Index(n).Ok? && Shaped(Index(n).value) && Mem(Index(n).value, u)
    ensures Mem(n, v) && ElementOf(v, i) == u
    decreases n
  {
    if u == VNull {
      v := Member(n);
      i := -1;
    } else {
      v := ElementTight(n, u);
      i := 0;
    }
  }

  lemma {:induction false} ElementTight(n: Node, u: Datum) returns (v: Datum)
    requires Shaped(n) && !IsEmpty(n) && Solid(n) && u != VNull
    requires Index(n).Ok? && Shaped(Index(n).value) && Mem(Index(n).value, u)
    ensures Mem(n, v) && ElementOf(v, 0) == u
    decreases n
  {
    StripSmaller(n);
    StrippedVariants(n);
    var r := StripNull(n);
    if VariantsOf(r).Variants? {
      var vs := VariantsOf(r).all;
      var results := Elements(n, vs);
      if results == [] {
        NullOnly(Type("null"), u);
      }
      var merged := Merge(results, false);
      if IndexUnion(n, vs) != merged { WithNullShaped(merged); }
      WithNullExactly(merged, u);
      var one := MergedFrom(results, false, u);
      var b := ElementsFrom(n, vs, one);
      MergeShaped(results, one, false);
      assert Solid(b) by { SolidInside(n, b); }
      v := ElementTight(b, u);
      assert Mem(r, v);
      StripNullTight(n, v);
    } else {
      v := VArr([u]);
      if r.items.Items? { WithNullExactly(r.items.of, u); }
      assert OfType(v, "array") && "array" in r.types;
      assert Mem(r, v);
      StripNullTight(n, v);
    }
  }
}
