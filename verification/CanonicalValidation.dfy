/** Canonical forms validate as before: where there is no union, no keyword is lost or changed. */
module CanonicalValidation {
  import opened Common
  import opened Schema
  import opened Sorting
  import opened Canonical

  predicate UnionFree(n: Node)
    decreases n
  {
    && n.oneOf.NoVariants? && n.anyOf.NoVariants? && n.allOf.NoVariants?
    && (n.props.Props? ==> forall name :: name in n.props.all ==> UnionFree(n.props.all[name]))
    && (n.items.Items? ==> UnionFree(n.items.of))
  }

  lemma CanonIsParts(less: Order, n: Node)
    requires UnionFree(n) && Normalized(n)
    ensures var c := Canon(less, n);
            && c == n.(props := c.props, items := c.items, types := c.types, required := c.required)
            && (forall t :: t in c.types <==> t in n.types)
            && (c.required.Some? <==> n.required.Some?)
            && (n.required.Some? ==> forall f :: f in c.required.value <==> f in n.required.value)
            && (c.props.Props? <==> n.props.Props?) && (c.items.Items? <==> n.items.Items?)
            && (n.props.Props? ==> c.props.all.Keys == n.props.all.Keys && forall k :: k in n.props.all ==> c.props.all[k] == Canon(less, n.props.all[k]))
            && (n.items.Items? ==> c.items.of == Canon(less, n.items.of))
  {
    hide Collapse;
    NothingCollapses(less, n);
    assert Canon(less, n) == Parts(less, n);
    SortedAre(n.types);
    if n.required.Some? { SortedAre(n.required.value); }
  }

  lemma NothingCollapses(less: Order, n: Node)
    requires n.oneOf.NoVariants? && n.anyOf.NoVariants? && n.allOf.NoVariants?
    ensures var p := Parts(less, n);
            p.oneOf.NoVariants? && p.anyOf.NoVariants? && p.allOf.NoVariants? && Collapse(p) == p
  {
    hide Canon, Flat;
    var p := Parts(less, n);
    assert ListOf(n.oneOf) == [] && ListOf(n.anyOf) == [] && ListOf(n.allOf) == [];
    assert p.oneOf == CanonVariants(less, n, [], One) && p.anyOf == CanonVariants(less, n, [], Any) && p.allOf == CanonVariants(less, n, [], All);
    assert Composed(p, One) == [] && Composed(p, Any) == [] && Composed(p, All) == [];
  }

  lemma SortedAre(ts: seq<string>)
    ensures forall t :: t in Sorted(ts) <==> t in ts
    ensures Sorted(ts) == [] <==> ts == []
  {
    TextOrder();
    SortAscends(TextLess, ts);
    if ts != [] { assert ts[0] in Sorted(ts); }
    if Sorted(ts) != [] { assert Sorted(ts)[0] in ts; }
  }

  // A value is validated by the canonical form as it is by the node itself: types, bounds, lengths,
  // counts, enumerated values, required keys and defaults are all still there.
  lemma {:induction false} CanonValidates(less: Order, n: Node, v: Value)
    requires UnionFree(n) && Normalized(n)
    ensures Conform(Canon(less, n), v) == Conform(n, v)
    ensures Canon(less, n).default == n.default
    decreases n, 1
  {
    hide Canon;
    CanonIsParts(less, n);
    var c := Canon(less, n);
    SameKeywords(n, c, v);
    if n.(default := None) != EMPTY && TypeOk(n, v) && EnumOk(n, v) {
      match v
      case Obj(fields) => ObjectsValidate(less, n, fields);
      case Arr(items) => ArraysValidate(less, n, items);
      case _ =>
    }
  }

  lemma SameKeywords(n: Node, c: Node, v: Value)
    requires c == n.(props := c.props, items := c.items, types := c.types, required := c.required)
    requires (forall t :: t in c.types <==> t in n.types) && (c.required.Some? <==> n.required.Some?)
    requires (c.props.Props? <==> n.props.Props?) && (c.items.Items? <==> n.items.Items?)
    ensures IsEmpty(c) <==> IsEmpty(n)
    ensures (TypeOk(c, v) <==> TypeOk(n, v)) && (EnumOk(c, v) <==> EnumOk(n, v)) && (ScalarOk(c, v) <==> ScalarOk(n, v))
    ensures IsObjectSchema(c) <==> IsObjectSchema(n)
  {
    assert c.types == [] <==> n.types == [] by {
      if c.types != [] { assert c.types[0] in n.types; }
      if n.types != [] { assert n.types[0] in c.types; }
    }
  }

  lemma {:induction false} ObjectsValidate(less: Order, n: Node, fields: map<string, Value>)
    requires UnionFree(n) && Normalized(n)
    ensures ConformObject(Canon(less, n), fields) == ConformObject(n, fields)
    decreases n, 0
  {
    hide Canon, Conform;
    CanonIsParts(less, n);
    var c := Canon(less, n);
    assert PropsOf(c).Keys == PropsOf(n).Keys;
    forall name | name in PropsOf(n)
      ensures name in fields ==> Conform(PropsOf(c)[name], fields[name]) == Conform(PropsOf(n)[name], fields[name])
      ensures PropsOf(c)[name].default == PropsOf(n)[name].default
      ensures Refuses(c, fields, name) <==> Refuses(n, fields, name)
    {
      CanonValidates(less, PropsOf(n)[name], if name in fields then fields[name] else Null);
    }
    if ConformObject(n, fields).Some? {
      assert ConformObject(c, fields).Some?;
      assert ConformObject(c, fields).value.fields == ConformObject(n, fields).value.fields;
    }
  }

  lemma {:induction false} ArraysValidate(less: Order, n: Node, items: seq<Value>)
    requires UnionFree(n) && Normalized(n)
    ensures ConformArray(Canon(less, n), items) == ConformArray(n, items)
    decreases n, 0
  {
    hide Canon, Conform;
    CanonIsParts(less, n);
    var c := Canon(less, n);
    if n.items.Items? {
      forall i | 0 <= i < |items| ensures Conform(c.items.of, items[i]) == Conform(n.items.of, items[i]) {
        CanonValidates(less, n.items.of, items[i]);
      }
      if ConformArray(n, items).Some? {
        assert ConformArray(c, items).Some?;
        assert ConformArray(c, items).value.items == ConformArray(n, items).value.items;
      }
    }
  }
}
