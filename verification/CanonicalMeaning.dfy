/**
 The canonical form admits the same values, bounds aside and unions read as any-of; where
 bounds or exactly-one count, it does not.
 */
module CanonicalMeaning {
  import opened Common
  import opened Schema
  import opened Sorting
  import opened Expression
  import opened Inference
  import opened Membership
  import opened Canonical

  // --- membership with enums ---

  // What a value must be for a list of enum values; an unset list asks nothing.
  type Enums = (Option<seq<Value>>, Datum) -> bool

  ghost predicate Neutral(en: Enums) {
    forall o, v :: Unset(o) ==> en(o, v)
  }

  predicate MemBy(en: Enums, n: Node, v: Datum)
    decreases n, 1
  {
    if IsEmpty(n) then true
    else if n.anyOf.Variants? then exists b :: b in n.anyOf.all && MemBy(en, b, v)
    else if n.oneOf.Variants? then exists b :: b in n.oneOf.all && MemBy(en, b, v)
    else
      && Typed(n, v) && en(n.enums, v)
      && (v.VObj? ==> FieldsBy(en, n, v.fields))
      && (v.VArr? && n.items.Items? ==> forall x :: x in v.items ==> MemBy(en, n.items.of, x))
  }

  predicate FieldsBy(en: Enums, n: Node, fields: map<string, Datum>)
    decreases n, 0
  {
    && (forall name :: name in fields ==> name in PropsOf(n))
    && (forall name :: name in PropsOf(n) ==>
          if name in fields then MemBy(en, PropsOf(n)[name], fields[name]) else !IsRequired(n, name))
  }

  // Without a look at the enums this is membership in a type.
  const ANY_LIST: Enums := (o, v) => true

  lemma {:induction false} MemIsMemBy(n: Node, v: Datum)
    ensures Mem(n, v) <==> MemBy(ANY_LIST, n, v)
    decreases n
  {
    if n.anyOf.Variants? {
      forall b | b in n.anyOf.all ensures Mem(b, v) <==> MemBy(ANY_LIST, b, v) { MemIsMemBy(b, v); }
    } else if n.oneOf.Variants? {
      forall b | b in n.oneOf.all ensures Mem(b, v) <==> MemBy(ANY_LIST, b, v) { MemIsMemBy(b, v); }
    } else {
      if v.VObj? {
        forall name | name in PropsOf(n) && name in v.fields
          ensures Mem(PropsOf(n)[name], v.fields[name]) <==> MemBy(ANY_LIST, PropsOf(n)[name], v.fields[name])
        {
          MemIsMemBy(PropsOf(n)[name], v.fields[name]);
        }
      }
      if v.VArr? && n.items.Items? {
        forall x | x in v.items ensures Mem(n.items.of, x) <==> MemBy(ANY_LIST, n.items.of, x) { MemIsMemBy(n.items.of, x); }
      }
    }
  }

  // The value is one of the list, as numbers are compared.
  predicate IsListed(o: Option<seq<Value>>, v: Datum) {
    Unset(o) || exists x :: x in o.value && SameJson(x, v)
  }

  predicate SameJson(x: Value, v: Datum)
    decreases x
  {
    match x
    case Null => v.VNull?
    case Bool(b) => v == VBool(b)
    case Num(r) => Numeric(v) && AsReal(v) == r
    case Str(s) => v == VStr(s)
    case Arr(items) => v.VArr? && |v.items| == |items| && forall i :: 0 <= i < |items| ==> SameJson(items[i], v.items[i])
    case Obj(fields) => v.VObj? && v.fields.Keys == fields.Keys && forall k :: k in fields ==> SameJson(fields[k], v.fields[k])
  }

  ghost predicate SomeMem(en: Enums, vs: seq<Node>, v: Datum) {
    exists b :: b in vs && MemBy(en, b, v)
  }

  predicate UnionKind(kind: Kind) {
    kind == One || kind == Any
  }

  lemma PureMeans(en: Enums, c: Node, kind: Kind, v: Datum)
    requires Neutral(en) && Formed(c) && Pure(c, kind) && UnionKind(kind)
    ensures MemBy(en, c, v) <==> SomeMem(en, Composed(c, kind), v)
    ensures forall b :: b in Composed(c, kind) ==> Formed(b)
  {
  }

  lemma {:induction false} FlatMeans(en: Enums, less: Order, n: Node, vs: seq<Node>, kind: Kind, v: Datum)
    requires StrictOrder(less) && Neutral(en) && Inside(n, vs) && UnionKind(kind) && forall b :: b in vs ==> Formed(b)
    ensures SomeMem(en, Flat(less, n, vs, kind), v) <==> SomeMem(en, vs, v)
    ensures forall b :: b in Flat(less, n, vs, kind) ==> Formed(b)
    ensures vs != [] ==> Flat(less, n, vs, kind) != []
    decreases n, 0, |vs|
  {
    hide Pure, MemBy, Formed, Canon, Composed;
    if vs != [] {
      TailInside(n, vs);
      assert vs[0] in vs;
      CanonMeansBy(en, less, vs[0], v);
      FlatMeans(en, less, n, vs[1..], kind, v);
      FlatCanonical(less, n, vs, kind);
      var c := Canon(less, vs[0]);
      var head := if Pure(c, kind) then Composed(c, kind) else [c];
      if Pure(c, kind) { PureMeans(en, c, kind, v); }
      assert SomeMem(en, head, v) <==> MemBy(en, vs[0], v) by { assert c in [c]; }
      SomeJoin(en, head, Flat(less, n, vs[1..], kind), v);
      assert vs == [vs[0]] + vs[1..];
      SomeJoin(en, [vs[0]], vs[1..], v);
      assert SomeMem(en, [vs[0]], v) <==> MemBy(en, vs[0], v) by { assert vs[0] in [vs[0]]; }
    }
  }

  lemma SomeJoin(en: Enums, a: seq<Node>, b: seq<Node>, v: Datum)
    ensures SomeMem(en, a + b, v) <==> SomeMem(en, a, v) || SomeMem(en, b, v)
  {
    hide MemBy;
    if SomeMem(en, a, v) { var x :| x in a && MemBy(en, x, v); assert x in a + b; }
    if SomeMem(en, b, v) { var x :| x in b && MemBy(en, x, v); assert x in a + b; }
  }

  lemma {:induction false} VariantsMean(en: Enums, less: Order, n: Node, vs: seq<Node>, kind: Kind, v: Datum) returns (all: seq<Node>)
    requires StrictOrder(less) && Neutral(en) && Inside(n, vs) && UnionKind(kind) && vs != [] && forall b :: b in vs ==> Formed(b)
    ensures CanonVariants(less, n, vs, kind) == Variants(all) && all != []
    ensures SomeMem(en, all, v) <==> SomeMem(en, vs, v)
    ensures forall b :: b in all ==> Formed(b)
    decreases n, 0, |vs| + 1
  {
    hide Pure, MemBy, Formed, Canon;
    var flat := Flat(less, n, vs, kind);
    all := SortDedup(less, flat);
    FlatMeans(en, less, n, vs, kind, v);
    SortAscends(less, flat);
  }

  lemma {:induction false} PartsMean(en: Enums, less: Order, n: Node, v: Datum)
    requires StrictOrder(less) && Neutral(en) && Formed(n)
    ensures Formed(Parts(less, n)) && (MemBy(en, Parts(less, n), v) <==> MemBy(en, n, v))
    decreases n, 1
  {
    hide Canon, OfType;
    var m := Parts(less, n);
    if IsEmpty(n) {
    } else if n.anyOf.Variants? {
      var all := VariantsMean(en, less, n, n.anyOf.all, Any, v);
      assert m.oneOf == CanonVariants(less, n, [], One) == NoVariants;
      UnionBy(en, n, m, n.anyOf.all, all, v);
    } else if n.oneOf.Variants? {
      var all := VariantsMean(en, less, n, n.oneOf.all, One, v);
      assert m.anyOf == CanonVariants(less, n, [], Any) == NoVariants;
      UnionBy(en, n, m, n.oneOf.all, all, v);
    } else {
      PlainParts(en, less, n, v);
    }
  }

  lemma UnionBy(en: Enums, n: Node, m: Node, vs: seq<Node>, all: seq<Node>, v: Datum)
    requires !IsEmpty(n) && n.types == [] == m.types && vs != [] && all != []
    requires (n.anyOf == Variants(vs) && m.anyOf == Variants(all) && n.oneOf.NoVariants? && m.oneOf.NoVariants?) ||
             (n.anyOf.NoVariants? && m.anyOf.NoVariants? && n.oneOf == Variants(vs) && m.oneOf == Variants(all))
    requires (SomeMem(en, all, v) <==> SomeMem(en, vs, v)) && forall b :: b in all ==> Formed(b)
    ensures Formed(m) && (MemBy(en, m, v) <==> MemBy(en, n, v))
  {
  }

  lemma {:induction false} PartFields(en: Enums, less: Order, n: Node, m: Node, fields: map<string, Datum>)
    requires StrictOrder(less) && Neutral(en) && Formed(n) && !IsEmpty(n) && n.anyOf.NoVariants? && n.oneOf.NoVariants?
    requires m.props == (if n.props.Props? then Props(map k | k in n.props.all :: Canon(less, n.props.all[k])) else NoProps)
    requires forall name :: IsRequired(m, name) <==> IsRequired(n, name)
    ensures FieldsBy(en, m, fields) <==> FieldsBy(en, n, fields)
    ensures m.props.Props? ==> forall name :: name in m.props.all ==> Formed(m.props.all[name])
    decreases n, 0, 0
  {
    hide Canon, IsRequired, MemBy;
    assert PropsOf(m).Keys == PropsOf(n).Keys;
    forall name | name in PropsOf(n)
      ensures Formed(PropsOf(m)[name]) && (name in fields ==> (MemBy(en, PropsOf(m)[name], fields[name]) <==> MemBy(en, PropsOf(n)[name], fields[name])))
    {
      assert Formed(n.props.all[name]);
      CanonMeansBy(en, less, n.props.all[name], if name in fields then fields[name] else VNull);
    }
  }

  lemma {:induction false} PartItems(en: Enums, less: Order, n: Node, of: Node, items: seq<Datum>)
    requires StrictOrder(less) && Neutral(en) && n.items == Items(of) && Formed(of)
    ensures Formed(Canon(less, of))
    ensures (forall x :: x in items ==> MemBy(en, Canon(less, of), x)) <==> (forall x :: x in items ==> MemBy(en, of, x))
    decreases n, 0, 0
  {
    hide Canon, MemBy;
    CanonMeansBy(en, less, of, VNull);
    forall x | x in items ensures MemBy(en, Canon(less, of), x) <==> MemBy(en, of, x) { CanonMeansBy(en, less, of, x); }
  }

  lemma {:induction false} PlainParts(en: Enums, less: Order, n: Node, v: Datum)
    requires StrictOrder(less) && Neutral(en) && Formed(n) && !IsEmpty(n) && n.anyOf.NoVariants? && n.oneOf.NoVariants?
    ensures Formed(Parts(less, n)) && (MemBy(en, Parts(less, n), v) <==> MemBy(en, n, v))
    decreases n, 0, 1
  {
    hide Canon, OfType, FieldsBy, Ascending;
    var m := Parts(less, n);
    SortedAscends(n.types);
    OneType("object");
    if !Unset(n.required) { SortedAscends(n.required.value); }
    assert m.oneOf == CanonVariants(less, n, [], One) == NoVariants && m.anyOf == CanonVariants(less, n, [], Any) == NoVariants;
    assert forall name :: IsRequired(m, name) <==> IsRequired(n, name);
    PartFields(en, less, n, m, if v.VObj? then v.fields else map[]);
    if n.items.Items? { PartItems(en, less, n, n.items.of, if v.VArr? then v.items else []); }
    assert Typed(m, v) <==> Typed(n, v);
  }

  lemma OneType(t: string)
    ensures Ascending(TextLess, [t])
  {
  }

  // --- collapsing ---

  lemma {:induction false} TypesIn(vs: seq<Node>, t: string)
    ensures t in TypesOf(vs) <==> exists b :: b in vs && t in b.types
  {
    if vs != [] {
      TypesIn(vs[1..], t);
      assert vs == [vs[0]] + vs[1..];
    }
  }

  lemma SimpleMeans(en: Enums, b: Node, v: Datum)
    requires Neutral(en) && Simple(b) && Formed(b)
    ensures MemBy(en, b, v) <==> Typed(b, v) && (v.VObj? ==> v.fields == map[])
  {
    if v.VObj? { assert FieldsBy(en, b, v.fields) <==> v.fields.Keys == {}; }
  }

  lemma MergedMeans(en: Enums, vs: seq<Node>, v: Datum)
    requires Neutral(en) && vs != [] && AllSimple(vs) && forall b :: b in vs ==> Formed(b)
    ensures Formed(EMPTY.(types := Sorted(TypesOf(vs))))
    ensures MemBy(en, EMPTY.(types := Sorted(TypesOf(vs))), v) <==> SomeMem(en, vs, v)
  {
    hide OfType, MemBy, Simple;
    var m := EMPTY.(types := Sorted(TypesOf(vs)));
    SimpleTypes(vs);
    SortedAscends(TypesOf(vs));
    MergedSimple(m);
    SimpleMeans(en, m, v);
    if SomeMem(en, vs, v) {
      var b :| b in vs && MemBy(en, b, v);
      SimpleMeans(en, b, v);
      assert b.types != [] by { assert AllSimple(vs); SimpleTyped(b); }
      var t :| t in b.types && OfType(v, t);
      TypesIn(vs, t);
      assert t in m.types;
    }
    if MemBy(en, m, v) {
      var t :| t in m.types && OfType(v, t);
      TypesIn(vs, t);
      var b :| b in vs && t in b.types;
      SimpleMeans(en, b, v);
    }
  }

  lemma SimpleTyped(b: Node)
    requires Simple(b)
    ensures b.types != []
  {
  }

  lemma MergedSimple(m: Node)
    requires m.types != [] && m == EMPTY.(types := m.types)
    ensures Simple(m) && Formed(m)
  {
  }

  lemma CollapseUnionMeans(en: Enums, m: Node, vs: seq<Node>, v: Datum)
    requires Neutral(en) && Formed(m) && vs != [] && (forall b :: b in vs ==> Formed(b)) && (MemBy(en, m, v) <==> SomeMem(en, vs, v))
    ensures Formed(CollapseUnion(m, vs)) && (MemBy(en, CollapseUnion(m, vs), v) <==> MemBy(en, m, v))
  {
    hide MemBy, Formed, Simple;
    if |vs| == 1 {
      assert vs[0] in vs && forall b :: b in vs ==> b == vs[0];
    } else if AllSimple(vs) {
      MergedMeans(en, vs, v);
    }
  }

  lemma CollapseMeans(en: Enums, m: Node, v: Datum)
    requires Neutral(en) && Formed(m)
    ensures Formed(Collapse(m)) && (MemBy(en, Collapse(m), v) <==> MemBy(en, m, v))
  {
    if Pure(m, One) {
      PureMeans(en, m, One, v);
      CollapseUnionMeans(en, m, m.oneOf.all, v);
    } else if Pure(m, Any) {
      PureMeans(en, m, Any, v);
      CollapseUnionMeans(en, m, m.anyOf.all, v);
    } else {
      assert !Pure(m, All);
    }
  }

  lemma {:induction false} CanonMeansBy(en: Enums, less: Order, n: Node, v: Datum)
    requires StrictOrder(less) && Neutral(en) && Formed(n)
    ensures Formed(Canon(less, n)) && (MemBy(en, Canon(less, n), v) <==> MemBy(en, n, v))
    decreases n, 2
  {
    hide MemBy, Formed;
    PartsMean(en, less, n, v);
    CollapseMeans(en, Parts(less, n), v);
  }

  // The canonical form admits exactly the values the node admits.
  lemma CanonMeans(less: Order, n: Node, v: Datum)
    requires StrictOrder(less) && Formed(n)
    ensures Formed(Canon(less, n)) && (Mem(Canon(less, n), v) <==> Mem(n, v))
  {
    hide Mem, MemBy, Formed, Canon, StrictOrder;
    CanonMeansBy(ANY_LIST, less, n, v);
    MemIsMemBy(n, v);
    MemIsMemBy(Canon(less, n), v);
  }

  // And exactly those of them that its enums list, at every depth.
  lemma CanonKeepsEnums(less: Order, n: Node, v: Datum)
    requires StrictOrder(less) && Formed(n)
    ensures MemBy(IsListed, Canon(less, n), v) <==> MemBy(IsListed, n, v)
  {
    hide MemBy, Formed, Canon, StrictOrder;
    CanonMeansBy(IsListed, less, n, v);
  }

  // --- where it does not ---

  // Exactly-one of two equal variants refuses everything; the canonical form is the variant.
  lemma TwiceIsOnce(less: Order)
    requires StrictOrder(less)
    ensures var n := OneOf([Type("string"), Type("string")]);
            Conform(n, Str("a")) == None && Conform(Canon(less, n), Str("a")) == Some(Str("a"))
  {
    var s := Type("string");
    var vs := [s, s];
    var n := OneOf(vs);
    assert "string" in s.types && HasType(Str("a"), "string");
    assert vs[1..] == [s] && vs[1..][1..] == [];
    assert Conform(s, Str("a")) == Some(Str("a"));
    assert Matches(n, vs[1..], Str("a")) == 1 + Matches(n, vs[1..][1..], Str("a"));
    assert Matches(n, vs, Str("a")) == 2;
    StringCanon(less);
    assert Flat(less, n, vs, One) == vs by {
      assert Flat(less, n, vs[1..], One) == [s] + Flat(less, n, vs[1..][1..], One);
    }
    SortedStays(less, [s]);
    SortSame(less, vs, [s]);
    OneStringLeft(less, n, vs, s);
  }

  lemma OneStringLeft(less: Order, n: Node, vs: seq<Node>, s: Node)
    requires n == OneOf(vs) && s == Type("string") && vs == [s, s] && SortDedup(less, Flat(less, n, vs, One)) == [s]
    ensures Canon(less, n) == s
  {
    var m := Parts(less, n);
    assert m.oneOf == CanonVariants(less, n, vs, One) == Variants([s]);
    assert m.anyOf == CanonVariants(less, n, [], Any) == NoVariants;
    assert m.allOf == CanonVariants(less, n, [], All) == NoVariants;
    assert Pure(m, One);
  }

  lemma StringCanon(less: Order)
    ensures Canon(less, Type("string")) == Type("string") && !Pure(Type("string"), One)
  {
    SortedAscends(["string"]);
  }

  // Variants that carry bounds are folded into a type list as if they carried none.
  lemma BoundsAreFolded(less: Order)
    requires StrictOrder(less)
    ensures var n := OneOf([AT_LEAST_FIVE, Type("string")]);
            Conform(n, Num(1.0)) == None && Conform(Canon(less, n), Num(1.0)) == Some(Num(1.0))
  {
    var s := Type("string");
    var vs := [AT_LEAST_FIVE, s];
    var n := OneOf(vs);
    FiveAndString(n, vs, s);
    StringCanon(less);
    FiveCanon(less);
    var flat := Flat(less, n, vs, One);
    assert flat == vs by {
      assert vs[1..] == [s] && vs[1..][1..] == [];
      assert Flat(less, n, vs[1..], One) == [s] + Flat(less, n, vs[1..][1..], One);
    }
    SortAscends(less, flat);
    var all := SortDedup(less, flat);
    assert AT_LEAST_FIVE in flat && s in flat by { assert flat[0] == AT_LEAST_FIVE && flat[1] == s; }
    FoldedTypes(less, n, vs, all);
  }

  const AT_LEAST_FIVE: Node := Type("integer").(minimum := Some(5.0))

  lemma FiveCanon(less: Order)
    ensures Canon(less, AT_LEAST_FIVE) == AT_LEAST_FIVE && !Pure(AT_LEAST_FIVE, One) && Simple(AT_LEAST_FIVE)
  {
    SortedAscends(["integer"]);
  }

  lemma FiveAndString(n: Node, vs: seq<Node>, s: Node)
    requires s == Type("string") && vs == [AT_LEAST_FIVE, s] && n == OneOf(vs)
    ensures Conform(n, Num(1.0)) == None
  {
    assert (1.0).Floor == 1;
    assert AT_LEAST_FIVE.types == ["integer"] && s.types == ["string"];
    assert Conform(AT_LEAST_FIVE, Num(1.0)) == None;
    assert Conform(s, Num(1.0)) == None by { assert forall t :: t in s.types ==> t == "string"; }
    assert vs[1..] == [s] && vs[1..][1..] == [];
    assert Matches(n, vs[1..], Num(1.0)) == 0;
    assert Matches(n, vs, Num(1.0)) == 0;
  }

  lemma FoldedTypes(less: Order, n: Node, vs: seq<Node>, all: seq<Node>)
    requires vs == [AT_LEAST_FIVE, Type("string")] && n == OneOf(vs) && all == SortDedup(less, Flat(less, n, vs, One))
    requires (forall b :: b in all <==> b in vs) && AT_LEAST_FIVE in all && Type("string") in all
    ensures Conform(Canon(less, n), Num(1.0)) == Some(Num(1.0))
  {
    hide Conform;
    var m := Parts(less, n);
    assert m.oneOf == CanonVariants(less, n, vs, One) == Variants(all);
    assert m.anyOf == CanonVariants(less, n, [], Any) == NoVariants;
    assert m.allOf == CanonVariants(less, n, [], All) == NoVariants;
    assert Pure(m, One);
    assert |all| != 1 by {
      assert AT_LEAST_FIVE.minimum.Some? && Type("string").minimum.None?;
    }
    FiveCanon(less);
    assert AllSimple(all) by { forall b | b in all ensures Simple(b) { assert b == AT_LEAST_FIVE || b == Type("string"); } }
    SortedAscends(TypesOf(all));
    TypesIn(all, "integer");
    var c := EMPTY.(types := Sorted(TypesOf(all)));
    assert Canon(less, n) == c;
    assert "integer" in c.types by { assert AT_LEAST_FIVE.types[0] == "integer"; }
    IntegerConforms(c);
  }

  lemma IntegerConforms(c: Node)
    requires c == EMPTY.(types := c.types) && "integer" in c.types
    ensures Conform(c, Num(1.0)) == Some(Num(1.0))
  {
    assert (1.0).Floor == 1;
    assert HasType(Num(1.0), "integer");
  }
}
