/** The join of two types is no wider than it has to be: what neither side admits is mixed field by field. */
module JoinTight {
  import opened Common
  import opened Schema
  import opened Sorting
  import opened Expression
  import opened Inference
  import opened Membership
  import opened MembershipExact
  import opened Canonical
  import opened CanonicalMeaning
  import opened Join

  // Every type inside has something besides null, or is null itself.
  predicate Full(n: Node)
    decreases n
  {
    && (IsNullType(n) || HasOther(n))
    && (n.anyOf.Variants? ==> forall b :: b in n.anyOf.all ==> Full(b))
    && (n.oneOf.Variants? ==> forall b :: b in n.oneOf.all ==> Full(b))
    && (n.props.Props? ==> forall name :: name in n.props.all ==> Full(n.props.all[name]))
  }

  // v is a value of one side; or an object whose fields each lie between the two sides' types of that
  // property, absent or null where one side lacks it, with whatever both sides require.
  ghost predicate Between(a: Node, b: Node, v: Datum)
    decreases a, 1
  {
    Mem(a, v) || Mem(b, v) || (v.VObj? && MixedFields(a, StripNull(a), StripNull(b), v.fields))
  }

  ghost predicate MixedFields(a: Node, na: Node, nb: Node, fields: map<string, Datum>)
    decreases a, 0
  {
    && (forall k :: k in fields ==> k in PropsOf(na) || k in PropsOf(nb))
    && (forall k :: k in fields && k in PropsOf(na) && k in PropsOf(nb) ==> PropsOf(na)[k] < a && Between(PropsOf(na)[k], PropsOf(nb)[k], fields[k]))
    && (forall k :: k in fields && k in PropsOf(na) && k !in PropsOf(nb) ==> fields[k] == VNull || Mem(PropsOf(na)[k], fields[k]))
    && (forall k :: k in fields && k !in PropsOf(na) && k in PropsOf(nb) ==> fields[k] == VNull || Mem(PropsOf(nb)[k], fields[k]))
    && (forall k :: k in PropsOf(na) && k in PropsOf(nb) && IsRequired(na, k) && IsRequired(nb, k) ==> k in fields)
  }

  lemma FullStripped(n: Node)
    requires Full(n) && Joinable(n) && !IsNullType(n)
    ensures forall k :: k in PropsOf(StripNull(n)) ==> Full(PropsOf(StripNull(n))[k])
  {
    if n.types == [] && !IsEmpty(n) {
      var rest := NonNullVariants(VariantsOf(n).all);
      assert forall b :: b in rest ==> b in VariantsOf(n).all && Full(b);
      if |rest| == 1 { assert rest[0] in rest; }
    }
  }

  lemma {:induction false} MixedTight(less: Order, a: Node, na: Node, nb: Node, fields: map<string, Datum>)
    requires StrictOrder(less) && (forall k :: k in PropsOf(na) ==> PropsOf(na)[k] < a && Joinable(PropsOf(na)[k]) && Full(PropsOf(na)[k]))
    requires forall k :: k in PropsOf(nb) ==> Joinable(PropsOf(nb)[k]) && Full(PropsOf(nb)[k])
    requires Mem(ObjectOf(MergedProps(less, a, na, nb), na, nb), VObj(fields))
    ensures MixedFields(a, na, nb, fields)
    decreases a, 0
  {
    hide JoinNodes, Canon, Joinable, Full, Between, StripNull;
    var props := MergedProps(less, a, na, nb);
    var out := ObjectOf(props, na, nb);
    assert PropsOf(out) == props && FieldsMem(out, fields);
    forall k | k in fields
      ensures k in props && Mem(props[k], fields[k])
      ensures k in PropsOf(na) && k in PropsOf(nb) ==> Between(PropsOf(na)[k], PropsOf(nb)[k], fields[k])
      ensures k in PropsOf(na) && k !in PropsOf(nb) ==> fields[k] == VNull || Mem(PropsOf(na)[k], fields[k])
      ensures k !in PropsOf(na) && k in PropsOf(nb) ==> fields[k] == VNull || Mem(PropsOf(nb)[k], fields[k])
    {
      if k in PropsOf(na) && k in PropsOf(nb) {
        JoinIsTight(less, PropsOf(na)[k], PropsOf(nb)[k], fields[k]);
      } else if k in props {
        OneSided(less, if k in PropsOf(na) then PropsOf(na)[k] else PropsOf(nb)[k], fields[k]);
      }
    }
    forall k | k in PropsOf(na) && k in PropsOf(nb) && IsRequired(na, k) && IsRequired(nb, k) ensures k in fields {
      RequiredAre(na, nb, k);
      assert k in props && IsRequired(out, k);
    }
  }

  lemma OneSided(less: Order, p: Node, x: Datum)
    requires StrictOrder(less) && Joinable(p) && Mem(WithNull(Canon(less, p)), x)
    ensures x == VNull || Mem(p, x)
  {
    hide Canon, WithNull, Mem;
    JoinableForms(p);
    CanonMeans(less, p, x);
    WithNullExactly(Canon(less, p), x);
  }

  lemma {:induction false} MergedTight(less: Order, a: Node, b: Node, v: Datum)
    requires StrictOrder(less) && Joinable(a) && Joinable(b) && !IsNullType(a) && !IsNullType(b) && Full(a) && Full(b)
    requires Mem(Merged(less, a, b), v)
    ensures Between(a, b, v)
    decreases a, 1
  {
    hide StripNull, Joinable, JoinNodes, OfType, Formed, Full;
    StrippedProps(a);
    var na, nb := StripNull(a), StripNull(b);
    if IsObjectType(na) && IsObjectType(nb) {
      ObjectStripped(a);
      ObjectStripped(b);
      FullStripped(a);
      FullStripped(b);
      ObjectsOnly(ObjectOf(MergedProps(less, a, na, nb), na, nb), v);
      MixedTight(less, a, na, nb, v.fields);
    } else {
      var c :| c in [na, nb] && Mem(c, v);
      if c == na { SideTight(a, v); } else { SideTight(b, v); }
    }
  }

  lemma ObjectsOnly(m: Node, v: Datum)
    requires m.types == ["object"] && VariantsOf(m).NoVariants? && Mem(m, v)
    ensures v.VObj?
  {
    var t :| t in m.types && OfType(v, t);
  }

  lemma SideTight(n: Node, v: Datum)
    requires Joinable(n) && Full(n) && !IsNullType(n) && Mem(StripNull(n), v)
    ensures Mem(n, v)
  {
    JoinableForms(n);
    StripNullTight(n, v);
  }

  // What the join admits lies between its sides: a value of one of them, or an object that mixes the
  // fields of both.
  lemma {:induction false} JoinIsTight(less: Order, a: Node, b: Node, v: Datum)
    requires StrictOrder(less) && Joinable(a) && Joinable(b) && Full(a) && Full(b) && Mem(JoinNodes(less, a, b), v)
    ensures Between(a, b, v)
    decreases a, 2
  {
    hide Canon, Mem, Formed, StripNull, WithNull, Merged, HasNull, MixedFields, Joinable, Full;
    JoinableForms(a);
    JoinableForms(b);
    if NodesEqual(less, a, b) {
      CanonMeans(less, a, v);
    } else if IsNullType(a) {
      NullSide(less, a, b, v);
    } else if IsNullType(b) {
      NullSide(less, b, a, v);
    } else {
      JoinedForms(less, a, b);
      CanonMeans(less, Joined(less, a, b), v);
      MergedForms(less, a, b);
      WithNullExactly(Merged(less, a, b), v);
      if Mem(Merged(less, a, b), v) {
        MergedTight(less, a, b, v);
      } else {
        if HasNull(a) { NullIn(a); } else { NullIn(b); }
      }
    }
  }

  lemma NullSide(less: Order, a: Node, b: Node, v: Datum)
    requires StrictOrder(less) && Joinable(b) && Formed(a) && Formed(b) && IsNullType(a) && Mem(Canon(less, WithNull(b)), v)
    ensures Mem(a, v) || Mem(b, v)
  {
    hide Canon, Mem, WithNull;
    WithNullForms(b);
    CanonMeans(less, WithNull(b), v);
    WithNullExactly(b, v);
    if v == VNull { NullOnly(a, v); }
  }

  // Where the sides are not both objects, the join admits exactly what one of them does.
  lemma JoinIsUnion(less: Order, a: Node, b: Node, v: Datum)
    requires StrictOrder(less) && Joinable(a) && Joinable(b) && Full(a) && Full(b)
    requires !(IsObjectType(StripNull(a)) && IsObjectType(StripNull(b)))
    ensures Mem(JoinNodes(less, a, b), v) <==> Mem(a, v) || Mem(b, v)
  {
    hide Canon, Mem, Joinable, Full, JoinNodes, StripNull;
    if Mem(a, v) || Mem(b, v) { JoinAdmits(less, a, b, v); }
    if Mem(JoinNodes(less, a, b), v) { NotMixed(less, a, b, v); }
  }

  lemma NotMixed(less: Order, a: Node, b: Node, v: Datum)
    requires StrictOrder(less) && Joinable(a) && Joinable(b) && Full(a) && Full(b) && Mem(JoinNodes(less, a, b), v)
    requires !(IsObjectType(StripNull(a)) && IsObjectType(StripNull(b)))
    ensures Mem(a, v) || Mem(b, v)
  {
    hide Canon, Mem, Joinable, Full, StripNull, WithNull, HasNull;
    JoinableForms(a);
    JoinableForms(b);
    if NodesEqual(less, a, b) {
      CanonMeans(less, a, v);
    } else if IsNullType(a) {
      NullSide(less, a, b, v);
    } else if IsNullType(b) {
      NullSide(less, b, a, v);
    } else {
      JoinedForms(less, a, b);
      CanonMeans(less, Joined(less, a, b), v);
      MergedForms(less, a, b);
      WithNullExactly(Merged(less, a, b), v);
      if Mem(Merged(less, a, b), v) {
        PairTight(StripNull(a), StripNull(b), v);
        if Mem(StripNull(a), v) { SideTight(a, v); } else { SideTight(b, v); }
      } else {
        if HasNull(a) { NullIn(a); } else { NullIn(b); }
      }
    }
  }

  lemma PairTight(x: Node, y: Node, v: Datum)
    requires Mem(OneOf([x, y]), v)
    ensures Mem(x, v) || Mem(y, v)
  {
    var c :| c in [x, y] && Mem(c, v);
  }
}
