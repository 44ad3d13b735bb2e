/** The least upper bound of two types: it admits what each side admits, in either order. */
module Join {
  import opened Common
  import opened Schema
  import opened Sorting
  import opened Expression
  import opened Inference
  import opened Membership
  import opened Canonical
  import opened CanonicalMeaning

  predicate NodesEqual(less: Order, a: Node, b: Node) {
    Canon(less, a) == Canon(less, b)
  }

  predicate IsObjectType(n: Node) {
    "object" in n.types || n.props.Props?
  }

  // n with null off is no deeper than n.
  lemma StrippedProps(n: Node)
    ensures forall k :: k in PropsOf(StripNull(n)) ==> PropsOf(StripNull(n))[k] < n
  {
    var r := StripNull(n);
    forall k | k in PropsOf(r) ensures PropsOf(r)[k] < n {
      if r < n {
        assert PropsOf(r)[k] < r;
      } else {
        assert r.props == n.props by { StripKeepsProps(n); }
      }
    }
  }

  lemma StripKeepsProps(n: Node)
    ensures StripNull(n) < n || StripNull(n).props == n.props
  {
    if n.types == [] && n.oneOf.Variants? && n.oneOf.all != [] {
      var rest := NonNullVariants(n.oneOf.all);
      assert |rest| == 1 ==> rest[0] in n.oneOf.all;
    } else if n.types == [] && n.anyOf.Variants? && n.anyOf.all != [] {
      var rest := NonNullVariants(n.anyOf.all);
      assert |rest| == 1 ==> rest[0] in n.anyOf.all;
    }
  }

  // --- joinNodes ---

  function JoinNodes(less: Order, a: Node, b: Node): Node
    decreases a, 3
  {
    if NodesEqual(less, a, b) then Canon(less, a)
    else if IsNullType(a) then Canon(less, WithNull(b))
    else if IsNullType(b) then Canon(less, WithNull(a))
    else Canon(less, Joined(less, a, b))
  }

  // Before the canonical form: null goes back on when either side had it.
  function Joined(less: Order, a: Node, b: Node): Node
    decreases a, 2
  {
    if HasNull(a) || HasNull(b) then WithNull(Merged(less, a, b)) else Merged(less, a, b)
  }

  // Both sides without null, two objects merged, anything else side by side.
  function Merged(less: Order, a: Node, b: Node): Node
    decreases a, 1
  {
    StrippedProps(a);
    var na, nb := StripNull(a), StripNull(b);
    if IsObjectType(na) && IsObjectType(nb) then ObjectOf(MergedProps(less, a, na, nb), na, nb) else OneOf([na, nb])
  }

  // A key of one side only may be absent.
  function MergedProps(less: Order, a: Node, na: Node, nb: Node): map<string, Node>
    requires forall k :: k in PropsOf(na) ==> PropsOf(na)[k] < a
    decreases a, 0
  {
    var pa, pb := PropsOf(na), PropsOf(nb);
    map k | k in pa.Keys + pb.Keys ::
      if k !in pa then WithNull(Canon(less, pb[k])) else if k !in pb then WithNull(Canon(less, pa[k])) else JoinNodes(less, pa[k], pb[k])
  }

  // Required is what both sides declare and require, sorted.
  predicate RequiredByBoth(a: Node, b: Node, k: string) {
    k in PropsOf(a) && k in PropsOf(b) && IsRequired(a, k) && IsRequired(b, k)
  }

  function Kept(a: Node, b: Node, names: seq<string>): seq<string> {
    if names == [] then [] else (if RequiredByBoth(a, b, names[0]) then [names[0]] else []) + Kept(a, b, names[1..])
  }

  function RequiredOf(a: Node, b: Node): seq<string> {
    Sorted(Kept(a, b, if a.required.Some? then a.required.value else []))
  }

  function ObjectOf(props: map<string, Node>, a: Node, b: Node): Node {
    Type("object").(props := Props(props), required := if RequiredOf(a, b) == [] then None else Some(RequiredOf(a, b)))
  }

  lemma {:induction false} KeptAre(a: Node, b: Node, names: seq<string>, k: string)
    ensures k in Kept(a, b, names) <==> k in names && RequiredByBoth(a, b, k)
  {
    if names != [] {
      KeptAre(a, b, names[1..], k);
      assert names == [names[0]] + names[1..];
    }
  }

  lemma RequiredAre(a: Node, b: Node, k: string)
    ensures k in RequiredOf(a, b) <==> RequiredByBoth(a, b, k)
  {
    var names := if a.required.Some? then a.required.value else [];
    KeptAre(a, b, names, k);
    SortedAscends(Kept(a, b, names));
  }

  // --- where the join is an upper bound ---

  // object shares a type list with null alone; a type list of nulls is null itself; unions
  // carry nothing else.
  predicate Joinable(n: Node)
    decreases n
  {
    IsEmpty(n) ||
    if n.anyOf.Variants? then
      IsEmpty(n.(anyOf := NoVariants)) && n.anyOf.all != [] && forall b :: b in n.anyOf.all ==> Joinable(b)
    else if n.oneOf.Variants? then
      IsEmpty(n.(oneOf := NoVariants)) && n.oneOf.all != [] && forall b :: b in n.oneOf.all ==> Joinable(b)
    else
      && n.types != [] && ((exists t :: t in n.types && t != "null") || n == Type("null"))
      && ("object" in n.types ==> forall t :: t in n.types ==> t == "object" || t == "null")
      && (n.props.Props? ==> n.types == ["object"] && forall name :: name in n.props.all ==> Joinable(n.props.all[name]))
      && (n.items.Items? ==> Joinable(n.items.of))
  }

  lemma {:induction false} JoinableForms(n: Node)
    requires Joinable(n)
    ensures Formed(n)
    decreases n
  {
    if IsEmpty(n) {
    } else if n.anyOf.Variants? {
      forall b | b in n.anyOf.all ensures Formed(b) { JoinableForms(b); }
    } else if n.oneOf.Variants? {
      forall b | b in n.oneOf.all ensures Formed(b) { JoinableForms(b); }
    } else {
      if n.props.Props? {
        forall name | name in n.props.all ensures Formed(n.props.all[name]) { JoinableForms(n.props.all[name]); }
      }
      if n.items.Items? { JoinableForms(n.items.of); }
    }
  }

  lemma {:induction false} NonNullFrom(ts: seq<string>)
    ensures forall t :: t in NonNullTypes(ts) <==> t in ts && t != "null"
  {
    if ts != [] {
      NonNullFrom(ts[1..]);
      assert ts == [ts[0]] + ts[1..];
    }
  }

  lemma StripPlainForms(n: Node)
    requires Joinable(n) && !IsNullType(n) && n.types != []
    ensures Formed(StripNull(n)) && StripNull(n).types != []
    ensures "object" in n.types ==> forall t :: t in StripNull(n).types ==> t == "object"
    ensures VariantsOf(StripNull(n)).NoVariants?
  {
    JoinableForms(n);
    NonNullFrom(n.types);
    assert exists t :: t in n.types && t != "null" by { assert n == Type("null") ==> IsNullType(n); }
    var t :| t in n.types && t != "null";
    assert t in NonNullTypes(n.types);
    assert n.types == ["object"] ==> n.types[1..] == [] && NonNullTypes(n.types) == n.types;
  }

  lemma StripForms(n: Node)
    requires Joinable(n) && !IsNullType(n)
    ensures Formed(StripNull(n))
  {
    if n.types != [] {
      StripPlainForms(n);
    } else {
      JoinableForms(n);
      if !IsEmpty(n) {
        var vs := VariantsOf(n).all;
        var rest := NonNullVariants(vs);
        assert forall b :: b in rest ==> b in vs && Formed(b);
        if |rest| == 1 { assert rest[0] in rest; }
      }
    }
  }

  lemma WithNullForms(n: Node)
    requires Formed(n)
    ensures Formed(WithNull(n))
  {
    if !IsEmpty(n) && !HasNull(n) && !(n.types != [] && n.props.NoProps?) {
      var u := [n, Type("null")];
      assert u[0] == n && u[1] == Type("null");
      forall b | b in u ensures Formed(b) { assert b == n || b == Type("null"); }
    }
  }

  // A joinable object type, null off, is an object type, or that and null in one list.
  lemma ObjectStripped(n: Node)
    requires Joinable(n) && !IsNullType(n) && IsObjectType(StripNull(n))
    ensures var r := StripNull(n);
            && r.types != [] && (forall t :: t in r.types ==> t == "object" || t == "null") && VariantsOf(r).NoVariants?
            && ("null" in r.types ==> HasNull(n))
            && Formed(r) && forall k :: k in PropsOf(r) ==> Joinable(PropsOf(r)[k]) && PropsOf(r)[k] < n
  {
    StrippedProps(n);
    StripForms(n);
    var r := StripNull(n);
    if n.types != [] {
      StripPlainForms(n);
      NonNullFrom(n.types);
    } else if !IsEmpty(n) {
      UnionStripped(n, VariantsOf(n).all);
    }
  }

  // Null comes off a union as a variant, or nothing does.
  lemma UnionStripped(n: Node, vs: seq<Node>)
    requires Joinable(n) && !IsEmpty(n) && n.types == [] && VariantsOf(n) == Variants(vs)
    ensures (StripNull(n) in vs && HasNull(n) && Joinable(StripNull(n))) || (StripNull(n).types == [] && StripNull(n).props.NoProps?)
  {
    var rest := NonNullVariants(vs);
    assert |rest| != |vs| ==> HasNull(n) by { if |rest| != |vs| { SomeDropped(vs); } }
    if |rest| == 1 { assert rest[0] in rest; }
  }

  lemma {:induction false} SomeDropped(vs: seq<Node>)
    ensures |NonNullVariants(vs)| <= |vs|
    ensures |NonNullVariants(vs)| != |vs| <==> exists b :: b in vs && IsNullType(b)
  {
    if vs != [] {
      SomeDropped(vs[1..]);
      assert vs == [vs[0]] + vs[1..];
    }
  }

  lemma {:induction false} TypesStay(ts: seq<string>)
    requires "null" !in ts
    ensures NonNullTypes(ts) == ts
  {
    if ts != [] {
      assert ts == [ts[0]] + ts[1..];
      TypesStay(ts[1..]);
    }
  }

  lemma StripNothing(n: Node)
    requires !HasNull(n)
    ensures StripNull(n) == n
  {
    if n.types != [] {
      TypesStay(n.types);
    } else {
      if n.oneOf.Variants? { SomeDropped(n.oneOf.all); }
      if n.anyOf.Variants? { SomeDropped(n.anyOf.all); }
    }
  }

  // --- joins of joinable types are well formed ---

  lemma PairForms(na: Node, nb: Node)
    requires Formed(na) && Formed(nb)
    ensures Formed(OneOf([na, nb]))
  {
    var u := [na, nb];
    assert u[0] == na && u[1] == nb;
    forall b | b in u ensures Formed(b) { assert b == na || b == nb; }
  }

  lemma {:induction false} MergedForms(less: Order, a: Node, b: Node)
    requires StrictOrder(less) && Joinable(a) && Joinable(b) && !IsNullType(a) && !IsNullType(b)
    ensures Formed(Merged(less, a, b))
    decreases a, 0
  {
    hide Canon, StripNull, JoinNodes;
    StrippedProps(a);
    StripForms(a);
    StripForms(b);
    var na, nb := StripNull(a), StripNull(b);
    if IsObjectType(na) && IsObjectType(nb) {
      ObjectStripped(a);
      ObjectStripped(b);
      var props := MergedProps(less, a, na, nb);
      forall k | k in props ensures Formed(props[k]) {
        if k in PropsOf(na) && k in PropsOf(nb) {
          JoinForms(less, PropsOf(na)[k], PropsOf(nb)[k]);
        } else {
          var p := if k in PropsOf(na) then PropsOf(na)[k] else PropsOf(nb)[k];
          JoinableForms(p);
          CanonMeans(less, p, VNull);
          WithNullForms(Canon(less, p));
        }
      }
    } else {
      PairForms(na, nb);
    }
  }

  lemma {:induction false} JoinForms(less: Order, a: Node, b: Node)
    requires StrictOrder(less) && Joinable(a) && Joinable(b)
    ensures Formed(JoinNodes(less, a, b))
    decreases a, 1
  {
    hide Canon, Merged, Formed, Joinable;
    JoinableForms(a);
    JoinableForms(b);
    WithNullForms(a);
    WithNullForms(b);
    CanonMeans(less, a, VNull);
    CanonMeans(less, WithNull(a), VNull);
    CanonMeans(less, WithNull(b), VNull);
    if !NodesEqual(less, a, b) && !IsNullType(a) && !IsNullType(b) {
      MergedForms(less, a, b);
      WithNullForms(Merged(less, a, b));
      CanonMeans(less, Joined(less, a, b), VNull);
    }
  }

  // --- upper bound ---

  lemma {:induction false} FieldAdmitted(less: Order, a: Node, na: Node, nb: Node, k: string, x: Datum)
    requires StrictOrder(less) && (forall k :: k in PropsOf(na) ==> PropsOf(na)[k] < a && Joinable(PropsOf(na)[k]))
    requires forall k :: k in PropsOf(nb) ==> Joinable(PropsOf(nb)[k])
    requires k in PropsOf(na) || k in PropsOf(nb)
    requires (k in PropsOf(na) && Mem(PropsOf(na)[k], x)) || (k in PropsOf(nb) && Mem(PropsOf(nb)[k], x))
    ensures Mem(MergedProps(less, a, na, nb)[k], x)
    decreases a, 0
  {
    hide Canon, Mem, Formed, Joinable, JoinNodes;
    if k in PropsOf(na) && k in PropsOf(nb) {
      JoinAdmits(less, PropsOf(na)[k], PropsOf(nb)[k], x);
    } else {
      var p := if k in PropsOf(na) then PropsOf(na)[k] else PropsOf(nb)[k];
      JoinableForms(p);
      CanonMeans(less, p, x);
      WithNullMem(Canon(less, p), x);
    }
  }

  lemma {:induction false} ObjectAdmits(less: Order, a: Node, na: Node, nb: Node, fields: map<string, Datum>)
    requires StrictOrder(less) && (forall k :: k in PropsOf(na) ==> PropsOf(na)[k] < a && Joinable(PropsOf(na)[k]))
    requires forall k :: k in PropsOf(nb) ==> Joinable(PropsOf(nb)[k])
    requires FieldsMem(na, fields) || FieldsMem(nb, fields)
    ensures Mem(ObjectOf(MergedProps(less, a, na, nb), na, nb), VObj(fields))
    decreases a, 1
  {
    hide Joinable, JoinNodes, Canon;
    var props := MergedProps(less, a, na, nb);
    var out := ObjectOf(props, na, nb);
    assert "object" in out.types && OfType(VObj(fields), "object");
    forall name | name in props
      ensures if name in fields then Mem(props[name], fields[name]) else !IsRequired(out, name)
    {
      if name in fields {
        FieldAdmitted(less, a, na, nb, name, fields[name]);
      } else {
        RequiredAre(na, nb, name);
      }
    }
    assert FieldsMem(out, fields);
  }

  lemma ObjectValue(r: Node, v: Datum)
    requires r.types != [] && (forall t :: t in r.types ==> t == "object" || t == "null") && VariantsOf(r).NoVariants?
    requires Mem(r, v) && v != VNull
    ensures v.VObj? && FieldsMem(r, v.fields)
  {
  }

  lemma MergedAdmits(less: Order, a: Node, b: Node, v: Datum)
    requires StrictOrder(less) && Joinable(a) && Joinable(b) && !IsNullType(a) && !IsNullType(b)
    requires Mem(StripNull(a), v) || Mem(StripNull(b), v)
    requires v != VNull || (!HasNull(a) && !HasNull(b))
    ensures Mem(Merged(less, a, b), v)
    decreases a, 2, 0
  {
    hide StripNull, Joinable, JoinNodes, OfType, Formed;
    StrippedProps(a);
    var na, nb := StripNull(a), StripNull(b);
    if IsObjectType(na) && IsObjectType(nb) {
      ObjectStripped(a);
      ObjectStripped(b);
      if v == VNull { NoNullThere(na); NoNullThere(nb); }
      if Mem(na, v) { ObjectValue(na, v); } else { ObjectValue(nb, v); }
      ObjectAdmits(less, a, na, nb, v.fields);
    } else {
      var u := [na, nb];
      assert u[0] == na && u[1] == nb;
      assert na in u && nb in u;
    }
  }

  lemma NoNullThere(r: Node)
    requires r.types != [] && VariantsOf(r).NoVariants? && (forall t :: t in r.types ==> t == "object" || t == "null") && "null" !in r.types
    ensures !Mem(r, VNull)
  {
  }

  // Everything either side admits, the join admits.
  lemma {:induction false} JoinAdmits(less: Order, a: Node, b: Node, v: Datum)
    requires StrictOrder(less) && Joinable(a) && Joinable(b) && (Mem(a, v) || Mem(b, v))
    ensures Mem(JoinNodes(less, a, b), v)
    decreases a, 3
  {
    hide Canon, Mem, Formed, StripNull, WithNull, Joined, Merged, HasNull;
    JoinableForms(a);
    JoinableForms(b);
    if NodesEqual(less, a, b) {
      CanonMeans(less, a, v);
      CanonMeans(less, b, v);
    } else if IsNullType(a) {
      if Mem(a, v) { NullOnly(a, v); }
      WithNullMem(b, v);
      WithNullForms(b);
      CanonMeans(less, WithNull(b), v);
    } else if IsNullType(b) {
      if Mem(b, v) { NullOnly(b, v); }
      WithNullMem(a, v);
      WithNullForms(a);
      CanonMeans(less, WithNull(a), v);
    } else {
      JoinedAdmits(less, a, b, v);
      JoinedForms(less, a, b);
      CanonMeans(less, Joined(less, a, b), v);
    }
  }

  lemma {:induction false} JoinedAdmits(less: Order, a: Node, b: Node, v: Datum)
    requires StrictOrder(less) && Joinable(a) && Joinable(b) && !IsNullType(a) && !IsNullType(b) && (Mem(a, v) || Mem(b, v))
    ensures Mem(Joined(less, a, b), v)
    decreases a, 2, 1
  {
    hide Canon, Mem, Formed, Joinable, StripNull, WithNull, Merged;
    JoinableForms(a);
    JoinableForms(b);
    MergedForms(less, a, b);
    var m := Merged(less, a, b);
    if v == VNull && (HasNull(a) || HasNull(b)) {
      WithNullMem(m, v);
    } else {
      if v == VNull {
        StripNothing(a);
        StripNothing(b);
      } else {
        if Mem(a, v) { StripNullMem(a, v); }
        if Mem(b, v) { StripNullMem(b, v); }
      }
      MergedAdmits(less, a, b, v);
      WithNullMem(m, v);
    }
  }

  lemma JoinedForms(less: Order, a: Node, b: Node)
    requires StrictOrder(less) && Joinable(a) && Joinable(b) && !IsNullType(a) && !IsNullType(b)
    ensures Formed(Joined(less, a, b))
  {
    hide Formed, Joinable, WithNull, Merged;
    MergedForms(less, a, b);
    WithNullForms(Merged(less, a, b));
  }

  // --- order does not matter ---

  function Leaves(less: Order, n: Node, kind: Kind): seq<Node> {
    var c := Canon(less, n);
    if Pure(c, kind) then Composed(c, kind) else [c]
  }

  lemma FlatPair(less: Order, x: Node, y: Node)
    ensures Inside(OneOf([x, y]), [x, y]) && Flat(less, OneOf([x, y]), [x, y], One) == Leaves(less, x, One) + Leaves(less, y, One)
  {
    hide Canon, Pure, Composed;
    var n := OneOf([x, y]);
    var u := [x, y];
    VariantsInside(n);
    TailInside(n, u);
    assert u[1..] == [y];
    TailInside(n, u[1..]);
    assert u[1..][1..] == [];
    assert Flat(less, n, u[1..], One) == Leaves(less, y, One) + Flat(less, n, u[1..][1..], One);
  }

  // The canonical form of a pair depends on its members' canonical forms, not on their order.
  lemma PairCanon(less: Order, x: Node, y: Node, x': Node, y': Node)
    requires StrictOrder(less)
    requires (Canon(less, x) == Canon(less, x') && Canon(less, y) == Canon(less, y')) || (Canon(less, x) == Canon(less, y') && Canon(less, y) == Canon(less, x'))
    ensures Canon(less, OneOf([x, y])) == Canon(less, OneOf([x', y']))
  {
    hide Canon, Pure, Composed, Flat;
    FlatPair(less, x, y);
    FlatPair(less, x', y');
    SortSame(less, Leaves(less, x, One) + Leaves(less, y, One), Leaves(less, x', One) + Leaves(less, y', One));
    PairParts(less, [x, y], [x', y']);
  }

  lemma PairParts(less: Order, vs: seq<Node>, ws: seq<Node>)
    requires vs != [] && ws != [] && Inside(OneOf(vs), vs) && Inside(OneOf(ws), ws)
    requires SortDedup(less, Flat(less, OneOf(vs), vs, One)) == SortDedup(less, Flat(less, OneOf(ws), ws, One))
    ensures Canon(less, OneOf(vs)) == Canon(less, OneOf(ws))
  {
    hide Collapse, Flat;
    var m, m' := Parts(less, OneOf(vs)), Parts(less, OneOf(ws));
    assert m.oneOf == CanonVariants(less, OneOf(vs), vs, One) && m'.oneOf == CanonVariants(less, OneOf(ws), ws, One);
    assert m.anyOf == CanonVariants(less, OneOf(vs), [], Any) && m'.anyOf == CanonVariants(less, OneOf(ws), [], Any);
    assert m.allOf == CanonVariants(less, OneOf(vs), [], All) && m'.allOf == CanonVariants(less, OneOf(ws), [], All);
    assert m == m';
  }

  lemma NullPair(n: Node)
    requires n.oneOf.Variants? && n.types == [] && !HasNull(n)
    ensures WithNull(n) == OneOf([n, Type("null")])
  {
  }

  lemma SwappedNull(x: Node, y: Node)
    ensures HasNull(OneOf([x, y])) == HasNull(OneOf([y, x]))
  {
    var u, w := [x, y], [y, x];
    assert u[0] == x && u[1] == y && w[0] == y && w[1] == x;
    assert forall b :: b in u <==> b == x || b == y;
    assert forall b :: b in w <==> b == x || b == y;
  }

  lemma SwappedUnion(less: Order, x: Node, y: Node)
    requires StrictOrder(less)
    ensures Canon(less, OneOf([x, y])) == Canon(less, OneOf([y, x]))
    ensures Canon(less, WithNull(OneOf([x, y]))) == Canon(less, WithNull(OneOf([y, x])))
  {
    hide Canon;
    var u, w := OneOf([x, y]), OneOf([y, x]);
    PairCanon(less, x, y, y, x);
    SwappedNull(x, y);
    if !HasNull(u) {
      NullPair(u);
      NullPair(w);
      PairCanon(less, u, Type("null"), w, Type("null"));
    }
  }

  lemma {:induction false} SwappedProps(less: Order, a: Node, b: Node, na: Node, nb: Node)
    requires StrictOrder(less) && (forall k :: k in PropsOf(na) ==> PropsOf(na)[k] < a && Joinable(PropsOf(na)[k]))
    requires forall k :: k in PropsOf(nb) ==> PropsOf(nb)[k] < b && Joinable(PropsOf(nb)[k])
    ensures MergedProps(less, a, na, nb) == MergedProps(less, b, nb, na)
    decreases a, 0, 0
  {
    hide Canon, Joinable, JoinNodes;
    var p, q := MergedProps(less, a, na, nb), MergedProps(less, b, nb, na);
    forall k | k in p ensures p[k] == q[k] {
      if k in PropsOf(na) && k in PropsOf(nb) { JoinCommutes(less, PropsOf(na)[k], PropsOf(nb)[k]); }
    }
    assert p.Keys == q.Keys;
  }

  lemma SwappedRequired(na: Node, nb: Node)
    ensures RequiredOf(na, nb) == RequiredOf(nb, na)
  {
    forall k ensures k in RequiredOf(na, nb) <==> k in RequiredOf(nb, na) {
      RequiredAre(na, nb, k);
      RequiredAre(nb, na, k);
    }
    SortedAscends(Kept(na, nb, if na.required.Some? then na.required.value else []));
    SortedAscends(Kept(nb, na, if nb.required.Some? then nb.required.value else []));
    TextOrder();
    AscendingUnique(TextLess, RequiredOf(na, nb), RequiredOf(nb, na));
  }

  // Both orders give the same canonical type.
  lemma {:induction false} JoinCommutes(less: Order, a: Node, b: Node)
    requires StrictOrder(less) && Joinable(a) && Joinable(b)
    ensures JoinNodes(less, a, b) == JoinNodes(less, b, a)
    decreases a, 1
  {
    hide Canon, StripNull, WithNull, Joinable, Merged;
    if NodesEqual(less, a, b) {
    } else if IsNullType(a) || IsNullType(b) {
      if IsNullType(a) && IsNullType(b) { BothNull(a, b); }
    } else {
      MergedCommutes(less, a, b);
    }
  }

  lemma BothNull(a: Node, b: Node)
    requires Joinable(a) && Joinable(b) && IsNullType(a) && IsNullType(b)
    ensures a == b
  {
    assert forall t :: t in a.types ==> t == "null";
    assert forall t :: t in b.types ==> t == "null";
  }

  lemma {:induction false} MergedCommutes(less: Order, a: Node, b: Node)
    requires StrictOrder(less) && Joinable(a) && Joinable(b) && !IsNullType(a) && !IsNullType(b)
    ensures Canon(less, Merged(less, a, b)) == Canon(less, Merged(less, b, a))
    ensures Canon(less, WithNull(Merged(less, a, b))) == Canon(less, WithNull(Merged(less, b, a)))
    decreases a, 0, 1
  {
    hide Canon, StripNull, WithNull, Joinable, JoinNodes, MergedProps;
    StrippedProps(a);
    StrippedProps(b);
    var na, nb := StripNull(a), StripNull(b);
    if IsObjectType(na) && IsObjectType(nb) {
      ObjectStripped(a);
      ObjectStripped(b);
      SwappedProps(less, a, b, na, nb);
      SwappedRequired(na, nb);
    } else {
      SwappedUnion(less, na, nb);
    }
  }

  // A join is canonical: joining changes nothing exactly when the result is what was there.
  lemma JoinIsCanonical(less: Order, a: Node, b: Node)
    requires StrictOrder(less)
    ensures Canon(less, JoinNodes(less, a, b)) == JoinNodes(less, a, b)
  {
    hide Canon, Joined;
    CanonIdempotent(less, a);
    CanonIdempotent(less, WithNull(a));
    CanonIdempotent(less, WithNull(b));
    CanonIdempotent(less, Joined(less, a, b));
  }

  // --- type lists, exactly ---

  function TypeList(ts: seq<string>): Node {
    EMPTY.(types := ts)
  }

  predicate Known(t: string) {
    t == "null" || t == "boolean" || t == "string" || t == "object" || t == "array" || t == "number" || t == "integer"
  }

  predicate ObjectOrNull(ts: seq<string>) {
    forall t :: t in ts ==> t == "object" || t == "null"
  }

  ghost predicate IsUpper(less: Order, a: Node, b: Node) {
    forall v :: Mem(a, v) || Mem(b, v) ==> Mem(JoinNodes(less, a, b), v)
  }

  // A value of a type, an empty one if there is a choice.
  function Sample(t: string): Datum
    requires Known(t)
  {
    match t
    case "null" => VNull
    case "boolean" => VBool(true)
    case "string" => VStr("")
    case "object" => VObj(map[])
    case "array" => VArr([])
    case _ => VInt(0)
  }

  lemma SampleIs(ts: seq<string>, t: string)
    requires Known(t) && t in ts
    ensures Mem(TypeList(ts), Sample(t)) && (t != "object" ==> !OfType(Sample(t), "object")) && (t != "null" ==> Sample(t) != VNull)
  {
    assert (0 as real) == (0 as real).Floor as real;
    assert OfType(Sample(t), t);
  }

  lemma ListForms(ts: seq<string>)
    requires ts != []
    ensures Formed(TypeList(ts))
    ensures Formed(StripNull(TypeList(ts))) && StripNull(TypeList(ts)) == TypeList(NonNullTypes(ts))
  {
  }

  // Two lists with object in both are merged as objects; all that is left is object, and null.
  lemma ObjectLists(less: Order, ts: seq<string>, us: seq<string>, v: Datum)
    requires StrictOrder(less) && "object" in ts && "object" in us && !NodesEqual(less, TypeList(ts), TypeList(us))
    requires ts != ["null"] && us != ["null"]
    ensures Mem(JoinNodes(less, TypeList(ts), TypeList(us)), v) <==>
              v == VObj(map[]) || (v == VNull && ("null" in ts || "null" in us))
  {
    hide Canon;
    var a, b := TypeList(ts), TypeList(us);
    NonNullFrom(ts);
    NonNullFrom(us);
    StrippedProps(a);
    var na, nb := StripNull(a), StripNull(b);
    var m := ObjectOf(map[], na, nb);
    assert Merged(less, a, b) == m by { assert MergedProps(less, a, na, nb) == map[]; }
    assert Mem(m, v) <==> v == VObj(map[]) by {
      assert "object" in m.types && OfType(VObj(map[]), "object");
      assert forall t :: t in m.types ==> t == "object";
      if v.VObj? && Mem(m, v) { assert FieldsMem(m, v.fields); assert v.fields.Keys == {}; }
    }
    NoNullInObject(m, v);
    CanonMeans(less, Joined(less, a, b), v);
  }

  lemma NoNullInObject(m: Node, v: Datum)
    requires m.types == ["object"] && m.props == Props(map[]) && Formed(m) && m.oneOf.NoVariants? && m.anyOf.NoVariants?
    ensures Formed(WithNull(m)) && (Mem(WithNull(m), v) <==> Mem(m, v) || v == VNull)
  {
    var u := [m, Type("null")];
    assert u[0] == m && u[1] == Type("null");
    assert WithNull(m) == OneOf(u);
    forall b | b in u ensures Formed(b) { assert b == m || b == Type("null"); }
    assert Mem(Type("null"), v) <==> v == VNull by { NullOnly(Type("null"), v); }
    assert m in u && Type("null") in u && forall b :: b in u ==> b == m || b == Type("null");
  }

  // Any other two lists stand side by side.
  lemma OtherLists(less: Order, ts: seq<string>, us: seq<string>, v: Datum)
    requires StrictOrder(less) && ts != [] && us != [] && !("object" in ts && "object" in us)
    requires Mem(TypeList(ts), v) || Mem(TypeList(us), v)
    ensures Mem(JoinNodes(less, TypeList(ts), TypeList(us)), v)
  {
    hide Canon, Mem, Joined, WithNull, Formed, StripNull, StrictOrder;
    var a, b := TypeList(ts), TypeList(us);
    ListForms(ts);
    ListForms(us);
    if NodesEqual(less, a, b) {
      EqualLists(less, a, b, v);
    } else if IsNullType(a) || IsNullType(b) {
      var x, y := if IsNullType(a) then a else b, if IsNullType(a) then b else a;
      if Mem(x, v) { NullOnly(x, v); }
      WithNullMem(y, v);
      WithNullForms(y);
      CanonMeans(less, WithNull(y), v);
    } else {
      SideBySide(less, ts, us, v);
      CanonMeans(less, Joined(less, a, b), v);
    }
  }

  lemma SideBySide(less: Order, ts: seq<string>, us: seq<string>, v: Datum)
    requires ts != [] && us != [] && !("object" in ts && "object" in us) && (Mem(TypeList(ts), v) || Mem(TypeList(us), v))
    ensures Formed(Joined(less, TypeList(ts), TypeList(us))) && Mem(Joined(less, TypeList(ts), TypeList(us)), v)
  {
    hide Canon, Mem, Formed, WithNull;
    var a, b := TypeList(ts), TypeList(us);
    ListForms(ts);
    ListForms(us);
    NonNullFrom(ts);
    NonNullFrom(us);
    var na, nb := StripNull(a), StripNull(b);
    var m := OneOf([na, nb]);
    assert Merged(less, a, b) == m;
    PairForms(na, nb);
    WithNullForms(m);
    if v != VNull || (!HasNull(a) && !HasNull(b)) {
      if Mem(a, v) { StrippedList(ts, v); InPair(na, nb, na, v); } else { StrippedList(us, v); InPair(na, nb, nb, v); }
    }
    WithNullMem(m, v);
  }

  lemma StrippedList(ts: seq<string>, v: Datum)
    requires ts != [] && Mem(TypeList(ts), v) && (v != VNull || "null" !in ts)
    ensures Mem(StripNull(TypeList(ts)), v)
  {
    hide Mem;
    ListForms(ts);
    if v == VNull { TypesStay(ts); } else { StripNullMem(TypeList(ts), v); }
  }

  lemma InPair(x: Node, y: Node, z: Node, v: Datum)
    requires (z == x || z == y) && Mem(z, v)
    ensures Mem(OneOf([x, y]), v)
  {
    var u := [x, y];
    assert u[0] == x && u[1] == y;
    assert z in u;
  }

  // The join of two type lists admits what each admits exactly when they are one list, or not both
  // hold object, or neither holds anything else but null.
  lemma TypeListsJoin(less: Order, ts: seq<string>, us: seq<string>)
    requires StrictOrder(less) && ts != [] && us != [] && (forall t :: t in ts ==> Known(t)) && forall t :: t in us ==> Known(t)
    ensures IsUpper(less, TypeList(ts), TypeList(us)) <==>
              NodesEqual(less, TypeList(ts), TypeList(us)) || !("object" in ts && "object" in us) || (ObjectOrNull(ts) && ObjectOrNull(us))
  {
    hide Canon, Mem, JoinNodes, StrictOrder, OfType;
    var a, b := TypeList(ts), TypeList(us);
    ListForms(ts);
    ListForms(us);
    if NodesEqual(less, a, b) {
      forall v | Mem(a, v) || Mem(b, v) ensures Mem(JoinNodes(less, a, b), v) { EqualLists(less, a, b, v); }
    } else if !("object" in ts && "object" in us) {
      forall v | Mem(a, v) || Mem(b, v) ensures Mem(JoinNodes(less, a, b), v) { OtherLists(less, ts, us, v); }
    } else if ObjectOrNull(ts) && ObjectOrNull(us) {
      forall v | Mem(a, v) || Mem(b, v) ensures Mem(JoinNodes(less, a, b), v) {
        ObjectLists(less, ts, us, v);
        if Mem(a, v) { ObjectListValue(ts, v); } else { ObjectListValue(us, v); }
      }
    } else {
      var xs := if ObjectOrNull(ts) then us else ts;
      var t :| t in xs && t != "object" && t != "null";
      SampleIs(xs, t);
      SampleIs(xs, "object");
      ObjectLists(less, ts, us, Sample(t));
    }
  }

  lemma EqualLists(less: Order, a: Node, b: Node, v: Datum)
    requires StrictOrder(less) && NodesEqual(less, a, b) && Formed(a) && Formed(b) && (Mem(a, v) || Mem(b, v))
    ensures Mem(JoinNodes(less, a, b), v)
  {
    hide Mem, Canon, Formed, StrictOrder;
    CanonMeans(less, a, v);
    CanonMeans(less, b, v);
  }

  lemma ObjectListValue(ts: seq<string>, v: Datum)
    requires ObjectOrNull(ts) && ts != [] && Mem(TypeList(ts), v)
    ensures v == VObj(map[]) || (v == VNull && "null" in ts)
  {
    if v.VObj? { assert v.fields.Keys == {}; }
  }

  // A type list with more than object and null in it loses the rest.
  lemma ObjectHidesString(less: Order)
    requires StrictOrder(less)
    ensures var a := Type("object").(types := ["object", "string"]);
            Mem(a, VStr("s")) && !Mem(JoinNodes(less, a, Type("object")), VStr("s"))
  {
    hide Canon, StrictOrder, JoinNodes;
    var ts, us := ["object", "string"], ["object"];
    var a, b := TypeList(ts), TypeList(us);
    assert ts[0] == "object" && ts[1] == "string" && us[0] == "object" && OfType(VStr("s"), "string");
    StringInObject();
    if NodesEqual(less, a, b) {
      CanonMeans(less, a, VStr("s"));
      CanonMeans(less, b, VStr("s"));
    }
    ObjectLists(less, ts, us, VStr("s"));
  }

  lemma StringInObject()
    ensures !Mem(Type("object"), VStr("s")) && !OfType(VStr("s"), "object")
  {
    assert forall t :: t in Type("object").types ==> t == "object";
  }
}
