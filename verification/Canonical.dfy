/** The canonical form of a schema node, over any strict order of the nodes among variants. */
module Canonical {
  import opened Common
  import opened Schema
  import opened Sorting

  // The order in which the JSON texts of two nodes sort. What is proved holds of any strict order
  // of nodes; NodeOrder gives one.
  type Order = (Node, Node) -> bool

  // --- pure compositions ---

  datatype Kind = One | Any | All

  function ListOf(v: Variants): seq<Node> {
    if v.Variants? then v.all else []
  }

  predicate Unset<T(==)>(o: Option<seq<T>>) {
    o.None? || o.value == []
  }

  function Composed(n: Node, kind: Kind): seq<Node> {
    match kind
    case One => ListOf(n.oneOf)
    case Any => ListOf(n.anyOf)
    case All => ListOf(n.allOf)
  }

  predicate NoShape(n: Node) {
    n.types == [] && n.props.NoProps? && n.items.NoItems? && Unset(n.required) && Unset(n.enums)
  }

  // Exactly one composition and no other keyword, bounds not counted.
  predicate Pure(n: Node, kind: Kind) {
    && NoShape(n)
    && Composed(n, kind) != []
    && (kind != One ==> ListOf(n.oneOf) == []) && (kind != Any ==> ListOf(n.anyOf) == []) && (kind != All ==> ListOf(n.allOf) == [])
  }

  // Primitive types and nothing else, bounds not counted.
  predicate Simple(n: Node) {
    && n.types != [] && n.props.NoProps? && n.items.NoItems? && Unset(n.required) && Unset(n.enums)
    && ListOf(n.oneOf) == [] && ListOf(n.anyOf) == [] && ListOf(n.allOf) == []
  }

  predicate AllSimple(vs: seq<Node>) {
    forall b :: b in vs ==> Simple(b)
  }

  function TypesOf(vs: seq<Node>): seq<string> {
    if vs == [] then [] else vs[0].types + TypesOf(vs[1..])
  }

  function Sorted(ts: seq<string>): seq<string> {
    SortDedup(TextLess, ts)
  }

  // --- canonicalizeNode ---

  function CollapseUnion(n: Node, vs: seq<Node>): Node {
    if |vs| == 1 then vs[0]
    else if AllSimple(vs) then EMPTY.(types := Sorted(TypesOf(vs)))
    else n
  }

  function Collapse(n: Node): Node {
    if Pure(n, One) then CollapseUnion(n, n.oneOf.all)
    else if Pure(n, Any) then CollapseUnion(n, n.anyOf.all)
    else if Pure(n, All) && |n.allOf.all| == 1 then n.allOf.all[0]
    else n
  }

  function Canon(less: Order, n: Node): Node
    decreases n, 2
  {
    Collapse(Parts(less, n))
  }

  // Every part canonical, the node itself not yet collapsed.
  function Parts(less: Order, n: Node): Node
    decreases n, 1
  {
    n.(props := if n.props.Props? then Props(map k | k in n.props.all :: Canon(less, n.props.all[k])) else NoProps,
       items := if n.items.Items? then Items(Canon(less, n.items.of)) else NoItems,
       types := Sorted(n.types),
       required := if Unset(n.required) then None else Some(Sorted(n.required.value)),
       oneOf := CanonVariants(less, n, ListOf(n.oneOf), One),
       anyOf := CanonVariants(less, n, ListOf(n.anyOf), Any),
       allOf := CanonVariants(less, n, ListOf(n.allOf), All))
  }

  function CanonVariants(less: Order, n: Node, vs: seq<Node>, kind: Kind): Variants
    requires Inside(n, vs)
    decreases n, 0, |vs| + 1
  {
    if vs == [] then NoVariants else Variants(SortDedup(less, Flat(less, n, vs, kind)))
  }

  // The canonical variants, those of a nested composition of the same kind in its place.
  function Flat(less: Order, n: Node, vs: seq<Node>, kind: Kind): seq<Node>
    requires Inside(n, vs)
    decreases n, 0, |vs|
  {
    if vs == [] then []
    else
      TailInside(n, vs);
      var c := Canon(less, vs[0]);
      (if Pure(c, kind) then Composed(c, kind) else [c]) + Flat(less, n, vs[1..], kind)
  }

  // --- what canonical means ---

  ghost predicate CanonicalList(less: Order, n: Node, v: Variants, kind: Kind)
    requires v.Variants? ==> Inside(n, v.all)
    decreases n, 0
  {
    v.Variants? ==>
      && v.all != [] && Ascending(less, v.all)
      && forall b :: b in v.all ==> Canonical(less, b) && !Pure(b, kind)
  }

  ghost predicate Canonical(less: Order, n: Node)
    decreases n, 1
  {
    && (n.props.Props? ==> forall k :: k in n.props.all ==> Canonical(less, n.props.all[k]))
    && (n.items.Items? ==> Canonical(less, n.items.of))
    && Ascending(TextLess, n.types)
    && (n.required.Some? ==> n.required.value != [] && Ascending(TextLess, n.required.value))
    && CanonicalList(less, n, n.oneOf, One) && CanonicalList(less, n, n.anyOf, Any) && CanonicalList(less, n, n.allOf, All)
    && Collapse(n) == n
  }

  // --- idempotence ---

  lemma {:induction false} FlatCanonical(less: Order, n: Node, vs: seq<Node>, kind: Kind)
    requires StrictOrder(less) && Inside(n, vs)
    ensures forall b :: b in Flat(less, n, vs, kind) ==> Canonical(less, b) && !Pure(b, kind)
    ensures vs != [] ==> Flat(less, n, vs, kind) != []
    decreases n, 0, |vs|
  {
    hide Pure, Canonical, Canon, Composed;
    if vs != [] {
      TailInside(n, vs);
      CanonIsCanonical(less, vs[0]);
      var c := Canon(less, vs[0]);
      if Pure(c, kind) { InnerCanonical(less, c, kind); }
      FlatCanonical(less, n, vs[1..], kind);
    }
  }

  lemma InnerCanonical(less: Order, c: Node, kind: Kind)
    requires Canonical(less, c) && Pure(c, kind)
    ensures Composed(c, kind) != [] && forall b :: b in Composed(c, kind) ==> Canonical(less, b) && !Pure(b, kind)
  {
  }

  lemma VariantsCanonical(less: Order, n: Node, vs: seq<Node>, kind: Kind) returns (all: seq<Node>)
    requires StrictOrder(less) && Inside(n, vs) && vs != []
    ensures CanonVariants(less, n, vs, kind) == Variants(all) && all != [] && Ascending(less, all)
    ensures forall b :: b in all ==> Canonical(less, b) && !Pure(b, kind)
    decreases n, 0, |vs| + 1
  {
    hide Pure, Canonical, Canon;
    all := SortDedup(less, Flat(less, n, vs, kind));
    FlatCanonical(less, n, vs, kind);
    SortAscends(less, Flat(less, n, vs, kind));
  }

  lemma SortedAscends(ts: seq<string>)
    ensures Ascending(TextLess, Sorted(ts)) && (ts != [] ==> Sorted(ts) != [])
    ensures forall t :: t in Sorted(ts) <==> t in ts
    ensures Ascending(TextLess, ts) ==> Sorted(ts) == ts
  {
    TextOrder();
    SortAscends(TextLess, ts);
    if Ascending(TextLess, ts) { SortedStays(TextLess, ts); }
  }

  // All of Canonical but the last clause.
  ghost predicate PartsCanonical(less: Order, n: Node) {
    && (n.props.Props? ==> forall k :: k in n.props.all ==> Canonical(less, n.props.all[k]))
    && (n.items.Items? ==> Canonical(less, n.items.of))
    && Ascending(TextLess, n.types)
    && (n.required.Some? ==> n.required.value != [] && Ascending(TextLess, n.required.value))
    && CanonicalList(less, n, n.oneOf, One) && CanonicalList(less, n, n.anyOf, Any) && CanonicalList(less, n, n.allOf, All)
  }

  lemma {:induction false} PartsAreCanonical(less: Order, n: Node)
    requires StrictOrder(less)
    ensures PartsCanonical(less, Parts(less, n))
    decreases n, 1
  {
    hide Pure, Canonical, Canon, Ascending;
    var m := Parts(less, n);
    if n.props.Props? {
      forall k | k in n.props.all ensures Canonical(less, m.props.all[k]) { CanonIsCanonical(less, n.props.all[k]); }
    }
    if n.items.Items? { CanonIsCanonical(less, n.items.of); }
    SortedAscends(n.types);
    if !Unset(n.required) { SortedAscends(n.required.value); }
    if ListOf(n.oneOf) != [] { var all := VariantsCanonical(less, n, ListOf(n.oneOf), One); }
    if ListOf(n.anyOf) != [] { var all := VariantsCanonical(less, n, ListOf(n.anyOf), Any); }
    if ListOf(n.allOf) != [] { var all := VariantsCanonical(less, n, ListOf(n.allOf), All); }
  }

  lemma MergedCanonical(less: Order, ts: seq<string>)
    requires ts != []
    ensures Canonical(less, EMPTY.(types := Sorted(ts)))
  {
    SortedAscends(ts);
  }

  lemma {:induction false} SimpleTypes(vs: seq<Node>)
    requires vs != [] && AllSimple(vs)
    ensures TypesOf(vs) != []
  {
    assert vs[0] in vs;
  }

  lemma CollapseUnionCanonical(less: Order, n: Node, vs: seq<Node>)
    requires vs != [] && forall b :: b in vs ==> Canonical(less, b)
    ensures CollapseUnion(n, vs) == n || Canonical(less, CollapseUnion(n, vs))
  {
    hide Canonical, Simple;
    if |vs| == 1 {
      assert vs[0] in vs;
    } else if AllSimple(vs) {
      SimpleTypes(vs);
      MergedCanonical(less, TypesOf(vs));
    }
  }

  // Two schemas of one canonical form are told apart by nothing the form keeps.
  lemma {:induction false} CanonIsCanonical(less: Order, n: Node)
    requires StrictOrder(less)
    ensures Canonical(less, Canon(less, n))
    decreases n, 2
  {
    var m := Parts(less, n);
    PartsAreCanonical(less, n);
    CollapsedCanonical(less, m);
  }

  lemma CollapsedCanonical(less: Order, m: Node)
    requires PartsCanonical(less, m)
    ensures Canonical(less, Collapse(m))
  {
    hide Ascending, Simple;
    if Pure(m, One) {
      CollapseUnionCanonical(less, m, m.oneOf.all);
    } else if Pure(m, Any) {
      CollapseUnionCanonical(less, m, m.anyOf.all);
    } else if Pure(m, All) && |m.allOf.all| == 1 {
      assert m.allOf.all[0] in m.allOf.all;
    }
  }

  lemma {:induction false} FlatStays(less: Order, n: Node, vs: seq<Node>, kind: Kind)
    requires StrictOrder(less) && Inside(n, vs) && forall b :: b in vs ==> Canonical(less, b) && !Pure(b, kind)
    ensures Flat(less, n, vs, kind) == vs
    decreases n, 0, |vs|
  {
    hide Pure, Canonical, Canon;
    if vs != [] {
      TailInside(n, vs);
      assert vs[0] in vs;
      CanonStays(less, vs[0]);
      FlatStays(less, n, vs[1..], kind);
      assert vs == [vs[0]] + vs[1..];
    }
  }

  lemma ListStays(less: Order, n: Node, v: Variants, kind: Kind)
    requires StrictOrder(less) && (v.Variants? ==> Inside(n, v.all)) && CanonicalList(less, n, v, kind)
    ensures Inside(n, ListOf(v)) && CanonVariants(less, n, ListOf(v), kind) == v
    decreases n, 1
  {
    hide Pure, Canonical;
    if v.Variants? {
      FlatStays(less, n, v.all, kind);
      SortedStays(less, v.all);
    }
  }

  // A canonical node is its own canonical form.
  lemma {:induction false} CanonStays(less: Order, n: Node)
    requires StrictOrder(less) && Canonical(less, n)
    ensures Canon(less, n) == n
    decreases n, 2
  {
    hide Pure, Ascending, Collapse;
    var m := Parts(less, n);
    if n.props.Props? {
      forall k | k in n.props.all ensures m.props.all[k] == n.props.all[k] { CanonStays(less, n.props.all[k]); }
      assert m.props.all == n.props.all;
    }
    if n.items.Items? { CanonStays(less, n.items.of); }
    SortedAscends(n.types);
    if n.required.Some? { SortedAscends(n.required.value); }
    ListStays(less, n, n.oneOf, One);
    ListStays(less, n, n.anyOf, Any);
    ListStays(less, n, n.allOf, All);
    assert m == n;
  }

  lemma CanonIdempotent(less: Order, n: Node)
    requires StrictOrder(less)
    ensures Canon(less, Canon(less, n)) == Canon(less, n)
  {
    CanonIsCanonical(less, n);
    CanonStays(less, Canon(less, n));
  }
}
