/**
 One strict order of schema nodes: a node is written as a tree of numbers and texts, and trees are
 compared part by part. It shows that an order as canonical forms need it exists, for nodes with
 real bounds, enums and defaults of any kind.
 */
module NodeOrder {
  import opened Common
  import opened Schema
  import opened Sorting
  import opened Canonical

  datatype Tree = Number(r: real) | Text(s: string) | Branch(all: seq<Tree>)

  // --- the order of trees ---

  ghost predicate PartsOf(t: Tree, xs: seq<Tree>) {
    forall x :: x in xs ==> x < t
  }

  lemma TailParts(t: Tree, xs: seq<Tree>)
    requires PartsOf(t, xs) && xs != []
    ensures xs[0] < t && PartsOf(t, xs[1..])
  {
    assert xs[0] in xs;
    forall x | x in xs[1..] ensures x < t { assert x in xs; }
  }

  // Numbers before texts before branches.
  predicate TreeLess(a: Tree, b: Tree)
    decreases a, 1
  {
    match a
    case Number(r) => if b.Number? then r < b.r else true
    case Text(s) => if b.Text? then TextLess(s, b.s) else b.Branch?
    case Branch(xs) => b.Branch? && ListLess(a, xs, b.all)
  }

  predicate ListLess(t: Tree, xs: seq<Tree>, ys: seq<Tree>)
    requires PartsOf(t, xs)
    decreases t, 0, |xs|
  {
    if ys == [] then false
    else if xs == [] then true
    else
      TailParts(t, xs);
      TreeLess(xs[0], ys[0]) || (xs[0] == ys[0] && ListLess(t, xs[1..], ys[1..]))
  }

  lemma {:induction false} TreeTotal(a: Tree, b: Tree)
    ensures TreeLess(a, b) || TreeLess(b, a) || a == b
    ensures !(TreeLess(a, b) && TreeLess(b, a)) && !TreeLess(a, a)
    decreases a, 1
  {
    match a
    case Number(_) =>
    case Text(s) =>
      TextTotal(s, s);
      if b.Text? { TextTotal(s, b.s); }
    case Branch(xs) =>
      ListTotal(a, xs, a, xs);
      if b.Branch? { ListTotal(a, xs, b, b.all); }
  }

  lemma {:induction false} ListTotal(t: Tree, xs: seq<Tree>, u: Tree, ys: seq<Tree>)
    requires PartsOf(t, xs) && PartsOf(u, ys)
    ensures ListLess(t, xs, ys) || ListLess(u, ys, xs) || xs == ys
    ensures !(ListLess(t, xs, ys) && ListLess(u, ys, xs)) && (t == u && xs == ys ==> !ListLess(t, xs, ys))
    decreases t, 0, |xs|
  {
    if xs != [] && ys != [] {
      TailParts(t, xs);
      TailParts(u, ys);
      TreeTotal(xs[0], ys[0]);
      ListTotal(t, xs[1..], u, ys[1..]);
      assert xs == [xs[0]] + xs[1..] && ys == [ys[0]] + ys[1..];
    }
  }

  lemma {:induction false} TreeTransitive(a: Tree, b: Tree, c: Tree)
    requires TreeLess(a, b) && TreeLess(b, c)
    ensures TreeLess(a, c)
    decreases a, 1
  {
    match a
    case Number(_) =>
    case Text(s) => if b.Text? && c.Text? { TextTransitive(s, b.s, c.s); }
    case Branch(xs) => ListTransitive(a, xs, b, b.all, c.all);
  }

  lemma {:induction false} ListTransitive(t: Tree, xs: seq<Tree>, u: Tree, ys: seq<Tree>, zs: seq<Tree>)
    requires PartsOf(t, xs) && PartsOf(u, ys) && ListLess(t, xs, ys) && ListLess(u, ys, zs)
    ensures ListLess(t, xs, zs)
    decreases t, 0, |xs|
  {
    if xs != [] {
      TailParts(t, xs);
      TailParts(u, ys);
      if TreeLess(xs[0], ys[0]) && TreeLess(ys[0], zs[0]) {
        TreeTransitive(xs[0], ys[0], zs[0]);
      } else if xs[0] == ys[0] == zs[0] {
        ListTransitive(t, xs[1..], u, ys[1..], zs[1..]);
      }
    }
  }

  // --- nodes as trees ---

  const NONE: Tree := Branch([])

  function Flag(b: bool): Tree {
    Number(if b then 1.0 else 0.0)
  }

  // The keys of a map in some order, the same for the same keys.
  ghost function Listing(ks: set<string>): (r: seq<string>)
    ensures forall k :: k in r <==> k in ks
  {
    if ks == {} then [] else
      var k :| k in ks;
      [k] + Listing(ks - {k})
  }

  ghost function ValueTree(v: Value): Tree
    decreases v, 1
  {
    match v
    case Null => NONE
    case Bool(b) => Branch([Flag(b)])
    case Num(r) => Number(r)
    case Str(s) => Text(s)
    case Arr(items) => Branch([Text("a"), Branch(seq(|items|, i requires 0 <= i < |items| => ValueTree(items[i])))])
    case Obj(fields) => Branch([Text("o"), Branch(FieldTrees(v, Listing(fields.Keys)))])
  }

  ghost function FieldTrees(v: Value, ks: seq<string>): (r: seq<Tree>)
    requires v.Obj? && forall k :: k in ks ==> k in v.fields
    ensures |r| == |ks|
    decreases v, 0, |ks|
  {
    if ks == [] then [] else
      assert ks[0] in ks;
      [Branch([Text(ks[0]), ValueTree(v.fields[ks[0]])])] + FieldTrees(v, ks[1..])
  }

  lemma {:induction false} ValueTreeInjective(v: Value, w: Value)
    requires ValueTree(v) == ValueTree(w)
    ensures v == w
    decreases v, 1
  {
    match v
    case Null =>
    case Bool(b) => assert w.Bool?; assert Flag(b) == ValueTree(v).all[0] == ValueTree(w).all[0] == Flag(w.b);
    case Num(_) =>
    case Str(_) =>
    case Arr(items) =>
      assert ValueTree(v).all[0] == Text("a") && ValueTree(w).all[0] == Text("a");
      assert ValueTree(v).all[1] == ValueTree(w).all[1];
      var xs, ys := ValueTree(v).all[1].all, ValueTree(w).all[1].all;
      forall i | 0 <= i < |items| ensures items[i] == w.items[i] {
        assert xs[i] == ValueTree(items[i]) && ys[i] == ValueTree(w.items[i]);
        ValueTreeInjective(items[i], w.items[i]);
      }
      assert items == w.items;
    case Obj(fields) =>
      assert ValueTree(v).all[0] == Text("o") && ValueTree(w).all[0] == Text("o");
      assert ValueTree(v).all[1] == ValueTree(w).all[1];
      FieldsInjective(v, Listing(fields.Keys), w, Listing(w.fields.Keys));
      assert fields == w.fields;
  }

  lemma {:induction false} FieldsInjective(v: Value, ks: seq<string>, w: Value, ls: seq<string>)
    requires v.Obj? && w.Obj? && (forall k :: k in ks ==> k in v.fields) && forall k :: k in ls ==> k in w.fields
    requires FieldTrees(v, ks) == FieldTrees(w, ls)
    ensures ks == ls && forall k :: k in ks ==> v.fields[k] == w.fields[k]
    decreases v, 0, |ks|
  {
    if ks != [] {
      assert ks[0] in ks && ls[0] in ls;
      var x, y := FieldTrees(v, ks)[0], FieldTrees(w, ls)[0];
      assert x.all[0] == y.all[0] && x.all[1] == y.all[1];
      ValueTreeInjective(v.fields[ks[0]], w.fields[ls[0]]);
      assert FieldTrees(v, ks)[1..] == FieldTrees(v, ks[1..]) && FieldTrees(w, ls)[1..] == FieldTrees(w, ls[1..]);
      FieldsInjective(v, ks[1..], w, ls[1..]);
      assert ks == [ks[0]] + ks[1..] && ls == [ls[0]] + ls[1..];
    }
  }

  function Names(ss: seq<string>): Tree {
    Branch(seq(|ss|, i requires 0 <= i < |ss| => Text(ss[i])))
  }

  lemma NamesInjective(a: seq<string>, b: seq<string>)
    requires Names(a) == Names(b)
    ensures a == b
  {
    var xs, ys := Names(a).all, Names(b).all;
    assert |a| == |xs| == |ys| == |b|;
    forall i | 0 <= i < |a| ensures a[i] == b[i] { assert xs[i] == Text(a[i]) && ys[i] == Text(b[i]); }
  }

  function Maybe<T>(o: Option<T>, f: T -> Tree): Tree {
    if o.Some? then Branch([f(o.value)]) else NONE
  }

  lemma MaybeInjective<T>(a: Option<T>, b: Option<T>, f: T -> Tree)
    requires Maybe(a, f) == Maybe(b, f)
    ensures a.Some? == b.Some? && (a.Some? ==> f(a.value) == f(b.value))
  {
    if a.Some? && b.Some? { assert Maybe(a, f).all[0] == Maybe(b, f).all[0]; }
  }

  ghost function Values(vs: seq<Value>): Tree {
    Branch(seq(|vs|, i requires 0 <= i < |vs| => ValueTree(vs[i])))
  }

  lemma ValuesInjective(a: seq<Value>, b: seq<Value>)
    requires Values(a) == Values(b)
    ensures a == b
  {
    var xs, ys := Values(a).all, Values(b).all;
    assert |a| == |xs| == |ys| == |b|;
    forall i | 0 <= i < |a| ensures a[i] == b[i] {
      assert xs[i] == ValueTree(a[i]) && ys[i] == ValueTree(b[i]);
      ValueTreeInjective(a[i], b[i]);
    }
  }

  ghost function NodeTree(n: Node): Tree
    decreases n, 2
  {
    Branch([Names(n.types), PropsTree(n), Maybe(n.required, Names), ItemsTree(n),
            VariantsTree(n, n.oneOf), VariantsTree(n, n.anyOf), VariantsTree(n, n.allOf)] + Plain(n))
  }

  // The keywords that hold no node.
  ghost function Plain(n: Node): (r: seq<Tree>)
    ensures |r| == 8
  {
    [Maybe(n.enums, Values), Maybe(n.minimum, Real), Maybe(n.maximum, Real), Maybe(n.minLength, Whole), Maybe(n.maxLength, Whole),
     Maybe(n.minItems, Whole), Maybe(n.maxItems, Whole), Maybe(n.default, ValueTree)]
  }

  function Real(r: real): Tree {
    Number(r)
  }

  function Whole(i: int): Tree {
    Number(i as real)
  }

  ghost function PropsTree(n: Node): Tree
    decreases n, 1
  {
    if n.props.Props? then Branch([Branch(PropTrees(n, Listing(n.props.all.Keys)))]) else NONE
  }

  ghost function PropTrees(n: Node, ks: seq<string>): (r: seq<Tree>)
    requires forall k :: k in ks ==> k in PropsOf(n)
    ensures |r| == |ks|
    decreases n, 0, |ks|
  {
    if ks == [] then [] else
      assert ks[0] in ks;
      [Branch([Text(ks[0]), NodeTree(PropsOf(n)[ks[0]])])] + PropTrees(n, ks[1..])
  }

  ghost function ItemsTree(n: Node): Tree
    decreases n, 1
  {
    if n.items.Items? then Branch([NodeTree(n.items.of)]) else NONE
  }

  ghost function VariantsTree(n: Node, vs: Variants): Tree
    requires vs.Variants? ==> Inside(n, vs.all)
    decreases n, 1
  {
    if vs.Variants? then Branch([Branch(NodeTrees(n, vs.all))]) else NONE
  }

  ghost function NodeTrees(n: Node, vs: seq<Node>): (r: seq<Tree>)
    requires Inside(n, vs)
    ensures |r| == |vs|
    decreases n, 0, |vs|
  {
    if vs == [] then [] else
      TailInside(n, vs);
      [NodeTree(vs[0])] + NodeTrees(n, vs[1..])
  }

  lemma PlainInjective(a: Node, b: Node)
    requires Plain(a) == Plain(b)
    ensures a.enums == b.enums && a.default == b.default && a.minimum == b.minimum && a.maximum == b.maximum
    ensures a.minLength == b.minLength && a.maxLength == b.maxLength && a.minItems == b.minItems && a.maxItems == b.maxItems
  {
    var x, y := Plain(a), Plain(b);
    assert forall i :: 0 <= i < 8 ==> x[i] == y[i];
    MaybeInjective(a.enums, b.enums, Values);
    if a.enums.Some? { ValuesInjective(a.enums.value, b.enums.value); }
    MaybeInjective(a.minimum, b.minimum, Real);
    MaybeInjective(a.maximum, b.maximum, Real);
    MaybeInjective(a.minLength, b.minLength, Whole);
    MaybeInjective(a.maxLength, b.maxLength, Whole);
    MaybeInjective(a.minItems, b.minItems, Whole);
    MaybeInjective(a.maxItems, b.maxItems, Whole);
    MaybeInjective(a.default, b.default, ValueTree);
    if a.default.Some? { ValueTreeInjective(a.default.value, b.default.value); }
  }

  lemma {:induction false} NodeTreeInjective(a: Node, b: Node)
    requires NodeTree(a) == NodeTree(b)
    ensures a == b
    decreases a, 2
  {
    hide Maybe, Names, PropsTree, ItemsTree, VariantsTree, Plain;
    var x, y := NodeTree(a).all, NodeTree(b).all;
    assert x[0] == y[0] && x[1] == y[1] && x[2] == y[2] && x[3] == y[3] && x[4] == y[4] && x[5] == y[5] && x[6] == y[6];
    assert x[7..] == Plain(a) && y[7..] == Plain(b);
    NamesInjective(a.types, b.types);
    PropsInjective(a, b);
    MaybeInjective(a.required, b.required, Names);
    if a.required.Some? { NamesInjective(a.required.value, b.required.value); }
    ItemsInjective(a, b);
    VariantsInjective(a, a.oneOf, b, b.oneOf);
    VariantsInjective(a, a.anyOf, b, b.anyOf);
    VariantsInjective(a, a.allOf, b, b.allOf);
    PlainInjective(a, b);
  }

  lemma {:induction false} PropsInjective(a: Node, b: Node)
    requires PropsTree(a) == PropsTree(b)
    ensures a.props == b.props
    decreases a, 1
  {
    hide NodeTree;
    if a.props.Props? && b.props.Props? {
      assert PropsTree(a).all[0] == PropsTree(b).all[0];
      PropTreesInjective(a, Listing(a.props.all.Keys), b, Listing(b.props.all.Keys));
      assert a.props.all == b.props.all;
    }
  }

  lemma {:induction false} PropTreesInjective(a: Node, ks: seq<string>, b: Node, ls: seq<string>)
    requires (forall k :: k in ks ==> k in PropsOf(a)) && forall k :: k in ls ==> k in PropsOf(b)
    requires PropTrees(a, ks) == PropTrees(b, ls)
    ensures ks == ls && forall k :: k in ks ==> PropsOf(a)[k] == PropsOf(b)[k]
    decreases a, 0, |ks|
  {
    hide NodeTree, PropsOf;
    if ks != [] {
      assert ks[0] in ks && ls[0] in ls;
      var x, y := PropTrees(a, ks)[0], PropTrees(b, ls)[0];
      assert x.all[0] == y.all[0] && x.all[1] == y.all[1];
      NodeTreeInjective(PropsOf(a)[ks[0]], PropsOf(b)[ls[0]]);
      assert PropTrees(a, ks)[1..] == PropTrees(a, ks[1..]) && PropTrees(b, ls)[1..] == PropTrees(b, ls[1..]);
      PropTreesInjective(a, ks[1..], b, ls[1..]);
      assert ks == [ks[0]] + ks[1..] && ls == [ls[0]] + ls[1..];
    }
  }

  lemma {:induction false} ItemsInjective(a: Node, b: Node)
    requires ItemsTree(a) == ItemsTree(b)
    ensures a.items == b.items
    decreases a, 1
  {
    hide NodeTree;
    if a.items.Items? && b.items.Items? {
      assert ItemsTree(a).all[0] == ItemsTree(b).all[0];
      NodeTreeInjective(a.items.of, b.items.of);
    }
  }

  lemma {:induction false} VariantsInjective(a: Node, vs: Variants, b: Node, ws: Variants)
    requires (vs.Variants? ==> Inside(a, vs.all)) && (ws.Variants? ==> Inside(b, ws.all))
    requires VariantsTree(a, vs) == VariantsTree(b, ws)
    ensures vs == ws
    decreases a, 1
  {
    hide NodeTree;
    if vs.Variants? && ws.Variants? {
      assert VariantsTree(a, vs).all[0] == VariantsTree(b, ws).all[0];
      NodeTreesInjective(a, vs.all, b, ws.all);
    }
  }

  lemma {:induction false} NodeTreesInjective(a: Node, vs: seq<Node>, b: Node, ws: seq<Node>)
    requires Inside(a, vs) && Inside(b, ws) && NodeTrees(a, vs) == NodeTrees(b, ws)
    ensures vs == ws
    decreases a, 0, |vs|
  {
    hide NodeTree;
    if vs != [] {
      TailInside(a, vs);
      TailInside(b, ws);
      assert NodeTrees(a, vs)[0] == NodeTrees(b, ws)[0];
      NodeTreeInjective(vs[0], ws[0]);
      assert NodeTrees(a, vs)[1..] == NodeTrees(a, vs[1..]) && NodeTrees(b, ws)[1..] == NodeTrees(b, ws[1..]);
      NodeTreesInjective(a, vs[1..], b, ws[1..]);
      assert vs == [vs[0]] + vs[1..] && ws == [ws[0]] + ws[1..];
    }
  }

  // --- the order ---

  ghost predicate NodeLess(a: Node, b: Node) {
    TreeLess(NodeTree(a), NodeTree(b))
  }

  // An order of nodes as canonical forms ask for it.
  lemma SomeOrder() returns (less: Order)
    ensures StrictOrder(less)
  {
    hide TreeLess, NodeTree;
    less := NodeLess;
    forall a, b ensures (NodeLess(a, b) || NodeLess(b, a) || a == b) && !NodeLess(a, a) {
      TreeTotal(NodeTree(a), NodeTree(b));
      if NodeTree(a) == NodeTree(b) { NodeTreeInjective(a, b); }
    }
    forall a, b, c | NodeLess(a, b) && NodeLess(b, c) ensures NodeLess(a, c) {
      TreeTransitive(NodeTree(a), NodeTree(b), NodeTree(c));
    }
  }
}
