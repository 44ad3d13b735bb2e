/**
 Where a type is inferred and evaluation does not keep it: one expression, context and
 environment for each side condition of soundness. Each lemma gives the inferred type and the
 outcome of the evaluation, so that the two can be compared; for the operator that looks at how
 a number is held, and for paths that print alike, the exact condition is given as well.
 */
module TypingGaps {
  import opened Common
  import opened Schema
  import opened Expression
  import opened Inference
  import opened Membership
  import opened TypeSoundness

  ghost predicate Unsound(e: Expr, root: Node, env: Env) {
    && EnvFits(root, env)
    && Infer(e, root, map[]).Ok?
    && !Sound(Eval(e, env), Infer(e, root, map[]).value)
  }

  function Context(props: map<string, Node>): Node {
    Type("object").(props := Props(props), required := Some(["x"]))
  }

  const X: Expr := Ident("x")

  lemma OnlyType(t: string, v: Datum)
    requires t != "object" && t != "array"
    ensures Mem(Type(t), v) <==> OfType(v, t)
  {
    assert forall u :: u in Type(t).types <==> u == t;
  }

  lemma RootIs(t: Node)
    ensures Lookup(Context(map["x" := t]), "x") == Ok(t)
    ensures Infer(X, Context(map["x" := t]), map[]) == Ok(t)
  {
    assert "x" in ["x"];
  }

  lemma Refuted(e: Expr, t: Node, x: Datum, r: Node)
    requires Mem(t, x) && Infer(e, Context(map["x" := t]), map[]) == Ok(r) && !Sound(Eval(e, map["x" := x]), r)
    ensures Unsound(e, Context(map["x" := t]), map["x" := x])
  {
    hide Mem, Infer, Eval, Sound;
  }

  // JSON numbers decode as floats, which % refuses although their type is integer.
  lemma ModuloOnDecodedNumber()
    ensures Unsound(Binary(Mod, X, IntLit(2)), Context(map["x" := Type("integer")]), map["x" := VFloat(7.0)])
  {
    hide Mem, Lookup;
    var t, e := Type("integer"), Binary(Mod, X, IntLit(2));
    RootIs(t);
    OnlyType("integer", VFloat(7.0));
    assert (7.0).Floor == 7;
    Refuted(e, t, VFloat(7.0), t);
  }

  // % meets its type exactly on values held as integers.
  lemma ModuloIsForIntegers(l: Datum, r: Datum)
    requires OfType(l, "integer") && OfType(r, "integer")
    ensures Sound(Apply(Mod, l, r), Type("integer")) <==> l.VInt? && r.VInt?
  {
    if l.VInt? && r.VInt? && r.i != 0 {
      var k := Remainder(l.i, r.i);
      assert k as real == (k as real).Floor as real;
      OnlyType("integer", VInt(k));
    }
  }

  // Comparing two maps panics.
  lemma ObjectsPanic()
    ensures Unsound(Binary(Eq, X, X), Context(map["x" := Type("object")]), map["x" := VObj(map[])])
  {
    RootIs(Type("object"));
    var v := VObj(map[]);
    assert "object" in Type("object").types && OfType(v, "object");
    assert FieldsMem(Type("object"), v.fields);
  }

  // == and != meet their type exactly on values that are not two containers of a kind.
  lemma EqualityIsForScalars(op: BinaryOp, l: Datum, r: Datum)
    requires op == Eq || op == Ne
    ensures Sound(Apply(op, l, r), Type("boolean")) <==> !(l.VObj? && r.VObj?) && !(l.VArr? && r.VArr?)
  {
    forall b ensures Mem(Type("boolean"), VBool(b)) { OnlyType("boolean", VBool(b)); }
  }

  // The type of a ?? b holds of every pair of values exactly when the left type does not hide null,
  // or admits whatever the right one does.
  lemma CoalesceExactly(l: Node, r: Node)
    requires Shaped(l) && Shaped(r) && Shaped(InferCoalesce(l, r))
    ensures (forall lv, rv :: Mem(l, lv) && (lv == VNull ==> Mem(r, rv)) ==> Mem(InferCoalesce(l, r), if lv == VNull then rv else lv))
              <==> (HidesNull(l) ==> forall rv :: Mem(r, rv) ==> Mem(l, rv))
  {
    hide Mem, Shaped;
    if HidesNull(l) {
      assert InferCoalesce(l, r) == l by { HiddenIsKept(l, r); }
      forall rv | (forall lv, rv :: Mem(l, lv) && (lv == VNull ==> Mem(r, rv)) ==> Mem(l, if lv == VNull then rv else lv)) && Mem(r, rv)
        ensures Mem(l, rv)
      {
        assert Mem(l, VNull);
      }
    } else {
      forall lv, rv | Mem(l, lv) && (lv == VNull ==> Mem(r, rv)) ensures Mem(InferCoalesce(l, r), if lv == VNull then rv else lv) {
        CoalesceSound(l, r, lv, rv);
      }
    }
  }

  lemma NullTypeStrips(l: Node)
    ensures IsNullType(l) ==> StripNull(l) != l
  {
    if IsNullType(l) {
      assert l.types[1..] == [];
      assert NonNullTypes(l.types) == [] + NonNullTypes(l.types[1..]) == [];
    }
  }

  lemma HiddenIsKept(l: Node, r: Node)
    requires HidesNull(l)
    ensures InferCoalesce(l, r) == l
  {
    NullTypeStrips(l);
  }

  // Null inside a variant is not taken for null, so ?? keeps a type its default is not in.
  lemma HiddenNull()
    ensures
      var t := OneOf([NULLABLE_STRING, Type("boolean")]);
      Unsound(Binary(Coalesce, X, IntLit(5)), Context(map["x" := t]), map["x" := VNull]) && HidesNull(t)
  {
    hide OfType, Mem, Lookup, StripNull, Unwrap, ConcreteType;
    var vs := [NULLABLE_STRING, Type("boolean")];
    var t := OneOf(vs);
    UnionOfTwo(vs);
    RootIs(t);
    assert !IsNullType(t) && InferCoalesce(t, Type("integer")) == t;
    IntegerUnwraps();
    Refuted(Binary(Coalesce, X, IntLit(5)), t, VNull, t);
  }

  lemma IntegerUnwraps()
    ensures Unwrap(Type("integer")) == Type("integer")
  {
  }

  lemma UnionOfTwo(vs: seq<Node>)
    requires vs == [NULLABLE_STRING, Type("boolean")]
    ensures Mem(OneOf(vs), VNull) && !Mem(OneOf(vs), VInt(5))
    ensures StripNull(OneOf(vs)) == OneOf(vs) && Unwrap(OneOf(vs)) == OneOf(vs)
  {
    hide OfType;
    assert vs[0] == NULLABLE_STRING && vs[1] == Type("boolean") && |vs| == 2 && NULLABLE_STRING in vs;
    NullableString();
    BooleansOnly();
    assert vs[1..] == [vs[1]] && vs[1..][1..] == [];
    assert NonNullVariants(vs[1..]) == [vs[1]] + NonNullVariants(vs[1..][1..]);
    assert NonNullVariants(vs) == [vs[0]] + NonNullVariants(vs[1..]) == vs;
  }

  const NULLABLE_STRING: Node := Type("string").(types := ["string", "null"])

  lemma NullableString()
    ensures Mem(NULLABLE_STRING, VNull) && !Mem(NULLABLE_STRING, VInt(5))
    ensures !IsNullType(NULLABLE_STRING) && !IsEmpty(NULLABLE_STRING)
  {
    var n := NULLABLE_STRING;
    assert n.types[0] == "string" && n.types[1] == "null" && OfType(VNull, "null");
    assert forall u :: u in n.types <==> u == "string" || u == "null";
  }

  lemma BooleansOnly()
    ensures !Mem(Type("boolean"), VInt(5)) && !IsNullType(Type("boolean"))
  {
    OnlyType("boolean", VInt(5));
  }

  // Null in a type list beside object: the property counts as required, the value is null.
  lemma NullableObject()
    ensures
      var o := Type("object").(types := ["object", "null"], props := Props(map["a" := Type("string")]), required := Some(["a"]));
      Unsound(Member(X, StrLit("a")), Context(map["x" := o]), map["x" := VNull])
  {
    var o := Type("object").(types := ["object", "null"], props := Props(map["a" := Type("string")]), required := Some(["a"]));
    RootIs(o);
    assert "null" in o.types && OfType(VNull, "null");
    assert "a" in ["a"];
    assert PathOf(Member(X, StrLit("a"))) != "";
    OnlyType("string", VNull);
  }

  // An untyped variant may hold an object that has the property, with any value.
  const HAS_A: Node := Type("object").(props := Props(map["a" := Type("string")]), required := Some(["a"]))

  lemma UntypedVariant()
    ensures Unsound(Member(X, StrLit("a")), Context(map["x" := OneOf([HAS_A, EMPTY])]), map["x" := VObj(map["a" := VInt(1)])])
  {
    hide Mem, Lookup, OfType, Hits;
    var vs := [HAS_A, EMPTY];
    var t := OneOf(vs);
    var v := VObj(map["a" := VInt(1)]);
    var r := Type("string").(types := ["string", "null"]);
    RootIs(t);
    UntypedLookup(t, vs, r);
    AdmittedUntyped(t, vs, v);
    NotInNullableString(r);
    assert PathOf(Member(X, StrLit("a"))) == "x.a";
    Refuted(Member(X, StrLit("a")), t, v, r);
  }

  lemma AdmittedUntyped(t: Node, vs: seq<Node>, v: Datum)
    requires vs == [HAS_A, EMPTY] && t == OneOf(vs)
    ensures Mem(t, v)
  {
    assert vs[1] == EMPTY && EMPTY in vs && Mem(EMPTY, v);
  }

  lemma NotInNullableString(r: Node)
    requires r == Type("string").(types := ["string", "null"])
    ensures !Mem(r, VInt(1))
  {
    assert forall u :: u in r.types <==> u == "string" || u == "null";
  }

  lemma UntypedLookup(t: Node, vs: seq<Node>, r: Node)
    requires vs == [HAS_A, EMPTY] && t == OneOf(vs) && r == Type("string").(types := ["string", "null"])
    ensures Lookup(t, "a") == Ok(r)
  {
    assert vs[0] == HAS_A && vs[1] == EMPTY && EMPTY in vs;
    assert "a" in ["a"];
    assert Lookup(HAS_A, "a") == Ok(Type("string"));
    assert Lookup(EMPTY, "a").Err?;
    assert vs[1..] == [EMPTY] && Hits(t, vs[1..], "a") == [] by { assert vs[1..][1..] == []; }
    assert Hits(t, vs, "a") == [Type("string")];
    assert Missed(t, vs, "a");
    assert WithNull(Type("string")) == r;
  }

  // A field called "a.b" and field b of field a print as the same path.
  const INNER: Node := Type("object").(props := Props(map["b" := Type("string")]), required := Some(["b"]))
  const NULLABLE_INTEGER: Node := Type("string").(types := ["integer", "null"])
  const OUTER: Node := Type("object").(props := Props(map["a" := INNER, "a.b" := NULLABLE_INTEGER]), required := Some(["a", "a.b"]))
  const INNER_VALUE: Datum := VObj(map["b" := VStr("s")])
  const OUTER_VALUE: Datum := VObj(map["a" := INNER_VALUE, "a.b" := VInt(1)])
  const DOTTED: Expr := Member(X, StrLit("a.b"))
  const NESTED: Expr := Member(Member(X, StrLit("a")), StrLit("b"))

  lemma CollidingNames()
    ensures PathOf(DOTTED) == PathOf(NESTED)
    ensures Unsound(Cond(Binary(Eq, DOTTED, Ident("null")), IntLit(0), NESTED), Context(map["x" := OUTER]), map["x" := OUTER_VALUE])
  {
    hide Mem, OfType, Infer, Eval;
    var root := Context(map["x" := OUTER]);
    var e := Cond(Binary(Eq, DOTTED, Ident("null")), IntLit(0), NESTED);
    assert PathOf(DOTTED) == "x.a.b" == PathOf(NESTED);
    CollidingTypes(root);
    CollidingValues();
    OuterFits();
    OnlyType("integer", VStr("s"));
    StringIsNotInteger();
  }

  lemma StringIsNotInteger()
    ensures !OfType(VStr("s"), "integer")
  {
  }

  lemma DottedType(root: Node)
    requires root == Context(map["x" := OUTER])
    ensures Infer(DOTTED, root, map[]) == Ok(NULLABLE_INTEGER)
    ensures StripNull(NULLABLE_INTEGER) == Type("integer")
  {
    RootIs(OUTER);
    var d := NULLABLE_INTEGER;
    assert ["a", "a.b"][0] == "a" && ["a", "a.b"][1] == "a.b";
    assert IsRequired(OUTER, "a.b");
    assert NonNullTypes(d.types) == ["integer"] by { assert d.types[1..] == ["null"] && d.types[1..][1..] == []; }
  }

  lemma DifferentBranch(root: Node, cond: Expr, guards: Guards)
    requires root == Context(map["x" := OUTER]) && cond == Binary(Eq, DOTTED, Ident("null"))
    requires guards == map[PathOf(NESTED) := Type("integer")]
    ensures NoGuards(cond, root, map[]) == guards
  {
    hide Lookup, Index, StripNull;
    DottedType(root);
    assert PathOf(DOTTED) == "x.a.b" == PathOf(NESTED);
    assert IsComparison(cond) && Subject(cond) == DOTTED && Literal(cond) == Ident("null") && IsNullWord(Literal(cond));
    assert WhenDifferent(cond, map[], Ok(NULLABLE_INTEGER)) == map[][PathOf(DOTTED) := Type("integer")];
    assert map[][PathOf(DOTTED) := Type("integer")] == guards;
  }

  lemma CollidingTypes(root: Node)
    requires root == Context(map["x" := OUTER])
    ensures Infer(Cond(Binary(Eq, DOTTED, Ident("null")), IntLit(0), NESTED), root, map[]) == Ok(Type("integer"))
  {
    hide Lookup, Index, StripNull, NoGuards, YesGuards;
    var cond := Binary(Eq, DOTTED, Ident("null"));
    DottedType(root);
    var guards: Guards := map[PathOf(NESTED) := Type("integer")];
    DifferentBranch(root, cond, guards);
    assert PathOf(NESTED) == "x.a.b";
    assert Infer(NESTED, root, guards) == Ok(Type("integer"));
    assert Infer(cond, root, map[]) == Ok(Type("boolean"));
  }

  lemma CollidingValues()
    ensures Eval(Cond(Binary(Eq, DOTTED, Ident("null")), IntLit(0), NESTED), map["x" := OUTER_VALUE]) == Val(VStr("s"))
  {
    var env: Env := map["x" := OUTER_VALUE];
    assert Eval(X, env) == Val(OUTER_VALUE) && Eval(DOTTED, env) == Val(VInt(1));
    assert Eval(Member(X, StrLit("a")), env) == Val(INNER_VALUE);
    assert Eval(Binary(Eq, DOTTED, Ident("null")), env) == Val(VBool(false));
    assert Eval(NESTED, env) == Val(VStr("s"));
  }

  lemma InnerFits()
    ensures Mem(INNER, INNER_VALUE)
  {
    OnlyType("string", VStr("s"));
    assert "object" in INNER.types && OfType(INNER_VALUE, "object");
    assert PropsOf(INNER) == map["b" := Type("string")];
  }

  lemma OneFits()
    ensures Mem(NULLABLE_INTEGER, VInt(1))
  {
    assert 1 as real == (1 as real).Floor as real;
    assert NULLABLE_INTEGER.types[0] == "integer" && OfType(VInt(1), "integer");
  }

  lemma OuterFits()
    ensures Mem(OUTER, OUTER_VALUE)
  {
    InnerFits();
    OneFits();
    assert "object" in OUTER.types && OfType(OUTER_VALUE, "object");
    hide OfType;
    assert PropsOf(OUTER) == map["a" := INNER, "a.b" := NULLABLE_INTEGER];
    assert FieldsMem(OUTER, OUTER_VALUE.fields);
  }

  // A computed member of null has a type; evaluation refuses every computed member.
  lemma ComputedMemberOfNull()
    ensures Unsound(Member(Ident("null"), X), Context(map["x" := Type("null")]), map["x" := VNull])
  {
    OnlyType("null", VNull);
  }

  // Negation keeps the operand's bounds: the type stays right, the bounds do not.
  lemma NegationKeepsBounds()
    ensures
      var t := Type("integer").(minimum := Some(1.0));
      && InferUnary(Neg, t) == Ok(t)
      && Conform(t, Num(3.0)) == Some(Num(3.0)) && ApplyUnary(Neg, VFloat(3.0)) == Val(VFloat(-3.0))
      && Conform(t, Num(-3.0)) == None
  {
    var t := Type("integer").(minimum := Some(1.0));
    assert (3.0).Floor == 3 && (-3.0).Floor == -3;
    assert "integer" in t.types && HasType(Num(3.0), "integer");
    assert HasType(Num(-3.0), "integer");
  }
}
