/**
 Contexts in which every type is known: inference never leaves them, so soundness needs only the
 side conditions one can read off the expression. Values the validator lets through belong to them.
 */
module TypedContexts {
  import opened Common
  import opened Schema
  import opened Expression
  import opened Inference
  import opened Membership
  import opened TypeSoundness
  import Subset

  // Nothing untyped anywhere: arrays say what they hold, null comes alone or beside another
  // type.
  predicate Solid(n: Node)
    decreases n
  {
    && !IsEmpty(n)
    && if n.anyOf.Variants? then
         n.types == [] && n.oneOf.NoVariants? && SomeNonNull(n.anyOf.all) && forall b :: b in n.anyOf.all ==> Solid(b)
       else if n.oneOf.Variants? then
         n.types == [] && SomeNonNull(n.oneOf.all) && forall b :: b in n.oneOf.all ==> Solid(b)
       else
         && n.types != []
         && (n == Type("null") || exists t :: t in n.types && t != "null")
         && (n.props.Props? ==> n.types == ["object"] && forall name :: name in n.props.all ==> Solid(n.props.all[name]))
         && ("array" in n.types ==> n.items.Items?)
         && (n.items.Items? ==> Solid(n.items.of))
  }

  predicate SomeNonNull(vs: seq<Node>) {
    exists b :: b in vs && !IsNullType(b)
  }

  lemma {:induction false} SolidFormed(n: Node)
    requires Solid(n)
    ensures Formed(n)
    decreases n
  {
    if VariantsOf(n).Variants? {
      forall b | b in VariantsOf(n).all ensures Formed(b) { SolidFormed(b); }
    } else {
      if n.props.Props? {
        forall name | name in n.props.all ensures Formed(n.props.all[name]) { SolidFormed(n.props.all[name]); }
      }
      if n.items.Items? { SolidFormed(n.items.of); }
    }
  }

  lemma SolidShaped(n: Node)
    requires Solid(n)
    ensures Shaped(n)
  {
    SolidFormed(n);
    SolidFirm(n);
  }

  lemma {:induction false} SolidFirm(n: Node)
    requires Solid(n)
    ensures Firm(n)
    decreases n
  {
    if VariantsOf(n).Variants? {
      forall b | b in VariantsOf(n).all ensures Firm(b) && !IsEmpty(b) { SolidFirm(b); }
    } else {
      if n.props.Props? {
        forall name | name in n.props.all ensures Firm(n.props.all[name]) { SolidFirm(n.props.all[name]); }
      }
      if n.items.Items? { SolidFirm(n.items.of); }
    }
  }

  lemma SolidScalar(t: string)
    requires t == "null" || t == "boolean" || t == "string" || t == "number" || t == "integer"
    ensures Solid(Type(t))
  {
    assert t in Type(t).types;
  }

  lemma OneNullType(n: Node)
    requires Solid(n) && IsNullType(n)
    ensures n == Type("null")
  {
    assert forall t :: t in n.types ==> t == "null";
  }

  lemma SolidUnion(vs: seq<Node>, exclusive: bool)
    requires SomeNonNull(vs) && forall b :: b in vs ==> Solid(b)
    ensures Solid(if exclusive then OneOf(vs) else AnyOf(vs))
  {
  }

  lemma WithNullSolid(n: Node)
    requires Solid(n)
    ensures Solid(WithNull(n))
  {
    if HasNull(n) {
    } else if n.types != [] && n.props.NoProps? {
      var t :| t in n.types && t != "null";
      assert t in WithNull(n).types;
    } else {
      SolidScalar("null");
      var u := [n, Type("null")];
      assert u[0] == n && u[1] == Type("null") && n in u;
      assert !IsNullType(n) by { assert IsNullType(n) ==> "null" in n.types; }
      SolidUnion(u, true);
    }
  }

  lemma StripPlainSolid(n: Node, t: string)
    requires Solid(n) && VariantsOf(n).NoVariants? && t in n.types && t != "null"
    ensures Solid(StripNull(n))
  {
    NonNullStays(n.types, t);
    NonNullFrom(n.types);
    var m := StripNull(n);
    assert m == n.(types := m.types) && t in m.types;
    if n.props.Props? { assert n.types[1..] == [] && m.types == n.types; }
  }

  lemma StripUnionSolid(n: Node, vs: seq<Node>)
    requires Solid(n) && VariantsOf(n) == Variants(vs)
    ensures Solid(StripNull(n))
  {
    var rest := NonNullVariants(vs);
    var b :| b in vs && !IsNullType(b);
    RestKeeps(vs, b);
    if |rest| == 1 { assert rest[0] in rest; }
    SolidUnion(rest, n.oneOf.Variants?);
  }

  lemma StripNullSolid(n: Node)
    requires Solid(n) && !IsNullType(n)
    ensures Solid(StripNull(n))
  {
    if VariantsOf(n).Variants? {
      StripUnionSolid(n, VariantsOf(n).all);
    } else {
      var t :| t in n.types && t != "null";
      StripPlainSolid(n, t);
    }
  }

  lemma {:induction false} NonNullFrom(ts: seq<string>)
    ensures forall t :: t in NonNullTypes(ts) ==> t in ts && t != "null"
  {
    if ts != [] { NonNullFrom(ts[1..]); }
  }

  // Null types are all the same node, so a merge of several kinds keeps another type.
  lemma MergeSolid(results: seq<Node>, exclusive: bool)
    requires results != [] && forall r :: r in results ==> Solid(r)
    ensures Solid(Merge(results, exclusive))
  {
    assert results[0] in results;
    if !AllSame(results) {
      if !SomeNonNull(results) {
        forall i | 0 <= i < |results| ensures results[i] == Type("null") {
          assert results[i] in results;
          OneNullType(results[i]);
        }
      }
      SolidUnion(results, exclusive);
    }
  }

  lemma {:induction false} HitsSolid(n: Node, vs: seq<Node>, name: string)
    requires Inside(n, vs) && forall b :: b in vs ==> Solid(b)
    ensures forall r :: r in Hits(n, vs, name) ==> Solid(r)
    decreases n, 0, |vs|
  {
    if vs != [] {
      TailInside(n, vs);
      assert vs[0] in vs;
      if Lookup(vs[0], name).Ok? { LookupSolid(vs[0], name); }
      HitsSolid(n, vs[1..], name);
    }
  }

  lemma {:induction false} LookupSolid(n: Node, name: string)
    requires Solid(n) && Lookup(n, name).Ok?
    ensures Solid(Lookup(n, name).value)
    decreases n, 1
  {
    if VariantsOf(n).Variants? {
      var vs := VariantsOf(n).all;
      HitsSolid(n, vs, name);
      SolidScalar("null");
      if Hits(n, vs, name) != [] {
        MergeSolid(Hits(n, vs, name), n.anyOf.NoVariants?);
        WithNullSolid(Merge(Hits(n, vs, name), n.anyOf.NoVariants?));
      }
    } else {
      WithNullSolid(n.props.all[name]);
    }
  }

  lemma {:induction false} ElementsSolid(n: Node, vs: seq<Node>)
    requires Inside(n, vs) && forall b :: b in vs ==> Solid(b)
    ensures forall r :: r in Elements(n, vs) ==> Solid(r)
    decreases n, 0, |vs|
  {
    if vs != [] {
      TailInside(n, vs);
      assert vs[0] in vs;
      if Index(vs[0]).Ok? { IndexSolid(vs[0]); }
      ElementsSolid(n, vs[1..]);
    }
  }

  lemma {:induction false} IndexSolid(n: Node)
    requires Solid(n) && Index(n).Ok?
    ensures Solid(Index(n).value)
    decreases n, 1
  {
    StripSmaller(n);
    var r := StripNull(n);
    if IsNullType(n) {
      OneNullType(n);
      NonNullFrom(n.types);
    }
    StripNullSolid(n);
    if VariantsOf(r).Variants? {
      ElementsSolid(n, VariantsOf(r).all);
      SolidScalar("null");
      var results := Elements(n, VariantsOf(r).all);
      if results != [] {
        MergeSolid(results, false);
        WithNullSolid(Merge(results, false));
      }
    } else {
      WithNullSolid(r.items.of);
    }
  }

  lemma UnwrapSolid(n: Node)
    requires Solid(n)
    ensures Solid(Unwrap(n))
  {
    if Unwrap(n) != n { assert VariantsOf(n).all[0] in VariantsOf(n).all; }
  }

  lemma EitherSolid(t: Node, f: Node)
    requires Solid(t) && Solid(f)
    ensures Solid(Either(t, f))
  {
    WithNullSolid(t);
    WithNullSolid(f);
    var u := [t, f];
    assert u[0] == t && u[1] == f;
    if IsNullType(t) && IsNullType(f) {
      OneNullType(t);
      OneNullType(f);
    }
    assert SomeNonNull(u) || t == f;
    if t != f { SolidUnion(u, true); }
  }

  lemma CoalesceSolid(l: Node, r: Node)
    requires Solid(l) && Solid(r)
    ensures Solid(InferCoalesce(l, r))
  {
    hide Solid, StripNull, ConcreteType;
    if !IsNullType(l) {
      StripNullSolid(l);
      SolidScalar("integer");
      SolidScalar("number");
      var rest := StripNull(l);
      var u := [rest, r];
      assert u[0] == rest && u[1] == r;
      StrippedNotNull(l);
      SolidUnion(u, true);
    }
  }

  lemma StrippedNotNull(n: Node)
    requires Solid(n) && !IsNullType(n)
    ensures !IsNullType(StripNull(n))
  {
    if n.types != [] {
      NonNullFrom(n.types);
      assert "null" in ["null"];
    } else {
      var vs := VariantsOf(n).all;
      var rest := NonNullVariants(vs);
      if |rest| == 1 { assert rest[0] in rest; }
    }
  }

  lemma BinarySolid(op: BinaryOp, l: Node, r: Node)
    requires Solid(l) && Solid(r) && InferBinary(op, l, r).Ok?
    ensures Solid(InferBinary(op, l, r).value)
  {
    hide Solid, InferCoalesce, ConcreteType, HasNull;
    SolidScalar("boolean");
    SolidScalar("string");
    SolidScalar("integer");
    SolidScalar("number");
    CoalesceSolid(l, r);
  }

  ghost predicate SolidGuards(guards: Guards) {
    forall p :: p in guards ==> Solid(guards[p])
  }

  // Narrowing by null is never applied to a subject that is nothing but null.
  predicate Narrows(e: Expr, root: Node, guards: Guards) {
    match e
    case Member(base, _) => Narrows(base, root, guards)
    case Binary(_, left, right) => Narrows(left, root, guards) && Narrows(right, root, guards)
    case Unary(_, operand) => Narrows(operand, root, guards)
    case Cond(cond, yes, no) =>
      && Narrows(cond, root, guards)
      && Narrows(yes, root, YesGuards(cond, root, guards)) && Narrows(no, root, NoGuards(cond, root, guards))
      && (IsComparison(cond) && IsNullWord(Literal(cond)) ==>
            var s := Infer(Subject(cond), root, guards); s.Ok? ==> !IsNullType(s.value))
    case _ => true
  }

  lemma BranchesSolid(cond: Expr, root: Node, guards: Guards)
    requires SolidGuards(guards)
    requires IsComparison(cond) && IsNullWord(Literal(cond)) ==>
               var s := Infer(Subject(cond), root, guards); s.Ok? ==> Solid(s.value) && !IsNullType(s.value)
    ensures SolidGuards(YesGuards(cond, root, guards)) && SolidGuards(NoGuards(cond, root, guards))
  {
    hide Solid, StripNull;
    if IsComparison(cond) {
      LiteralSolid(Literal(cond));
      var s := Infer(Subject(cond), root, guards);
      if IsNullWord(Literal(cond)) && s.Ok? { StripNullSolid(s.value); }
    }
  }

  lemma LiteralSolid(lit: Expr)
    requires IsLiteral(lit)
    ensures Solid(LiteralType(lit))
  {
    SolidScalar("boolean");
    SolidScalar("string");
    SolidScalar("integer");
    SolidScalar("number");
    SolidScalar("null");
  }

  // Inference in a fully typed context stays fully typed.
  lemma {:induction false} InferSolid(e: Expr, root: Node, guards: Guards)
    requires Solid(root) && SolidGuards(guards) && Narrows(e, root, guards)
    ensures AllShaped(e, root, guards)
    ensures Infer(e, root, guards).Ok? ==> Solid(Infer(e, root, guards).value)
    decreases e
  {
    hide Solid, Shaped, InferBinary, InferUnary, Unwrap, Either, Lookup, Index, YesGuards, NoGuards;
    if Infer(e, root, guards).Ok? { InferredSolid(e, root, guards); SolidShaped(Infer(e, root, guards).value); }
    match e
    case Member(base, _) => InferSolid(base, root, guards);
    case Binary(_, left, right) =>
      InferSolid(left, root, guards);
      InferSolid(right, root, guards);
    case Unary(_, operand) => InferSolid(operand, root, guards);
    case Cond(cond, yes, no) =>
      InferSolid(cond, root, guards);
      if IsComparison(cond) { InferSolid(Subject(cond), root, guards); }
      BranchesSolid(cond, root, guards);
      InferSolid(yes, root, YesGuards(cond, root, guards));
      InferSolid(no, root, NoGuards(cond, root, guards));
    case _ =>
  }

  lemma {:induction false} InferredSolid(e: Expr, root: Node, guards: Guards)
    requires Solid(root) && SolidGuards(guards) && Narrows(e, root, guards) && Infer(e, root, guards).Ok?
    ensures Solid(Infer(e, root, guards).value)
    decreases e
  {
    hide Solid, Shaped, InferBinary, InferUnary, Unwrap, Either, Lookup, Index, YesGuards, NoGuards;
    match e
    case Ident(name) =>
      SolidScalar("null");
      if name != "null" && name !in guards { LookupSolid(root, name); }
    case Member(base, prop) =>
      SolidScalar("null");
      var path := PathOf(e);
      if path == "" || path !in guards {
        InferredSolid(base, root, guards);
        var b := Infer(base, root, guards).value;
        if !IsNullType(b) {
          if prop.StrLit? { LookupSolid(b, prop.s); } else { IndexSolid(b); }
        }
      }
    case Binary(op, left, right) =>
      InferredSolid(left, root, guards);
      InferredSolid(right, root, guards);
      var l, r := Infer(left, root, guards).value, Infer(right, root, guards).value;
      UnwrapSolid(l);
      UnwrapSolid(r);
      BinarySolid(op, Unwrap(l), Unwrap(r));
    case Unary(op, operand) =>
      InferredSolid(operand, root, guards);
      var t := Infer(operand, root, guards).value;
      UnwrapSolid(t);
      UnarySolid(op, Unwrap(t));
    case Cond(cond, yes, no) =>
      InferredSolid(cond, root, guards);
      if IsComparison(cond) && Infer(Subject(cond), root, guards).Ok? { InferredSolid(Subject(cond), root, guards); }
      BranchesSolid(cond, root, guards);
      InferredSolid(yes, root, YesGuards(cond, root, guards));
      InferredSolid(no, root, NoGuards(cond, root, guards));
      EitherSolid(Infer(yes, root, YesGuards(cond, root, guards)).value, Infer(no, root, NoGuards(cond, root, guards)).value);
    case _ => LiteralSolid(e);
  }

  lemma UnarySolid(op: UnaryOp, n: Node)
    requires Solid(n) && InferUnary(op, n).Ok?
    ensures Solid(InferUnary(op, n).value)
  {
    hide Solid, ConcreteType, HasNull;
    SolidScalar("boolean");
  }

  // The theorem as a definition's author meets it.
  lemma WellTypedRuns(e: Expr, root: Node, env: Env)
    requires Solid(root) && EnvFits(root, env) && Infer(e, root, map[]).Ok?
    requires Simple(e, root, map[]) && Narrows(e, root, map[])
    ensures Eval(e, env).DivByZero? || (Eval(e, env).Val? && Mem(Infer(e, root, map[]).value, Eval(e, env).v))
  {
    SolidShaped(root);
    InferSolid(e, root, map[]);
    TypesAreSound(e, root, map[], env);
  }

  // --- what the validator lets through ---

  // Decoded JSON: every number is a float.
  function Decoded(v: Schema.Value): Datum
    decreases v
  {
    match v
    case Null => VNull
    case Bool(b) => VBool(b)
    case Num(r) => VFloat(r)
    case Str(s) => VStr(s)
    case Arr(items) => VArr(seq(|items|, i requires 0 <= i < |items| => Decoded(items[i])))
    case Obj(fields) => VObj(map name | name in fields :: Decoded(fields[name]))
  }

  predicate DefaultsFit(n: Node)
    decreases n
  {
    if n.anyOf.Variants? then forall b :: b in n.anyOf.all ==> DefaultsFit(b)
    else if n.oneOf.Variants? then forall b :: b in n.oneOf.all ==> DefaultsFit(b)
    else
      && (forall name :: name in PropsOf(n) ==> DefaultsFit(PropsOf(n)[name]) && Subset.DefaultFits(PropsOf(n)[name]))
      && (n.items.Items? ==> DefaultsFit(n.items.of))
  }

  lemma HasTypeDecoded(v: Schema.Value, t: string)
    requires HasType(v, t)
    ensures OfType(Decoded(v), t)
  {
  }

  // A normal form is a member.
  lemma {:induction false} ConformedIsMember(n: Node, v: Schema.Value, w: Schema.Value)
    requires Shaped(n) && DefaultsFit(n) && Conform(n, v) == Some(w)
    ensures Mem(n, Decoded(w))
    decreases n, v
  {
    hide HasType, OfType;
    if IsEmpty(n) {
    } else if VariantsOf(n).Variants? {
      var b := Subset.FirstMatchIs(n, VariantsOf(n).all, v);
      ConformedIsMember(b, v, w);
    } else {
      var t :| t in n.types && HasType(v, t);
      HasTypeDecoded(v, t);
      match v
      case Obj(fields) =>
        ObjectConformed(n, fields, t);
      case Arr(items) =>
        ArrayConformed(n, items, t);
      case _ =>
    }
  }

  lemma TypeSurvives(a: Schema.Value, b: Schema.Value, t: string)
    requires HasType(a, t) && ((a.Obj? && b.Obj?) || (a.Arr? && b.Arr?))
    ensures OfType(Decoded(b), t)
    ensures a.Obj? ==> t == "object"
  {
  }

  lemma {:induction false} ObjectConformed(n: Node, fields: map<string, Schema.Value>, t: string)
    requires Shaped(n) && DefaultsFit(n) && !IsEmpty(n) && VariantsOf(n).NoVariants?
    requires t in n.types && HasType(Schema.Obj(fields), t)
    requires Conform(n, Schema.Obj(fields)).Some?
    ensures Mem(n, Decoded(Conform(n, Schema.Obj(fields)).value))
    decreases n, Schema.Obj(fields), 0
  {
    hide HasType, OfType;
    var v := Schema.Obj(fields);
    TypeSurvives(v, v, t);
    var w := Conform(n, v).value;
    assert IsObjectSchema(n);
    TypeSurvives(v, w, t);
    var props := PropsOf(n);
    forall name | name in props
      ensures if name in w.fields then Mem(props[name], Decoded(w.fields[name])) else !IsRequired(n, name)
    {
      assert !Refuses(n, fields, name);
      if name in fields {
        ConformedIsMember(props[name], fields[name], w.fields[name]);
      } else if name in w.fields {
        ConformedIsMember(props[name], w.fields[name], w.fields[name]);
      }
    }
  }

  lemma {:induction false} ArrayConformed(n: Node, items: seq<Schema.Value>, t: string)
    requires Shaped(n) && DefaultsFit(n) && !IsEmpty(n) && VariantsOf(n).NoVariants?
    requires t in n.types && HasType(Schema.Arr(items), t)
    requires Conform(n, Schema.Arr(items)).Some?
    ensures Mem(n, Decoded(Conform(n, Schema.Arr(items)).value))
    decreases n, Schema.Arr(items), 0
  {
    hide HasType, OfType;
    var v := Schema.Arr(items);
    var w := Conform(n, v).value;
    TypeSurvives(v, w, t);
    if n.items.Items? {
      forall i | 0 <= i < |items| ensures Mem(n.items.of, Decoded(w.items[i])) {
        assert Conform(n.items.of, items[i]).Some?;
        ConformedIsMember(n.items.of, items[i], w.items[i]);
      }
    }
  }
}
