/** Inference refuses nothing that runs and says no more than it must: operators, choices, narrowing. */
module InferenceExact {
  import opened Common
  import opened Schema
  import opened Expression
  import opened Inference
  import opened Membership
  import V = EvaluationLaws

  // --- operators on types ---

  predicate Named(t: string) {
    t == "null" || t == "boolean" || t == "string" || t == "number" || t == "integer" || t == "object" || t == "array"
  }

  // a op b, for two values.
  function Runs(op: BinaryOp, v: Datum, u: Datum): Outcome {
    Eval(Binary(op, Ident("a"), Ident("b")), map["a" := v, "b" := u])
  }

  predicate Succeeds(o: Outcome) {
    o.Val? || o.DivByZero?
  }

  // The operators that look at their operands; equality takes anything and modulo is in TypingGaps.
  predicate Picky(op: BinaryOp) {
    op in {Lt, Gt, Le, Ge, And, Or, Add, Sub, Mul, Div}
  }

  // A value of the type, the one that has a logical operator go on to its right side.
  function Sample(t: string, op: BinaryOp): Datum {
    match t
    case "boolean" => VBool(op == And)
    case "string" => VStr("")
    case "number" => VInt(1)
    case "integer" => VInt(1)
    case "object" => VObj(map[])
    case "array" => VArr([])
    case _ => VNull
  }

  predicate Fits(op: BinaryOp, s: string, t: string) {
    if op == And || op == Or then s == "boolean" && t == "boolean"
    else (NumericType(s) && NumericType(t)) || (op == Add && s == "string" && t == "string")
  }

  lemma RunsWhenFits(op: BinaryOp, s: string, t: string, v: Datum, u: Datum)
    requires Picky(op) && Fits(op, s, t) && OfType(v, s) && OfType(u, t)
    ensures Succeeds(Runs(op, v, u))
  {
    var env: Env := map["a" := v, "b" := u];
    assert Eval(Ident("a"), env) == Val(v) && Eval(Ident("b"), env) == Val(u);
    if op == And || op == Or {
      assert v.VBool? && u.VBool?;
    } else {
      assert Runs(op, v, u) == Apply(op, v, u);
      hide Combine, Compare, Truncate, Eval;
    }
  }

  lemma FailsWhenNot(op: BinaryOp, s: string, t: string)
    requires Picky(op) && Named(s) && Named(t) && !Fits(op, s, t)
    ensures OfType(Sample(s, op), s) && OfType(Sample(t, op), t) && Runs(op, Sample(s, op), Sample(t, op)) == Failed
  {
    var v, u := Sample(s, op), Sample(t, op);
    var env: Env := map["a" := v, "b" := u];
    assert Eval(Ident("a"), env) == Val(v) && Eval(Ident("b"), env) == Val(u);
    if op != And && op != Or {
      assert Runs(op, v, u) == Apply(op, v, u);
      hide Combine, Compare, Truncate, Eval;
    }
  }

  // --- operand types: one type, or a union of single types ---

  ghost predicate OneOfTypes(n: Node, ts: seq<string>) {
    && ts != [] && (forall t :: t in ts ==> Named(t))
    && ((|ts| == 1 && n == Type(ts[0])) || n == OneOf(TypeNodes(ts)) || n == AnyOf(TypeNodes(ts)))
  }

  function TypeNodes(ts: seq<string>): (vs: seq<Node>)
    ensures |vs| == |ts| && forall i :: 0 <= i < |ts| ==> vs[i] == Type(ts[i])
  {
    seq(|ts|, i requires 0 <= i < |ts| => Type(ts[i]))
  }

  lemma TypeMem(t: string, v: Datum)
    ensures Mem(Type(t), v) ==> OfType(v, t)
    ensures OfType(v, t) && (v.VObj? ==> v.fields == map[]) ==> Mem(Type(t), v)
  {
    assert Type(t).types == [t] && t in Type(t).types;
  }

  lemma TypesMem(n: Node, ts: seq<string>, v: Datum) returns (t: string)
    requires OneOfTypes(n, ts) && Mem(n, v)
    ensures t in ts && OfType(v, t)
  {
    if n == Type(ts[0]) && |ts| == 1 {
      t := ts[0];
      TypeMem(t, v);
    } else {
      var b :| b in TypeNodes(ts) && Mem(b, v);
      var i :| 0 <= i < |ts| && TypeNodes(ts)[i] == b;
      t := ts[i];
      TypeMem(t, v);
    }
  }

  lemma SampleMem(n: Node, ts: seq<string>, t: string, v: Datum)
    requires OneOfTypes(n, ts) && t in ts && OfType(v, t) && (v.VObj? ==> v.fields == map[])
    ensures Mem(n, v)
  {
    TypeMem(t, v);
    var i :| 0 <= i < |ts| && ts[i] == t;
    if !(n == Type(ts[0]) && |ts| == 1) {
      assert TypeNodes(ts)[i] in TypeNodes(ts);
    }
  }

  ghost predicate AllNumeric(ts: seq<string>) {
    forall t :: t in ts ==> NumericType(t)
  }

  ghost predicate AllAre(ts: seq<string>, t: string) {
    forall s :: s in ts ==> s == t
  }

  lemma {:induction false} FirstTypesAre(ts: seq<string>)
    ensures (forall b :: b in TypeNodes(ts) ==> |b.types| == 1) && FirstTypes(TypeNodes(ts)) == ts
  {
    forall b | b in TypeNodes(ts) ensures |b.types| == 1 { }
    if ts != [] {
      FirstTypesAre(ts[1..]);
      assert TypeNodes(ts)[1..] == TypeNodes(ts[1..]);
    }
  }

  // What the operator tables read off an operand type.
  ghost predicate Reads(n: Node, ts: seq<string>) {
    && ts != [] && (HasNull(n) <==> "null" in ts)
    && (!HasNull(n) ==>
          && (ConcreteType(n).Some? && NumericType(ConcreteType(n).value) <==> AllNumeric(ts))
          && (forall t :: ConcreteType(n) == Some(t) && t != "number" ==> AllAre(ts, t))
          && forall t :: AllAre(ts, t) ==> ConcreteType(n) == Some(t))
  }

  lemma Operands(n: Node, ts: seq<string>)
    requires OneOfTypes(n, ts)
    ensures Reads(n, ts)
  {
    assert ts[0] in ts;
    if n == Type(ts[0]) && |ts| == 1 {
      assert n.types == [ts[0]] && ts == [ts[0]];
    } else {
      UnionReads(n, ts);
    }
  }

  lemma NullAmong(ts: seq<string>)
    ensures (exists b :: b in TypeNodes(ts) && IsNullType(b)) <==> "null" in ts
  {
    var vs := TypeNodes(ts);
    if "null" in ts {
      var i :| 0 <= i < |ts| && ts[i] == "null";
      assert vs[i] in vs && IsNullType(vs[i]);
    }
    if b :| b in vs && IsNullType(b) {
      var i :| 0 <= i < |vs| && vs[i] == b;
      assert b.types == [ts[i]] && b.types[0] == "null";
    }
  }

  lemma UnionReads(n: Node, ts: seq<string>)
    requires ts != [] && (n == OneOf(TypeNodes(ts)) || n == AnyOf(TypeNodes(ts)))
    ensures Reads(n, ts)
  {
    hide IsNullType;
    NullAmong(ts);
    FirstTypesAre(ts);
    var vs := TypeNodes(ts);
    assert n.types == [] && VariantsOf(n) == Variants(vs) && ts[0] in ts;
    assert HasNull(n) <==> "null" in ts;
    if !HasNull(n) {
      assert forall b :: b in vs ==> !IsNullType(b) && |b.types| == 1;
      assert ConcreteType(n) ==
             if AllAre(ts, ts[0]) then Some(ts[0]) else if AllNumeric(ts) then Some("number") else None;
    }
  }

  // On such operands an operator is typed exactly when it fails on no pair of their values: nothing
  // that could run is refused, and nothing is let through that could fail.
  lemma OperatorsExactly(op: BinaryOp, l: Node, ls: seq<string>, r: Node, rs: seq<string>)
    requires Picky(op) && OneOfTypes(l, ls) && OneOfTypes(r, rs)
    ensures InferBinary(op, l, r).Ok? <==> forall v, u :: Mem(l, v) && Mem(r, u) ==> Succeeds(Runs(op, v, u))
  {
    hide Runs, Mem, OneOfTypes, Reads, InferBinary;
    Operands(l, ls);
    Operands(r, rs);
    OperatorTable(op, l, ls, r, rs);
    if InferBinary(op, l, r).Ok? {
      forall v, u | Mem(l, v) && Mem(r, u) ensures Succeeds(Runs(op, v, u)) {
        var s := TypesMem(l, ls, v);
        var t := TypesMem(r, rs, u);
        RunsWhenFits(op, s, t, v, u);
      }
    } else {
      var s, t :| s in ls && t in rs && !Fits(op, s, t);
      assert Named(s) && Named(t) by { NamedTypes(l, ls, s); NamedTypes(r, rs, t); }
      FailsWhenNot(op, s, t);
      SampleMem(l, ls, s, Sample(s, op));
      SampleMem(r, rs, t, Sample(t, op));
    }
  }

  lemma NamedTypes(n: Node, ts: seq<string>, t: string)
    requires OneOfTypes(n, ts) && t in ts
    ensures Named(t)
  {
  }

  lemma TableIs(op: BinaryOp, l: Node, r: Node)
    requires Picky(op)
    ensures InferBinary(op, l, r).Ok? <==>
              if op == And || op == Or then PairOf(l, r, "boolean") else NumericPair(l, r) || (op == Add && PairOf(l, r, "string"))
  {
    hide ConcreteType, HasNull;
  }

  // Typed exactly when every pair of the types fits.
  lemma OperatorTable(op: BinaryOp, l: Node, ls: seq<string>, r: Node, rs: seq<string>)
    requires Picky(op) && Reads(l, ls) && Reads(r, rs)
    ensures InferBinary(op, l, r).Ok? <==> forall s, t :: s in ls && t in rs ==> Fits(op, s, t)
  {
    hide ConcreteType, HasNull, InferBinary;
    TableIs(op, l, r);
    assert ls[0] in ls && rs[0] in rs;
    var ok := forall s, t :: s in ls && t in rs ==> Fits(op, s, t);
    if ok {
      assert forall s :: s in ls ==> Fits(op, s, rs[0]);
      assert forall t :: t in rs ==> Fits(op, ls[0], t);
    }
    if op == And || op == Or {
      assert ok <==> AllAre(ls, "boolean") && AllAre(rs, "boolean");
    } else {
      assert ok <==> (AllNumeric(ls) && AllNumeric(rs)) || (op == Add && AllAre(ls, "string") && AllAre(rs, "string"));
    }
  }

  // --- the type of the result ---

  // Every pair of values of the operands that the operator takes gives a value of that type.
  ghost predicate AllGive(op: BinaryOp, l: Node, r: Node, y: string) {
    forall v, u :: Mem(l, v) && Mem(r, u) && Runs(op, v, u).Val? ==> OfType(Runs(op, v, u).v, y)
  }

  lemma GivesOnly(op: BinaryOp, l: Node, ls: seq<string>, r: Node, rs: seq<string>, y: string, s: string, t: string, v: Datum, u: Datum)
    requires OneOfTypes(l, ls) && OneOfTypes(r, rs) && AllGive(op, l, r, y) && s in ls && t in rs
    requires OfType(v, s) && OfType(u, t) && !v.VObj? && !u.VObj?
    ensures Runs(op, v, u).Val? ==> OfType(Runs(op, v, u).v, y)
  {
    hide Runs, Mem, OfType, OneOfTypes;
    SampleMem(l, ls, s, v);
    SampleMem(r, rs, t, u);
  }

  lemma Scope(v: Datum, u: Datum)
    ensures V.Yields(Ident("a"), map["a" := v, "b" := u], v) && V.Yields(Ident("b"), map["a" := v, "b" := u], u)
  {
  }

  lemma OneByTwo()
    ensures Runs(Div, VInt(1), VInt(2)) == Val(VFloat(0.5))
  {
    Scope(VInt(1), VInt(2));
    V.Quotients(Ident("a"), Ident("b"), map["a" := VInt(1), "b" := VInt(2)], VInt(1), VInt(2), 1.0, 2.0);
  }

  // Half a unit among the numbers, and no operator but an order leads back to the integers.
  lemma HalfLeft(op: BinaryOp)
    requires op in {Add, Sub, Mul}
    ensures var o := Runs(op, VFloat(0.5), VInt(1)); o.Val? && o.v.VFloat? && !Integral(o.v.r)
  {
    hide Eval;
    Scope(VFloat(0.5), VInt(1));
    Halves();
    V.Floats(Ident("a"), Ident("b"), map["a" := VFloat(0.5), "b" := VInt(1)], VFloat(0.5), VInt(1), 0.5, 1.0);
    V.FloatProducts(Ident("a"), Ident("b"), map["a" := VFloat(0.5), "b" := VInt(1)], VFloat(0.5), VInt(1), 0.5, 1.0);
  }

  lemma HalfRight(op: BinaryOp)
    requires op in {Add, Sub, Mul}
    ensures var o := Runs(op, VInt(1), VFloat(0.5)); o.Val? && o.v.VFloat? && !Integral(o.v.r)
  {
    hide Eval;
    Scope(VInt(1), VFloat(0.5));
    Halves();
    V.Floats(Ident("a"), Ident("b"), map["a" := VInt(1), "b" := VFloat(0.5)], VInt(1), VFloat(0.5), 1.0, 0.5);
    V.FloatProducts(Ident("a"), Ident("b"), map["a" := VInt(1), "b" := VFloat(0.5)], VInt(1), VFloat(0.5), 1.0, 0.5);
  }

  lemma Ones(op: BinaryOp)
    ensures op in {Add, Sub, Mul} ==> Runs(op, VInt(1), VInt(1)).Val? && Numeric(Runs(op, VInt(1), VInt(1)).v)
    ensures op in {Lt, Gt, Le, Ge} ==> Runs(op, VInt(1), VInt(1)).Val? && Runs(op, VInt(1), VInt(1)).v.VBool?
  {
    hide Eval;
    Scope(VInt(1), VInt(1));
    var env: Env := map["a" := VInt(1), "b" := VInt(1)];
    V.IntegerSums(Ident("a"), Ident("b"), env, 1, 1);
    V.IntegerProducts(Ident("a"), Ident("b"), env, 1, 1);
    V.IntegerOrder(Ident("a"), Ident("b"), env, 1, 1);
  }

  lemma TruthsAndTexts(op: BinaryOp)
    ensures op in {And, Or} ==> Runs(op, VBool(true), VBool(true)) == Val(VBool(true))
    ensures op == Add ==> Runs(op, VStr(""), VStr("")) == Val(VStr(""))
  {
    Scope(VBool(true), VBool(true));
    Scope(VStr(""), VStr(""));
    V.Texts(Ident("a"), Ident("b"), map["a" := VStr(""), "b" := VStr("")], "", "");
  }

  lemma Halves()
    ensures !Integral(0.5) && !Integral(1.5) && !Integral(-0.5)
  {
  }

  lemma NumbersOnly(w: Datum, y: string)
    requires Named(y) && OfType(w, y) && Numeric(w)
    ensures y == "number" || y == "integer"
  {
  }

  // What InferBinary answers when it does.
  lemma AnswerIs(op: BinaryOp, l: Node, r: Node)
    requires Picky(op) && InferBinary(op, l, r).Ok?
    ensures op in {Lt, Gt, Le, Ge} ==> NumericPair(l, r) && InferBinary(op, l, r) == Ok(Type("boolean"))
    ensures op in {And, Or} ==> PairOf(l, r, "boolean") && InferBinary(op, l, r) == Ok(Type("boolean"))
    ensures op == Div ==> NumericPair(l, r) && InferBinary(op, l, r) == Ok(Type("number"))
    ensures op == Add && PairOf(l, r, "string") ==> InferBinary(op, l, r) == Ok(Type("string"))
    ensures op in {Sub, Mul} || (op == Add && !PairOf(l, r, "string")) ==>
              NumericPair(l, r) && InferBinary(op, l, r) == if PairOf(l, r, "integer") then Ok(Type("integer")) else Ok(Type("number"))
  {
    hide ConcreteType, HasNull;
  }

  // The type inferred is the least: any other type with all the results in it is number, where the
  // operator stays among the integers.
  lemma ResultIsLeast(op: BinaryOp, l: Node, ls: seq<string>, r: Node, rs: seq<string>, y: string)
    requires Picky(op) && OneOfTypes(l, ls) && OneOfTypes(r, rs) && InferBinary(op, l, r).Ok?
    requires Named(y) && AllGive(op, l, r, y)
    ensures InferBinary(op, l, r) == Ok(Type(y)) || (InferBinary(op, l, r) == Ok(Type("integer")) && y == "number")
  {
    hide Runs, Mem, OneOfTypes, InferBinary, AllGive, ConcreteType, HasNull;
    Operands(l, ls);
    Operands(r, rs);
    AnswerIs(op, l, r);
    var s, t := ls[0], rs[0];
    if op == And || op == Or {
      assert AllAre(ls, "boolean") && AllAre(rs, "boolean");
      TruthsAndTexts(op);
      GivesOnly(op, l, ls, r, rs, y, s, t, VBool(true), VBool(true));
    } else if op == Add && PairOf(l, r, "string") {
      assert AllAre(ls, "string") && AllAre(rs, "string");
      TruthsAndTexts(op);
      GivesOnly(op, l, ls, r, rs, y, s, t, VStr(""), VStr(""));
    } else {
      assert NumericType(s) && NumericType(t);
      if op == Div {
        GivesOnly(op, l, ls, r, rs, y, s, t, VInt(1), VInt(2));
        OneByTwo();
        Halves();
        NumbersOnly(VFloat(0.5), y);
      } else if op in {Lt, Gt, Le, Ge} || PairOf(l, r, "integer") {
        Ones(op);
        GivesOnly(op, l, ls, r, rs, y, s, t, VInt(1), VInt(1));
        if !(op in {Lt, Gt, Le, Ge}) { NumbersOnly(Runs(op, VInt(1), VInt(1)).v, y); }
      } else if i :| 0 <= i < |ls| && ls[i] != "integer" {
        assert ls[i] in ls && ls[i] == "number";
        HalfLeft(op);
        GivesOnly(op, l, ls, r, rs, y, ls[i], t, VFloat(0.5), VInt(1));
        NumbersOnly(Runs(op, VFloat(0.5), VInt(1)).v, y);
      } else {
        assert AllAre(ls, "integer") && !AllAre(rs, "integer");
        var i :| 0 <= i < |rs| && rs[i] != "integer";
        assert rs[i] in rs && rs[i] == "number";
        HalfRight(op);
        GivesOnly(op, l, ls, r, rs, y, s, rs[i], VInt(1), VFloat(0.5));
        NumbersOnly(Runs(op, VInt(1), VFloat(0.5)).v, y);
      }
    }
  }

  // --- one operand ---

  function RunsOn(op: UnaryOp, v: Datum): Outcome {
    Eval(Unary(op, Ident("a")), map["a" := v])
  }

  predicate PrefixFits(op: UnaryOp, t: string) {
    if op == Not then t == "boolean" else NumericType(t)
  }

  lemma PrefixRuns(op: UnaryOp, t: string, v: Datum)
    requires op != OtherUnary && Named(t) && OfType(v, t)
    ensures RunsOn(op, v).Val? <==> PrefixFits(op, t)
  {
    assert Eval(Ident("a"), map["a" := v]) == Val(v);
    assert RunsOn(op, v) == ApplyUnary(op, v);
  }

  lemma PrefixTable(op: UnaryOp, n: Node, ts: seq<string>)
    requires op != OtherUnary && Reads(n, ts)
    ensures InferUnary(op, n).Ok? <==> forall t :: t in ts ==> PrefixFits(op, t)
    ensures InferUnary(op, n).Ok? ==> InferUnary(op, n).value == if op == Not then Type("boolean") else n
  {
    hide ConcreteType, HasNull;
    assert ts[0] in ts;
    if op == Not {
      assert (forall t :: t in ts ==> PrefixFits(op, t)) <==> AllAre(ts, "boolean");
    } else {
      assert (forall t :: t in ts ==> PrefixFits(op, t)) <==> AllNumeric(ts);
    }
  }

  // A prefix operator is typed exactly when it fails on no value of its operand.
  lemma PrefixExactly(op: UnaryOp, n: Node, ts: seq<string>)
    requires op != OtherUnary && OneOfTypes(n, ts)
    ensures InferUnary(op, n).Ok? <==> forall v :: Mem(n, v) ==> RunsOn(op, v).Val?
    ensures InferUnary(op, n).Ok? ==> InferUnary(op, n).value == if op == Not then Type("boolean") else n
  {
    hide Mem, OneOfTypes, Reads, InferUnary, RunsOn, PrefixFits;
    Operands(n, ts);
    PrefixTable(op, n, ts);
    if InferUnary(op, n).Ok? {
      forall v | Mem(n, v) ensures RunsOn(op, v).Val? {
        var t := TypesMem(n, ts, v);
        NamedTypes(n, ts, t);
        PrefixRuns(op, t, v);
      }
    } else {
      var t :| t in ts && !PrefixFits(op, t);
      NamedTypes(n, ts, t);
      var v := Sample(t, And);
      PrefixRuns(op, t, v);
      SampleMem(n, ts, t, v);
    }
  }

  // --- narrowing ---

  // A name, or members of one by literal names and indices.
  predicate IsPath(e: Expr) {
    PathOf(e) != "" && !IsLiteral(e)
  }

  // After a test against null the path has its type with null off where it is not null, and is null
  // where it is; equal to any other literal it has the type of that literal, and different from it no
  // other type than before.
  lemma NarrowedTypes(p: Expr, lit: Expr, op: BinaryOp, root: Node, guards: Guards, t: Node)
    requires IsPath(p) && IsLiteral(lit) && (op == Eq || op == Ne) && Infer(p, root, guards) == Ok(t)
    ensures var cond := Binary(op, p, lit);
            var yes, no := YesGuards(cond, root, guards), NoGuards(cond, root, guards);
            var same, other := if op == Eq then yes else no, if op == Eq then no else yes;
            && Infer(p, root, same) == Ok(LiteralType(lit))
            && Infer(p, root, other) == (if IsNullWord(lit) then Ok(StripNull(t)) else Ok(t))
  {
    assert p.Ident? || p.Member?;
  }

  // The other way round it is the same comparison.
  lemma NarrowedEitherWay(p: Expr, lit: Expr, op: BinaryOp, root: Node, guards: Guards)
    requires IsPath(p) && IsLiteral(lit) && (op == Eq || op == Ne)
    ensures YesGuards(Binary(op, lit, p), root, guards) == YesGuards(Binary(op, p, lit), root, guards)
    ensures NoGuards(Binary(op, lit, p), root, guards) == NoGuards(Binary(op, p, lit), root, guards)
  {
  }

  // A value or its default: x != null ? x : d has the type of x with null off, or that of d.
  lemma DefaultIdiom(p: Expr, d: Expr, root: Node, guards: Guards, t: Node, u: Node)
    requires IsPath(p) && Infer(p, root, guards) == Ok(t) && Infer(d, root, guards[PathOf(p) := Type("null")]) == Ok(u)
    ensures Infer(Cond(Binary(Ne, p, Ident("null")), p, d), root, guards) == Ok(Either(StripNull(t), u))
  {
    var cond := Binary(Ne, p, Ident("null"));
    hide Either, StripNull, Unwrap, Lookup, Index;
    NarrowedTypes(p, Ident("null"), Ne, root, guards, t);
    assert Infer(Ident("null"), root, guards) == Ok(Type("null"));
    assert Infer(cond, root, guards) == Ok(Type("boolean"));
    NullGuards(p, root, guards);
  }

  lemma NullGuards(p: Expr, root: Node, guards: Guards)
    requires IsPath(p)
    ensures NoGuards(Binary(Ne, p, Ident("null")), root, guards) == guards[PathOf(p) := Type("null")]
  {
    hide Infer, Lookup;
  }

  // --- whole expressions ---

  lemma UnwrapsToTypes(n: Node, ts: seq<string>, v: Datum)
    requires OneOfTypes(n, ts)
    ensures OneOfTypes(Unwrap(n), ts) && (Mem(Unwrap(n), v) <==> Mem(n, v))
  {
    if Unwrap(n) != n {
      var vs := TypeNodes(ts);
      assert VariantsOf(n) == Variants(vs) && vs == [vs[0]] && vs[0] == Type(ts[0]) && vs[0] in vs;
    }
  }

  // An expression of operands with such types is typed exactly when the operator fails on no pair of
  // their values: nothing else about the operands counts.
  lemma ExpressionsExactly(op: BinaryOp, left: Expr, ls: seq<string>, right: Expr, rs: seq<string>, root: Node, guards: Guards)
    requires Picky(op) && Infer(left, root, guards).Ok? && Infer(right, root, guards).Ok?
    requires OneOfTypes(Infer(left, root, guards).value, ls) && OneOfTypes(Infer(right, root, guards).value, rs)
    ensures Infer(Binary(op, left, right), root, guards).Ok? <==>
              forall v, u :: Mem(Infer(left, root, guards).value, v) && Mem(Infer(right, root, guards).value, u) ==> Succeeds(Runs(op, v, u))
  {
    hide Runs, Mem, OneOfTypes, InferBinary, Unwrap;
    var l, r := Infer(left, root, guards).value, Infer(right, root, guards).value;
    assert Infer(Binary(op, left, right), root, guards) == InferBinary(op, Unwrap(l), Unwrap(r));
    UnwrapsToTypes(l, ls, VNull);
    UnwrapsToTypes(r, rs, VNull);
    OperatorsExactly(op, Unwrap(l), ls, Unwrap(r), rs);
    forall v ensures Mem(Unwrap(l), v) <==> Mem(l, v) { UnwrapsToTypes(l, ls, v); }
    forall u ensures Mem(Unwrap(r), u) <==> Mem(r, u) { UnwrapsToTypes(r, rs, u); }
  }

  // A conditional is typed exactly when its condition is, and each branch under what the condition says
  // there; a member exactly when the property, or the element, of what it is taken from is, unless a
  // guard already says what it is.
  lemma BranchesAndMembers(c: Expr, yes: Expr, no: Expr, name: string, i: int, root: Node, guards: Guards)
    ensures Infer(Cond(c, yes, no), root, guards).Ok? <==>
              Infer(c, root, guards).Ok? && Infer(yes, root, YesGuards(c, root, guards)).Ok? && Infer(no, root, NoGuards(c, root, guards)).Ok?
    ensures PathOf(Member(c, StrLit(name))) !in guards && Infer(c, root, guards).Ok? && !IsNullType(Infer(c, root, guards).value) ==>
              Infer(Member(c, StrLit(name)), root, guards) == Lookup(Infer(c, root, guards).value, name)
    ensures PathOf(Member(c, IntLit(i))) !in guards && Infer(c, root, guards).Ok? && !IsNullType(Infer(c, root, guards).value) ==>
              Infer(Member(c, IntLit(i)), root, guards) == Index(Infer(c, root, guards).value)
  {
    hide Lookup, Index, Either;
  }
}
