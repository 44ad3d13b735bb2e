/** An expression that gets a type evaluates to a value of that type, or divides by zero. */
module TypeSoundness {
  import opened Common
  import opened Schema
  import opened Expression
  import opened Inference
  import opened Membership

  // --- paths name at most one expression ---

  predicate Mark(c: char) {
    c == '.' || c == '[' || c == ']'
  }

  predicate Plain(s: string) {
    forall i :: 0 <= i < |s| ==> !Mark(s[i])
  }

  predicate PlainNames(e: Expr) {
    match e
    case Ident(name) => Plain(name)
    case Member(base, prop) => PlainNames(base) && (prop.StrLit? ==> Plain(prop.s))
    case _ => true
  }

  lemma LastMark(p: string, c: char, x: string, q: string, d: char, y: string)
    requires p + [c] + x == q + [d] + y
    requires Mark(c) && Mark(d) && Plain(x) && Plain(y)
    ensures p == q && c == d && x == y
  {
    var s := p + [c] + x;
    var t := q + [d] + y;
    assert s[|p|] == c && t[|q|] == d;
    assert forall k :: |p| < k < |s| ==> s[k] == x[k - |p| - 1];
    assert forall k :: |q| < k < |t| ==> t[k] == y[k - |q| - 1];
    assert |p| == |q|;
    assert p == s[..|p|] && q == t[..|q|];
    assert x == s[|p| + 1..] && y == t[|q| + 1..];
  }

  lemma {:induction false} DigitsPlain(n: nat)
    ensures Plain(Digits(n)) && Digits(n) != [] && Digits(n)[0] != '-'
  {
    if n >= 10 { DigitsPlain(n / 10); }
  }

  lemma {:induction false} DigitsInjective(m: nat, n: nat)
    requires Digits(m) == Digits(n)
    ensures m == n
  {
    var a, b := Digits(m), Digits(n);
    assert a[|a| - 1] == ('0' as int + m % 10) as char && b[|b| - 1] == ('0' as int + n % 10) as char;
    assert a[..|a| - 1] == if m < 10 then [] else Digits(m / 10);
    assert b[..|b| - 1] == if n < 10 then [] else Digits(n / 10);
    DigitsPlain(m / 10);
    DigitsPlain(n / 10);
    if m >= 10 && n >= 10 { DigitsInjective(m / 10, n / 10); }
  }

  lemma DecimalInjective(i: int, j: int)
    requires Decimal(i) == Decimal(j)
    ensures i == j
  {
    DigitsPlain(Abs(i));
    DigitsPlain(Abs(j));
    var a, b := Decimal(i), Decimal(j);
    assert (i < 0) == (a[0] == '-') && (j < 0) == (b[0] == '-');
    assert (i < 0 ==> a[1..] == Digits(Abs(i))) && (j < 0 ==> b[1..] == Digits(Abs(j)));
    DigitsInjective(Abs(i), Abs(j));
  }

  lemma DecimalPlain(i: int)
    ensures Plain(Decimal(i))
  {
    DigitsPlain(Abs(i));
  }

  // The path of a member is its base's path, a mark, and a plain tail.
  lemma MemberPath(e: Expr) returns (c: char, x: string)
    requires e.Member? && PlainNames(e) && PathOf(e) != ""
    ensures Mark(c) && Plain(x)
    ensures e.prop.StrLit? ==> c == '.' && x == e.prop.s && PathOf(e) == PathOf(e.base) + [c] + x
    ensures !e.prop.StrLit? ==>
              e.prop.IntLit? && c == '[' && x == Decimal(e.prop.i) && PathOf(e) == (PathOf(e.base) + [c] + x) + [']'] + []
  {
    if e.prop.StrLit? {
      c, x := '.', e.prop.s;
    } else {
      DecimalPlain(e.prop.i);
      c, x := '[', Decimal(e.prop.i);
    }
  }

  lemma MemberMarked(e: Expr)
    requires e.Member? && PlainNames(e) && PathOf(e) != ""
    ensures !Plain(PathOf(e))
  {
    var c, x := MemberPath(e);
    assert PathOf(e)[|PathOf(e.base)|] == c;
  }

  // Narrowing by the printed path is narrowing by the expression.
  lemma {:induction false} PathInjective(a: Expr, b: Expr)
    requires PlainNames(a) && PlainNames(b) && PathOf(a) == PathOf(b) != ""
    ensures a == b
  {
    if a.Member? && b.Member? {
      var c, x := MemberPath(a);
      var d, y := MemberPath(b);
      if a.prop.StrLit? && b.prop.StrLit? {
        LastMark(PathOf(a.base), c, x, PathOf(b.base), d, y);
      } else if a.prop.StrLit? {
        LastMark(PathOf(a.base), c, x, PathOf(b.base) + [d] + y, ']', []);
      } else if b.prop.StrLit? {
        LastMark(PathOf(a.base) + [c] + x, ']', [], PathOf(b.base), d, y);
      } else {
        LastMark(PathOf(a.base) + [c] + x, ']', [], PathOf(b.base) + [d] + y, ']', []);
        LastMark(PathOf(a.base), c, x, PathOf(b.base), d, y);
        DecimalInjective(a.prop.i, b.prop.i);
      }
      PathInjective(a.base, b.base);
    } else if a.Member? {
      MemberMarked(a);
    } else if b.Member? {
      MemberMarked(b);
    }
  }

  // --- the environment and the guards ---

  // Every root the context declares is there, with a value of its type; an optional one
  // may be null.
  ghost predicate EnvFits(root: Node, env: Env) {
    && root.types == ["object"] && root.props.Props? && root.anyOf.NoVariants? && root.oneOf.NoVariants?
    && forall name :: name in root.props.all ==>
         name in env && (Mem(root.props.all[name], env[name]) || (!IsRequired(root, name) && env[name] == VNull))
  }

  // What a guard says of a path holds of the value found there.
  ghost predicate Guarded(guards: Guards, env: Env) {
    forall e {:trigger PathOf(e)} :: PlainNames(e) && PathOf(e) != "" && PathOf(e) in guards ==>
      Eval(e, env).Val? && Mem(guards[PathOf(e)], Eval(e, env).v)
  }

  lemma GuardAdded(guards: Guards, env: Env, subject: Expr, t: Node)
    requires Guarded(guards, env) && PlainNames(subject) && PathOf(subject) != ""
    requires Eval(subject, env).Val? && Mem(t, Eval(subject, env).v)
    ensures Guarded(guards[PathOf(subject) := t], env)
  {
    forall e | PlainNames(e) && PathOf(e) == PathOf(subject) ensures e == subject {
      PathInjective(e, subject);
    }
  }

  // --- the fragment ---

  predicate MayHold(n: Node, t: string)
    decreases n
  {
    if IsEmpty(n) then true
    else if n.anyOf.Variants? then exists b :: b in n.anyOf.all && MayHold(b, t)
    else if n.oneOf.Variants? then exists b :: b in n.oneOf.all && MayHold(b, t)
    else t in n.types
  }

  // Null is a member, yet taking null off leaves the type as it is.
  predicate HidesNull(n: Node) {
    !IsEmpty(n) && Mem(n, VNull) && StripNull(n) == n
  }

  predicate Comparable(l: Node, r: Node) {
    !(MayHold(l, "object") && MayHold(r, "object")) && !(MayHold(l, "array") && MayHold(r, "array"))
  }

  // No % and no field name with a mark in it; == and != never meet two containers of a
  // kind; the left side of ?? does not hide null; members are named or numbered.
  predicate Simple(e: Expr, root: Node, guards: Guards) {
    match e
    case Ident(name) => name != "" && Plain(name)
    case Member(base, prop) => Simple(base, root, guards) && (prop.IntLit? || (prop.StrLit? && Plain(prop.s)))
    case Binary(op, left, right) =>
      && Simple(left, root, guards) && Simple(right, root, guards) && op != Mod
      && (Infer(left, root, guards).Ok? && Infer(right, root, guards).Ok? ==>
            var l, r := Infer(left, root, guards).value, Infer(right, root, guards).value;
            (op == Eq || op == Ne ==> Comparable(l, r)) && (op == Coalesce ==> !HidesNull(Unwrap(l))))
    case Unary(_, operand) => Simple(operand, root, guards)
    case Cond(cond, yes, no) =>
      && Simple(cond, root, guards)
      && Simple(yes, root, YesGuards(cond, root, guards)) && Simple(no, root, NoGuards(cond, root, guards))
    case _ => true
  }

  // No type inferred on the way is a union with an untyped variant.
  predicate AllShaped(e: Expr, root: Node, guards: Guards) {
    && (Infer(e, root, guards).Ok? ==> Shaped(Infer(e, root, guards).value))
    && match e
       case Member(base, _) => AllShaped(base, root, guards)
       case Binary(_, left, right) => AllShaped(left, root, guards) && AllShaped(right, root, guards)
       case Unary(_, operand) => AllShaped(operand, root, guards)
       case Cond(cond, yes, no) =>
         && AllShaped(cond, root, guards)
         && AllShaped(yes, root, YesGuards(cond, root, guards)) && AllShaped(no, root, NoGuards(cond, root, guards))
       case _ => true
  }

  // --- operators ---

  lemma {:induction false} FirstTypesAt(vs: seq<Node>, b: Node)
    requires (forall c :: c in vs ==> |c.types| == 1) && b in vs
    ensures b.types[0] in FirstTypes(vs)
  {
    assert vs[0] in vs;
    if b != vs[0] { FirstTypesAt(vs[1..], b); }
  }

  lemma UnionTyped(n: Node, vs: seq<Node>, v: Datum) returns (t: string)
    requires (forall b :: b in vs ==> Shaped(b) && |b.types| == 1) && exists b :: b in vs && Mem(b, v)
    ensures t in FirstTypes(vs) && OfType(v, t)
  {
    hide OfType;
    var b :| b in vs && Mem(b, v);
    t :| t in b.types && OfType(v, t);
    assert t == b.types[0];
    FirstTypesAt(vs, b);
  }

  lemma Numbers(v: Datum)
    ensures OfType(v, "number") <==> Numeric(v)
    ensures OfType(v, "integer") <==> Numeric(v) && Integral(AsReal(v))
    ensures forall t :: NumericType(t) && OfType(v, t) ==> Numeric(v)
  {
  }

  // The single type of an operand is the type of each of its values.
  lemma ConcreteMem(n: Node, v: Datum)
    requires Shaped(n) && Mem(n, v) && ConcreteType(n).Some?
    ensures OfType(v, ConcreteType(n).value)
  {
    hide OfType;
    if |n.types| == 1 {
      var t :| t in n.types && OfType(v, t);
      assert t == n.types[0];
    } else {
      var vs := VariantsOf(n).all;
      var t := UnionTyped(n, vs, v);
      Numbers(v);
    }
  }

  lemma NumericMem(n: Node, v: Datum)
    requires Shaped(n) && Mem(n, v) && ConcreteType(n).Some? && NumericType(ConcreteType(n).value)
    ensures Numeric(v)
  {
    hide OfType, Mem, Shaped, ConcreteType;
    ConcreteMem(n, v);
    Numbers(v);
  }

  lemma TypeMem(t: string, v: Datum)
    requires OfType(v, t) && t != "object" && t != "array"
    ensures Mem(Type(t), v)
  {
    assert t in Type(t).types;
  }

  lemma BoolMem(b: bool)
    ensures Mem(Type("boolean"), VBool(b))
  {
    TypeMem("boolean", VBool(b));
  }

  lemma NumberMem(v: Datum)
    requires Numeric(v)
    ensures Mem(Type("number"), v)
  {
    TypeMem("number", v);
  }

  lemma ProductOfIntegers(i: int, j: int)
    ensures i as real * j as real == (i * j) as real
  {
  }

  lemma IntegersClosed(op: BinaryOp, a: real, b: real)
    requires Integral(a) && Integral(b)
    ensures Integral(Combine(op, a, b))
  {
    var i, j := a.Floor, b.Floor;
    ProductOfIntegers(i, j);
    var k := if op == Add then i + j else if op == Sub then i - j else i * j;
    assert Combine(op, a, b) == k as real;
  }

  lemma TruncateKeeps(l: Datum, r: Datum, x: real)
    ensures Numeric(Truncate(l, r, x)) && AsReal(Truncate(l, r, x)) == x
  {
  }

  // Sums, differences and products are numbers, and integers when both operands are.
  lemma ArithApplies(op: BinaryOp, l: Datum, r: Datum)
    requires Numeric(l) && Numeric(r) && (op == Add || op == Sub || op == Mul)
    ensures Apply(op, l, r).Val? && Numeric(Apply(op, l, r).v)
    ensures Integral(AsReal(l)) && Integral(AsReal(r)) ==> Integral(AsReal(Apply(op, l, r).v))
  {
    hide Truncate, Integral, Combine;
    var a, b := AsReal(l), AsReal(r);
    if Integral(a) && Integral(b) { IntegersClosed(op, a, b); }
    TruncateKeeps(l, r, Combine(op, a, b));
  }

  lemma ArithSound(op: BinaryOp, l: Node, r: Node, lv: Datum, rv: Datum)
    requires Shaped(l) && Shaped(r) && Mem(l, lv) && Mem(r, rv)
    requires (op == Add || op == Sub || op == Mul) && InferArith(l, r).Ok?
    ensures Apply(op, lv, rv).Val? && Mem(InferArith(l, r).value, Apply(op, lv, rv).v)
  {
    hide OfType, Mem, Shaped, ConcreteType, HasNull, Truncate, Integral, Apply;
    NumericMem(l, lv);
    NumericMem(r, rv);
    ArithApplies(op, lv, rv);
    var v := Apply(op, lv, rv).v;
    Numbers(v);
    if PairOf(l, r, "integer") {
      ConcreteMem(l, lv);
      ConcreteMem(r, rv);
      Numbers(lv);
      Numbers(rv);
      TypeMem("integer", v);
    } else {
      TypeMem("number", v);
    }
  }

  lemma {:induction false} HoldsWhatItMay(n: Node, v: Datum, t: string)
    requires Shaped(n) && Mem(n, v)
    requires (t == "object" && v.VObj?) || (t == "array" && v.VArr?)
    ensures MayHold(n, t)
    decreases n
  {
    if IsEmpty(n) {
    } else if VariantsOf(n).Variants? {
      var b :| b in VariantsOf(n).all && Mem(b, v);
      HoldsWhatItMay(b, v, t);
    } else {
      var u :| u in n.types && OfType(v, u);
    }
  }

  // No panic: equality meets at most one container of a kind.
  lemma EqualSound(l: Node, r: Node, lv: Datum, rv: Datum)
    requires Shaped(l) && Shaped(r) && Mem(l, lv) && Mem(r, rv) && Comparable(l, r)
    ensures Equal(lv, rv).Some?
  {
    if lv.VObj? && rv.VObj? {
      HoldsWhatItMay(l, lv, "object");
      HoldsWhatItMay(r, rv, "object");
    } else if lv.VArr? && rv.VArr? {
      HoldsWhatItMay(l, lv, "array");
      HoldsWhatItMay(r, rv, "array");
    }
  }

  lemma PairMem(t: Node, f: Node, v: Datum)
    requires Mem(t, v) || Mem(f, v)
    ensures Mem(OneOf([t, f]), v)
  {
    var u := [t, f];
    assert u[0] == t && u[1] == f;
    assert t in u && f in u;
  }

  lemma ConcreteNumber(n: Node, v: Datum, t: string)
    requires Shaped(n) && Mem(n, v) && ConcreteType(n).Some? && NumericType(ConcreteType(n).value)
    requires t == ConcreteType(n).value || t == "number"
    ensures Mem(Type(t), v)
  {
    hide OfType, Mem, Shaped, ConcreteType;
    NumericMem(n, v);
    ConcreteMem(n, v);
    Numbers(v);
    TypeMem(t, v);
  }

  lemma CoalesceSound(l: Node, r: Node, lv: Datum, rv: Datum)
    requires Shaped(l) && Shaped(r) && Mem(l, lv) && !HidesNull(l)
    requires lv == VNull ==> Mem(r, rv)
    requires Shaped(InferCoalesce(l, r))
    ensures Mem(InferCoalesce(l, r), if lv == VNull then rv else lv)
  {
    hide Mem, Shaped, ConcreteType, StripNull, OfType, IsNullType, NumericType;
    var rest := StripNull(l);
    var v := if lv == VNull then rv else lv;
    if IsNullType(l) {
      ShapedForms(l);
      NullOnly(l, lv);
    } else if l == rest {
      AnythingMem(l, v);
    } else {
      ShapedForms(l);
      if lv != VNull { StripNullMem(l, lv); }
      var lt, rt := ConcreteType(rest), ConcreteType(r);
      if rest == r {
      } else if lt.Some? && rt.Some? && NumericType(lt.value) && NumericType(rt.value) {
        if lv != VNull {
          StripNullShaped(l, lv);
          ConcreteNumber(rest, lv, if lt == rt then lt.value else "number");
        } else {
          ConcreteNumber(r, rv, if lt == rt then lt.value else "number");
        }
      } else {
        PairMem(rest, r, v);
      }
    }
  }

  lemma AnythingMem(n: Node, v: Datum)
    ensures IsEmpty(n) ==> Mem(n, v)
  {
  }

  lemma StripNullShaped(n: Node, v: Datum)
    requires Shaped(n) && Mem(n, v) && v != VNull
    ensures Shaped(StripNull(n))
  {
    hide OfType, Mem;
    StripNullMem(n, v);
    if n.types == [] {
      if VariantsOf(n).Variants? {
        var rest := NonNullVariants(VariantsOf(n).all);
        if |rest| == 1 { assert rest[0] in rest; }
      }
    } else {
      assert n.types == ["object"] ==> n.types[1..] == [] && NonNullTypes(n.types) == n.types;
    }
  }

  lemma EitherSound(t: Node, f: Node, v: Datum)
    requires Shaped(t) && Shaped(f) && (Mem(t, v) || Mem(f, v))
    ensures Mem(Either(t, f), v)
  {
    if t == f {
    } else if MadeNullable(t, f).Some? {
      if Mem(f, v) { NullOnly(f, v); }
      WithNullMem(t, v);
    } else if MadeNullable(f, t).Some? {
      if Mem(t, v) { NullOnly(t, v); }
      WithNullMem(f, v);
    } else {
      PairMem(t, f, v);
    }
  }

  // --- soundness ---

  ghost predicate Sound(o: Outcome, n: Node) {
    o.DivByZero? || (o.Val? && Mem(n, o.v))
  }

  lemma BinarySound(op: BinaryOp, l: Node, r: Node, lv: Datum, rv: Datum)
    requires Shaped(l) && Shaped(r) && Mem(l, lv) && Mem(r, rv)
    requires op != Mod && op != And && op != Or && op != Coalesce
    requires InferBinary(op, l, r).Ok? && (op == Eq || op == Ne ==> Comparable(l, r))
    ensures Sound(Apply(op, lv, rv), InferBinary(op, l, r).value)
  {
    hide OfType, Mem, Shaped, ConcreteType, HasNull, Truncate, InferArith, Equal, MayHold, Comparable;
    if op == Eq || op == Ne {
      EqualSound(l, r, lv, rv);
      BoolMem(Apply(op, lv, rv).v.b);
    } else if op == Add && PairOf(l, r, "string") {
      StringsSound(l, r, lv, rv);
    } else if op == Add || op == Sub || op == Mul {
      ArithSound(op, l, r, lv, rv);
    } else {
      NumericMem(l, lv);
      NumericMem(r, rv);
      if op == Div {
        if AsReal(rv) != 0.0 { NumberMem(Apply(op, lv, rv).v); }
      } else {
        BoolMem(Compare(op, AsReal(lv), AsReal(rv)));
      }
    }
  }

  lemma StringsSound(l: Node, r: Node, lv: Datum, rv: Datum)
    requires Shaped(l) && Shaped(r) && Mem(l, lv) && Mem(r, rv) && PairOf(l, r, "string")
    ensures lv.VStr? && rv.VStr? && Mem(Type("string"), VStr(lv.s + rv.s))
  {
    hide Mem, Shaped, ConcreteType, HasNull;
    ConcreteMem(l, lv);
    ConcreteMem(r, rv);
    TypeMem("string", VStr(lv.s + rv.s));
  }

  lemma OppositeType(v: Datum, t: string)
    requires Numeric(v) && OfType(v, t)
    ensures ApplyUnary(Neg, v).Val? && OfType(ApplyUnary(Neg, v).v, t)
  {
    var w := ApplyUnary(Neg, v).v;
    assert AsReal(w) == -AsReal(v);
    assert Integral(AsReal(v)) ==> -AsReal(v) == (-AsReal(v).Floor) as real;
  }

  lemma OppositePlain(n: Node, v: Datum)
    requires Numeric(v) && n.anyOf.NoVariants? && n.oneOf.NoVariants? && Mem(n, v)
    ensures ApplyUnary(Neg, v).Val? && Mem(n, ApplyUnary(Neg, v).v)
  {
    hide OfType;
    if n.types != [] {
      var t :| t in n.types && OfType(v, t);
      OppositeType(v, t);
    }
  }

  // Negation stays within the types of a number.
  lemma NegationMem(n: Node, v: Datum)
    requires Shaped(n) && Mem(n, v) && ConcreteType(n).Some? && NumericType(ConcreteType(n).value)
    ensures ApplyUnary(Neg, v).Val? && Mem(n, ApplyUnary(Neg, v).v)
  {
    hide OfType, NumericType;
    NumericMem(n, v);
    if VariantsOf(n).Variants? && !IsEmpty(n) {
      var b :| b in VariantsOf(n).all && Mem(b, v);
      assert Formed(b) && (|n.types| != 1 ==> |b.types| == 1);
      OppositePlain(b, v);
    } else {
      OppositePlain(n, v);
    }
  }

  lemma UnarySound(op: UnaryOp, n: Node, v: Datum)
    requires Shaped(n) && Mem(n, v) && InferUnary(op, n).Ok?
    ensures ApplyUnary(op, v).Val? && Mem(InferUnary(op, n).value, ApplyUnary(op, v).v)
  {
    hide OfType, Mem, Shaped, ConcreteType, HasNull;
    if op == Not {
      ConcreteMem(n, v);
      Booleans(v);
      BoolMem(!v.b);
    } else {
      NumericMem(n, v);
      NegationMem(n, v);
    }
  }

  lemma Booleans(v: Datum)
    requires OfType(v, "boolean")
    ensures v.VBool?
  {
  }

  lemma LogicalSound(l: Node, v: Datum)
    requires Shaped(l) && Mem(l, v) && ConcreteType(l) == Some("boolean")
    ensures v.VBool? && Mem(Type("boolean"), v)
  {
    hide OfType, Mem, Shaped, ConcreteType;
    ConcreteMem(l, v);
    Booleans(v);
    BoolMem(v.b);
  }

  // --- narrowing ---

  lemma LiteralMem(lit: Expr, env: Env, v: Datum)
    requires IsLiteral(lit)
    requires Eval(lit, env).Val? && Equal(v, Eval(lit, env).v) == Some(true)
    ensures Mem(LiteralType(lit), v)
  {
    hide Mem;
    match lit
    case BoolLit(b) => TypeMem("boolean", v);
    case StrLit(s) => TypeMem("string", v);
    case IntLit(i) =>
      assert i as real == (i as real).Floor as real;
      TypeMem("integer", v);
    case FloatLit(r) => TypeMem("number", v);
    case Ident(_) => TypeMem("null", v);
  }

  lemma EqualGuards(cond: Expr, guards: Guards, env: Env)
    requires IsComparison(cond) && Guarded(guards, env) && PlainNames(Subject(cond))
    requires Eval(Subject(cond), env).Val? && Eval(Literal(cond), env).Val?
    requires Equal(Eval(Subject(cond), env).v, Eval(Literal(cond), env).v) == Some(true)
    ensures Guarded(WhenEqual(cond, guards), env)
  {
    hide Equal, Mem;
    if PathOf(Subject(cond)) != "" {
      LiteralMem(Literal(cond), env, Eval(Subject(cond), env).v);
      GuardAdded(guards, env, Subject(cond), LiteralType(Literal(cond)));
    }
  }

  lemma DifferentGuards(cond: Expr, guards: Guards, env: Env, t: Result<Node>)
    requires IsComparison(cond) && Guarded(guards, env) && PlainNames(Subject(cond))
    requires Eval(Subject(cond), env).Val? && Eval(Literal(cond), env).Val?
    requires Equal(Eval(Subject(cond), env).v, Eval(Literal(cond), env).v) == Some(false)
    requires t.Ok? ==> Shaped(t.value) && Mem(t.value, Eval(Subject(cond), env).v)
    ensures Guarded(WhenDifferent(cond, guards, t), env)
  {
    hide Mem, Shaped;
    if PathOf(Subject(cond)) != "" && IsNullWord(Literal(cond)) && t.Ok? {
      ShapedForms(t.value);
      StripNullMem(t.value, Eval(Subject(cond), env).v);
      GuardAdded(guards, env, Subject(cond), StripNull(t.value));
    }
  }

  lemma {:induction false} SimplePlain(e: Expr, root: Node, guards: Guards)
    requires Simple(e, root, guards)
    ensures PlainNames(e)
  {
    match e
    case Member(base, _) => SimplePlain(base, root, guards);
    case _ =>
  }

  lemma EqualSwaps(a: Datum, b: Datum)
    ensures Equal(a, b) == Equal(b, a)
  {
  }

  // Taking the comparison's branch proves what the branch's guards say.
  lemma BranchGuards(cond: Expr, root: Node, guards: Guards, env: Env)
    requires Shaped(root) && Guarded(guards, env) && Infer(cond, root, guards).Ok?
    requires Simple(cond, root, guards) && AllShaped(cond, root, guards)
    requires Eval(cond, env).Val?
    requires IsComparison(cond) ==> Sound(Eval(Subject(cond), env), Infer(Subject(cond), root, guards).value)
    ensures Truthy(Eval(cond, env).v) ==> Guarded(YesGuards(cond, root, guards), env)
    ensures !Truthy(Eval(cond, env).v) ==> Guarded(NoGuards(cond, root, guards), env)
  {
    hide Mem, Shaped, Equal, Guarded, WhenEqual, WhenDifferent;
    if IsComparison(cond) {
      var s, lit := Subject(cond), Literal(cond);
      SimplePlain(s, root, guards);
      var sv, lv := Eval(s, env).v, Eval(lit, env).v;
      EqualSwaps(sv, lv);
      if Equal(sv, lv) == Some(true) {
        EqualGuards(cond, guards, env);
      } else {
        DifferentGuards(cond, guards, env, Infer(s, root, guards));
      }
    }
  }

  // --- the theorem ---

  lemma RootSound(name: string, root: Node, env: Env)
    requires Shaped(root) && EnvFits(root, env) && Lookup(root, name).Ok?
    ensures name in env && Mem(Lookup(root, name).value, env[name])
  {
    var p := root.props.all[name];
    assert Shaped(p);
    WithNullMem(p, env[name]);
  }

  lemma MemberSound(b: Node, bv: Datum, prop: Expr, t: Node)
    requires Shaped(b) && !IsEmpty(b) && Mem(b, bv) && !IsNullType(b) && Shaped(t)
    requires (prop.StrLit? && Lookup(b, prop.s) == Ok(t)) || (prop.IntLit? && Index(b) == Ok(t))
    ensures Mem(t, if prop.StrLit? then FieldOf(bv, prop.s) else ElementOf(bv, prop.i))
  {
    if prop.StrLit? {
      LookupMem(b, prop.s, bv);
    } else {
      IndexMem(b, prop.i, bv);
    }
  }

  lemma NothingInUntyped(b: Node, name: string)
    requires IsEmpty(b)
    ensures Lookup(b, name).Err? && Index(b).Err?
  {
  }

  lemma ShortCircuitSound(op: BinaryOp, l: Node, r: Node, lv: Datum, right: Outcome)
    requires Shaped(l) && Shaped(r) && Mem(l, lv) && Sound(right, r)
    requires (op == And || op == Or) && InferBinary(op, l, r).Ok?
    ensures lv.VBool?
    ensures Sound(Val(lv), Type("boolean"))
    ensures right.Val? ==> right.v.VBool? && Sound(right, Type("boolean"))
  {
    hide OfType, Mem, Shaped, ConcreteType, HasNull;
    LogicalSound(l, lv);
    if right.Val? { LogicalSound(r, right.v); }
  }

  lemma UnwrapSound(n: Node, o: Outcome)
    requires Shaped(n) && Sound(o, n)
    ensures Shaped(Unwrap(n)) && Sound(o, Unwrap(n))
  {
    hide Mem, Shaped;
    UnwrapMem(n, if o.Val? then o.v else VNull);
  }

  lemma UnwrapMay(n: Node, t: string)
    requires Shaped(n)
    ensures MayHold(Unwrap(n), t) ==> MayHold(n, t)
  {
    if Unwrap(n) != n {
      assert VariantsOf(n).all[0] in VariantsOf(n).all;
    }
  }

  lemma BinaryCase(op: BinaryOp, l: Node, r: Node, left: Expr, right: Expr, env: Env)
    requires op != Mod && op != OtherBinary
    requires Shaped(l) && Shaped(r) && Sound(Eval(left, env), l) && Sound(Eval(right, env), r)
    requires InferBinary(op, Unwrap(l), Unwrap(r)).Ok? && Shaped(InferBinary(op, Unwrap(l), Unwrap(r)).value)
    requires (op == Eq || op == Ne ==> Comparable(l, r)) && (op == Coalesce ==> !HidesNull(Unwrap(l)))
    ensures Sound(Eval(Binary(op, left, right), env), InferBinary(op, Unwrap(l), Unwrap(r)).value)
  {
    hide Mem, Shaped, HidesNull, Unwrap, MayHold, Apply, InferCoalesce, ConcreteType, HasNull;
    var lo, ro := Eval(left, env), Eval(right, env);
    UnwrapSound(l, lo);
    UnwrapSound(r, ro);
    var lu, ru := Unwrap(l), Unwrap(r);
    if lo.Val? {
      if op == And || op == Or {
        ShortCircuitSound(op, lu, ru, lo.v, ro);
      } else if op == Coalesce {
        if lo.v != VNull || ro.Val? { CoalesceSound(lu, ru, lo.v, if ro.Val? then ro.v else VNull); }
      } else if ro.Val? {
        UnwrapMay(l, "object");
        UnwrapMay(r, "object");
        UnwrapMay(l, "array");
        UnwrapMay(r, "array");
        BinarySound(op, lu, ru, lo.v, ro.v);
      }
    }
  }

  lemma {:induction false} TypesAreSound(e: Expr, root: Node, guards: Guards, env: Env)
    requires Shaped(root) && EnvFits(root, env) && Guarded(guards, env)
    requires Simple(e, root, guards) && AllShaped(e, root, guards) && Infer(e, root, guards).Ok?
    ensures Sound(Eval(e, env), Infer(e, root, guards).value)
    decreases e
  {
    hide Mem, Shaped, HidesNull, Unwrap, MayHold, Apply, ApplyUnary, InferBinary, InferUnary, EnvFits, Comparable, Either, Lookup, Index;
    hide YesGuards, NoGuards;
    match e
    case IntLit(i) =>
      assert i as real == (i as real).Floor as real;
      TypeMem("integer", VInt(i));
    case FloatLit(r) => TypeMem("number", VFloat(r));
    case StrLit(s) => TypeMem("string", VStr(s));
    case BoolLit(b) => TypeMem("boolean", VBool(b));
    case Ident(name) =>
      if name == "null" {
        TypeMem("null", VNull);
      } else if name in guards {
        assert PathOf(e) == name;
      } else {
        RootSound(name, root, env);
      }
    case Member(base, prop) =>
      var path := PathOf(e);
      if path != "" && path in guards {
        SimplePlain(e, root, guards);
      } else {
        TypesAreSound(base, root, guards, env);
        if Eval(base, env).Val? {
          var b, bv := Infer(base, root, guards).value, Eval(base, env).v;
          if IsNullType(b) {
            ShapedForms(b);
            NullOnly(b, bv);
            TypeMem("null", VNull);
          } else {
            if IsEmpty(b) { NothingInUntyped(b, if prop.StrLit? then prop.s else ""); }
            MemberSound(b, bv, prop, Infer(e, root, guards).value);
          }
        }
      }
    case Binary(op, left, right) =>
      TypesAreSound(left, root, guards, env);
      TypesAreSound(right, root, guards, env);
      BinaryCase(op, Infer(left, root, guards).value, Infer(right, root, guards).value, left, right, env);
    case Unary(op, operand) =>
      TypesAreSound(operand, root, guards, env);
      var t := Infer(operand, root, guards).value;
      UnwrapSound(t, Eval(operand, env));
      if Eval(operand, env).Val? { UnarySound(op, Unwrap(t), Eval(operand, env).v); }
    case Cond(cond, yes, no) =>
      TypesAreSound(cond, root, guards, env);
      if IsComparison(cond) { TypesAreSound(Subject(cond), root, guards, env); }
      if Eval(cond, env).Val? {
        BranchGuards(cond, root, guards, env);
        var t := Infer(yes, root, YesGuards(cond, root, guards)).value;
        var f := Infer(no, root, NoGuards(cond, root, guards)).value;
        if Truthy(Eval(cond, env).v) {
          TypesAreSound(yes, root, YesGuards(cond, root, guards), env);
          if Eval(yes, env).Val? { EitherSound(t, f, Eval(yes, env).v); }
        } else {
          TypesAreSound(no, root, NoGuards(cond, root, guards), env);
          if Eval(no, env).Val? { EitherSound(t, f, Eval(no, env).v); }
        }
      }
  }
}
