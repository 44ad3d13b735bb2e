/** What expressions evaluate to: arithmetic, order, text, logic, choice and access. */
module EvaluationLaws {
  import opened Common
  import opened Expression

  // The number a value stands for.
  predicate Worth(v: Datum, x: real) {
    (v.VInt? && v.i as real == x) || (v.VFloat? && v.r == x)
  }

  predicate Yields(e: Expr, env: Env, v: Datum) {
    Eval(e, env) == Val(v)
  }

  // On two integers sums, differences and products are those of the integers, although each goes
  // through floats, and come out as integers.
  lemma IntegerSums(l: Expr, r: Expr, env: Env, i: int, j: int)
    requires Yields(l, env, VInt(i)) && Yields(r, env, VInt(j))
    ensures Yields(Binary(Add, l, r), env, VInt(i + j))
    ensures Yields(Binary(Sub, l, r), env, VInt(i - j))
  {
    hide Compare, Equal, Remainder, Combine;
    SumsOfReals(i, j);
  }

  lemma SumsOfReals(i: int, j: int)
    ensures Combine(Add, i as real, j as real) == (i + j) as real
    ensures Combine(Sub, i as real, j as real) == (i - j) as real
  {
  }

  lemma IntegerProducts(l: Expr, r: Expr, env: Env, i: int, j: int)
    requires Yields(l, env, VInt(i)) && Yields(r, env, VInt(j))
    ensures Yields(Binary(Mul, l, r), env, VInt(i * j))
  {
    hide Compare, Equal, Remainder;
    assert Combine(Mul, i as real, j as real) == (i * j) as real;
  }

  lemma IntegerOrder(l: Expr, r: Expr, env: Env, i: int, j: int)
    requires Yields(l, env, VInt(i)) && Yields(r, env, VInt(j))
    ensures Yields(Binary(Lt, l, r), env, VBool(i < j)) && Yields(Binary(Gt, l, r), env, VBool(i > j))
    ensures Yields(Binary(Le, l, r), env, VBool(i <= j)) && Yields(Binary(Ge, l, r), env, VBool(i >= j))
    ensures Yields(Binary(Eq, l, r), env, VBool(i == j)) && Yields(Binary(Ne, l, r), env, VBool(i != j))
  {
    hide Combine, Remainder;
  }

  // The remainder leaves a multiple of the divisor, is smaller than it, and has the sign of the
  // dividend; nothing else does.
  ghost predicate RemainderOf(i: int, j: int, rest: int) {
    && (exists q: int :: i == q * j + rest)
    && rest < Abs(j) && -rest < Abs(j) && (i >= 0 ==> rest >= 0) && (i <= 0 ==> rest <= 0)
  }

  lemma Remainders(l: Expr, r: Expr, env: Env, i: int, j: int)
    requires Yields(l, env, VInt(i)) && Yields(r, env, VInt(j))
    ensures j == 0 ==> Eval(Binary(Mod, l, r), env) == DivByZero
    ensures j != 0 ==> exists rest :: Yields(Binary(Mod, l, r), env, VInt(rest)) && RemainderOf(i, j, rest)
  {
    hide Combine, Compare, Equal, Remainder, RemainderOf;
    if j != 0 {
      var rest := Remainder(i, j);
      RemainderIs(i, j);
      assert Yields(Binary(Mod, l, r), env, VInt(rest));
    }
  }

  lemma RemainderIs(i: int, j: int)
    requires j != 0
    ensures RemainderOf(i, j, Remainder(i, j))
  {
    var q: int := Abs(i) / Abs(j);
    var m: int := Abs(i) % Abs(j);
    Divides(Abs(i), Abs(j));
    var p := if (i < 0) == (j < 0) then q else -q;
    assert p * j == if i < 0 then -(q * Abs(j)) else q * Abs(j) by { SignMoves(q, j); }
    assert i == p * j + Remainder(i, j);
  }

  lemma Divides(a: nat, b: nat)
    requires b != 0
    ensures a == (a / b) * b + a % b && 0 <= a % b < b
  {
  }

  lemma SignMoves(q: int, j: int)
    ensures -q * j == -(q * j) && q * -j == -(q * j)
  {
  }

  lemma OneRemainder(i: int, j: int, a: int, b: int)
    requires j != 0 && RemainderOf(i, j, a) && RemainderOf(i, j, b)
    ensures a == b
  {
    var q: int :| i == q * j + a;
    var p: int :| i == p * j + b;
    assert (q - p) * j == b - a;
    if q != p {
      assert Abs((q - p) * j) >= Abs(j) by { if q > p { AtLeast(q - p, j); } else { AtLeast(p - q, j); } }
      assert false;
    }
  }

  lemma AtLeast(k: int, j: int)
    requires k >= 1
    ensures Abs(k * j) >= Abs(j) && Abs(-k * j) >= Abs(j)
  {
    assert j >= 0 ==> k * j >= j;
    assert j < 0 ==> k * j <= j;
  }

  // On numbers of either kind exactly one of less, equal and greater holds, by what they are worth;
  // the other comparisons are the unions.
  lemma NumberOrder(l: Expr, r: Expr, env: Env, v: Datum, u: Datum, a: real, b: real)
    requires Yields(l, env, v) && Yields(r, env, u) && Worth(v, a) && Worth(u, b)
    ensures Yields(Binary(Lt, l, r), env, VBool(a < b)) && Yields(Binary(Gt, l, r), env, VBool(a > b))
    ensures Yields(Binary(Le, l, r), env, VBool(a <= b)) && Yields(Binary(Ge, l, r), env, VBool(a >= b))
    ensures Yields(Binary(Eq, l, r), env, VBool(a == b)) && Yields(Binary(Ne, l, r), env, VBool(a != b))
  {
    hide Combine, Remainder, Truncate;
  }

  // A quotient is a float, of integers too, and a division by zero its own error.
  lemma Quotients(l: Expr, r: Expr, env: Env, v: Datum, u: Datum, a: real, b: real)
    requires Yields(l, env, v) && Yields(r, env, u) && Worth(v, a) && Worth(u, b)
    ensures b == 0.0 ==> Eval(Binary(Div, l, r), env) == DivByZero
    ensures b != 0.0 ==> Yields(Binary(Div, l, r), env, VFloat(a / b))
  {
    hide Combine, Remainder, Compare;
    assert AsReal(v) == a && AsReal(u) == b;
  }

  // With a float among them the numbers combine as what they are worth, to a float.
  lemma Floats(l: Expr, r: Expr, env: Env, v: Datum, u: Datum, a: real, b: real)
    requires Yields(l, env, v) && Yields(r, env, u) && Worth(v, a) && Worth(u, b) && (v.VFloat? || u.VFloat?)
    ensures Yields(Binary(Add, l, r), env, VFloat(a + b)) && Yields(Binary(Sub, l, r), env, VFloat(a - b))
    ensures Eval(Binary(Mod, l, r), env) == Failed
  {
    hide Remainder, Compare;
  }

  lemma FloatProducts(l: Expr, r: Expr, env: Env, v: Datum, u: Datum, a: real, b: real)
    requires Yields(l, env, v) && Yields(r, env, u) && Worth(v, a) && Worth(u, b) && (v.VFloat? || u.VFloat?)
    ensures Yields(Binary(Mul, l, r), env, VFloat(a * b))
  {
    hide Remainder, Compare, Combine;
    assert AsReal(v) == a && AsReal(u) == b;
    MultipliesReals(a, b);
  }

  lemma MultipliesReals(a: real, b: real)
    ensures Combine(Mul, a, b) == a * b
  {
  }

  // Text is joined by plus and takes part in no other arithmetic and no order.
  lemma Texts(l: Expr, r: Expr, env: Env, s: string, t: string)
    requires Yields(l, env, VStr(s)) && Yields(r, env, VStr(t))
    ensures Yields(Binary(Add, l, r), env, VStr(s + t))
    ensures Yields(Binary(Eq, l, r), env, VBool(s == t)) && Yields(Binary(Ne, l, r), env, VBool(s != t))
    ensures forall op :: op in {Sub, Mul, Div, Mod, Lt, Gt, Le, Ge} ==> Eval(Binary(op, l, r), env) == Failed
  {
  }

  predicate Arithmetic(op: BinaryOp) {
    op == Add || op == Sub || op == Mul || op == Div || op == Mod || op == Lt || op == Gt || op == Le || op == Ge
  }

  predicate SameKind(v: Datum, u: Datum) {
    (Numeric(v) && Numeric(u)) || (v.VStr? && u.VStr?) || (v.VBool? && u.VBool?) || (v.VNull? && u.VNull?)
  }

  // Two values of different kinds are never equal, nor is anything but an equal of the same kind;
  // and no arithmetic is defined on them.
  lemma KindsDiffer(l: Expr, r: Expr, env: Env, v: Datum, u: Datum, op: BinaryOp)
    requires Yields(l, env, v) && Yields(r, env, u) && !SameKind(v, u) && !(v.VArr? && u.VArr?) && !(v.VObj? && u.VObj?)
    ensures Yields(Binary(Eq, l, r), env, VBool(false)) && Yields(Binary(Ne, l, r), env, VBool(true))
    ensures Arithmetic(op) ==> Eval(Binary(op, l, r), env) == Failed
  {
    hide Combine, Remainder, Truncate, Compare;
  }

  lemma NullsAndBools(l: Expr, r: Expr, env: Env, v: Datum, u: Datum)
    requires Yields(l, env, v) && Yields(r, env, u) && ((v.VBool? && u.VBool?) || (v.VNull? && u.VNull?))
    ensures Yields(Binary(Eq, l, r), env, VBool(v == u)) && Yields(Binary(Ne, l, r), env, VBool(v != u))
  {
  }

  // A conjunction stops at false, a disjunction at true, whatever comes after; otherwise the right
  // side, a truth value, decides.
  lemma Logic(l: Expr, r: Expr, env: Env, b: bool)
    requires Yields(l, env, VBool(b))
    ensures !b ==> Yields(Binary(And, l, r), env, VBool(false))
    ensures b ==> Yields(Binary(Or, l, r), env, VBool(true))
    ensures forall c :: Yields(r, env, VBool(c)) ==>
              Yields(Binary(And, l, r), env, VBool(b && c)) && Yields(Binary(Or, l, r), env, VBool(b || c))
    ensures Yields(Unary(Not, l), env, VBool(!b))
  {
  }

  // A conditional is the branch its condition names, and only that branch is evaluated; a missing
  // left side is replaced by the right one.
  lemma Choice(c: Expr, yes: Expr, no: Expr, env: Env, v: Datum)
    requires Yields(c, env, v)
    ensures v == VBool(true) ==> Eval(Cond(c, yes, no), env) == Eval(yes, env)
    ensures v != VBool(true) ==> Eval(Cond(c, yes, no), env) == Eval(no, env)
    ensures v == VNull ==> Eval(Binary(Coalesce, c, no), env) == Eval(no, env)
    ensures v != VNull ==> Yields(Binary(Coalesce, c, no), env, v)
  {
  }

  lemma Signs(e: Expr, env: Env, v: Datum)
    requires Yields(e, env, v)
    ensures forall i :: v == VInt(i) ==> Yields(Unary(Neg, e), env, VInt(-i)) && Yields(Unary(Pos, e), env, v)
    ensures forall r :: v == VFloat(r) ==> Yields(Unary(Neg, e), env, VFloat(-r)) && Yields(Unary(Pos, e), env, v)
    ensures !v.VInt? && !v.VFloat? ==> Eval(Unary(Neg, e), env) == Failed && Eval(Unary(Pos, e), env) == Failed
    ensures !v.VBool? ==> Eval(Unary(Not, e), env) == Failed
  {
  }

  // A member is what the object or list holds there; whatever is not there is null.
  lemma Access(e: Expr, env: Env, v: Datum, name: string, i: int)
    requires Yields(e, env, v)
    ensures v.VObj? && name in v.fields ==> Yields(Member(e, StrLit(name)), env, v.fields[name])
    ensures !(v.VObj? && name in v.fields) ==> Yields(Member(e, StrLit(name)), env, VNull)
    ensures v.VArr? && 0 <= i < |v.items| ==> Yields(Member(e, IntLit(i)), env, v.items[i])
    ensures !(v.VArr? && 0 <= i < |v.items|) ==> Yields(Member(e, IntLit(i)), env, VNull)
  {
  }

  // What fails on the left fails as a whole, in the same way.
  lemma LeftFails(l: Expr, r: Expr, op: BinaryOp, prop: Expr, env: Env)
    requires !Eval(l, env).Val?
    ensures op != OtherBinary ==> Eval(Binary(op, l, r), env) == Eval(l, env)
    ensures Eval(Cond(l, r, r), env) == Eval(l, env) && Eval(Member(l, prop), env) == Eval(l, env) && Eval(Unary(Not, l), env) == Eval(l, env)
  {
  }

  // Literals are their values, null the null, and a name what the scope holds under it.
  lemma Leaves(env: Env, name: string, i: int, x: real, s: string, b: bool)
    ensures Yields(IntLit(i), env, VInt(i)) && Yields(FloatLit(x), env, VFloat(x)) && Yields(StrLit(s), env, VStr(s)) && Yields(BoolLit(b), env, VBool(b))
    ensures Yields(Ident("null"), env, VNull)
    ensures name != "null" ==> if name in env then Yields(Ident(name), env, env[name]) else Eval(Ident(name), env) == Failed
  {
  }
}
