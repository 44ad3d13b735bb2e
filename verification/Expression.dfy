/**
 Expressions and their evaluation. Numbers are exact; integers and floats stay apart, as
 they do at run time, because some operators look at the difference.
 */
module Expression {
  import opened Common

  datatype Datum = VNull | VBool(b: bool) | VInt(i: int) | VFloat(r: real) | VStr(s: string) | VArr(items: seq<Datum>) | VObj(fields: map<string, Datum>)

  datatype BinaryOp = Eq | Ne | Lt | Gt | Le | Ge | And | Or | Add | Sub | Mul | Div | Mod | Coalesce | OtherBinary

  datatype UnaryOp = Not | Neg | Pos | OtherUnary

  datatype Expr =
    | IntLit(i: int)
    | FloatLit(r: real)
    | StrLit(s: string)
    | BoolLit(b: bool)
    | NilLit
    | Ident(name: string)
    | Member(base: Expr, prop: Expr)
    | Binary(bop: BinaryOp, left: Expr, right: Expr)
    | Unary(uop: UnaryOp, operand: Expr)
    | Cond(cond: Expr, yes: Expr, no: Expr)
    | OtherNode

  // Failed covers every reported error but division by zero; Panicked is the run-time panic
  // of comparing two maps or two slices.
  datatype Outcome = Val(v: Datum) | DivByZero | Failed | Panicked

  type Env = map<string, Datum>

  // --- operators on values ---

  predicate Numeric(v: Datum) {
    v.VInt? || v.VFloat?
  }

  function AsReal(v: Datum): real
    requires Numeric(v)
  {
    if v.VInt? then v.i as real else v.r
  }

  // None when the comparison panics.
  function Equal(l: Datum, r: Datum): Option<bool> {
    if Numeric(l) && Numeric(r) then Some(AsReal(l) == AsReal(r))
    else if (l.VObj? && r.VObj?) || (l.VArr? && r.VArr?) then None
    else Some(l == r)
  }

  predicate Integral(r: real) {
    r == r.Floor as real
  }

  function Truncate(l: Datum, r: Datum, result: real): Datum {
    if l.VInt? && r.VInt? && Integral(result) then VInt(result.Floor) else VFloat(result)
  }

  function Abs(x: int): nat {
    if x < 0 then -x else x
  }

  // The sign of the remainder is that of the dividend.
  function Remainder(a: int, b: int): int
    requires b != 0
  {
    if a < 0 then -(Abs(a) % Abs(b)) else Abs(a) % Abs(b)
  }

  function Compare(op: BinaryOp, a: real, b: real): bool {
    match op
    case Lt => a < b
    case Gt => a > b
    case Le => a <= b
    case _ => a >= b
  }

  function Combine(op: BinaryOp, a: real, b: real): real {
    match op
    case Add => a + b
    case Sub => a - b
    case _ => a * b
  }

  function Apply(op: BinaryOp, l: Datum, r: Datum): Outcome {
    match op
    case Eq => (match Equal(l, r) case Some(b) => Val(VBool(b)) case None => Panicked)
    case Ne => (match Equal(l, r) case Some(b) => Val(VBool(!b)) case None => Panicked)
    case Add => if l.VStr? && r.VStr? then Val(VStr(l.s + r.s)) else if Numeric(l) && Numeric(r) then Val(Truncate(l, r, Combine(op, AsReal(l), AsReal(r)))) else Failed
    case Sub => if Numeric(l) && Numeric(r) then Val(Truncate(l, r, Combine(op, AsReal(l), AsReal(r)))) else Failed
    case Mul => if Numeric(l) && Numeric(r) then Val(Truncate(l, r, Combine(op, AsReal(l), AsReal(r)))) else Failed
    case Div =>
      if !(Numeric(l) && Numeric(r)) then Failed
      else if AsReal(r) == 0.0 then DivByZero
      else Val(VFloat(AsReal(l) / AsReal(r)))
    case Mod =>
      if !(l.VInt? && r.VInt?) then Failed
      else if r.i == 0 then DivByZero
      else Val(VInt(Remainder(l.i, r.i)))
    case Lt => if Numeric(l) && Numeric(r) then Val(VBool(Compare(op, AsReal(l), AsReal(r)))) else Failed
    case Gt => if Numeric(l) && Numeric(r) then Val(VBool(Compare(op, AsReal(l), AsReal(r)))) else Failed
    case Le => if Numeric(l) && Numeric(r) then Val(VBool(Compare(op, AsReal(l), AsReal(r)))) else Failed
    case Ge => if Numeric(l) && Numeric(r) then Val(VBool(Compare(op, AsReal(l), AsReal(r)))) else Failed
    case _ => Failed
  }

  function ApplyUnary(op: UnaryOp, v: Datum): Outcome {
    match op
    case Not => if v.VBool? then Val(VBool(!v.b)) else Failed
    case Neg => if v.VInt? then Val(VInt(-v.i)) else if v.VFloat? then Val(VFloat(-v.r)) else Failed
    case Pos => if Numeric(v) then Val(v) else Failed
    case OtherUnary => Failed
  }

  // --- member access: everything that is not there is null ---

  function FieldOf(v: Datum, name: string): Datum {
    if v.VObj? && name in v.fields then v.fields[name] else VNull
  }

  function ElementOf(v: Datum, i: int): Datum {
    if v.VArr? && 0 <= i < |v.items| then v.items[i] else VNull
  }

  function Truthy(v: Datum): bool {
    v.VBool? && v.b
  }

  // --- evalNode ---

  function Eval(e: Expr, env: Env): Outcome {
    match e
    case IntLit(i) => Val(VInt(i))
    case FloatLit(r) => Val(VFloat(r))
    case StrLit(s) => Val(VStr(s))
    case BoolLit(b) => Val(VBool(b))
    case NilLit => Failed
    case Ident(name) => if name == "null" then Val(VNull) else if name in env then Val(env[name]) else Failed
    case Member(base, prop) =>
      (match Eval(base, env)
       case Val(b) =>
         (match prop
          case StrLit(name) => Val(FieldOf(b, name))
          case IntLit(i) => Val(ElementOf(b, i))
          case _ => Failed)
       case other => other)
    case Binary(op, left, right) =>
      (match Eval(left, env)
       case Val(l) =>
         if op == And || op == Or then
           if !l.VBool? then Failed
           else if l.b == (op == Or) then Val(l)
           else (match Eval(right, env)
                 case Val(r) => if r.VBool? then Val(r) else Failed
                 case other => other)
         else if op == Coalesce then
           if l != VNull then Val(l) else Eval(right, env)
         else if op == OtherBinary then Failed
         else (match Eval(right, env)
               case Val(r) => Apply(op, l, r)
               case other => other)
       case other => if op == OtherBinary then Failed else other)
    case Unary(op, operand) =>
      (match Eval(operand, env)
       case Val(v) => ApplyUnary(op, v)
       case other => if op == OtherUnary then Failed else other)
    case Cond(cond, yes, no) =>
      (match Eval(cond, env)
       case Val(c) => if Truthy(c) then Eval(yes, env) else Eval(no, env)
       case other => other)
    case OtherNode => Failed
  }
}
