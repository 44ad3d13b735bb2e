/**
 Types of expressions. First navigation through schema nodes: null added to and taken off a
 type, the type of a property and of an element, unions included. Then the tables of operators
 and the inference itself, with the guards that an equality with a literal puts on the path it
 compares, for the branch in which the comparison is known to hold or known to fail.
 */
module Inference {
  import opened Common
  import opened Schema
  import opened Expression

  // --- null in a type ---

  predicate IsNullType(n: Node) {
    n.types == ["null"]
  }

  predicate NullVariant(u: Variants) {
    u.Variants? && exists b :: b in u.all && IsNullType(b)
  }

  predicate HasNull(n: Node) {
    "null" in n.types || NullVariant(n.oneOf) || NullVariant(n.anyOf)
  }

  function OneOf(vs: seq<Node>): Node {
    EMPTY.(oneOf := Variants(vs))
  }

  function AnyOf(vs: seq<Node>): Node {
    EMPTY.(anyOf := Variants(vs))
  }

  function WithNull(n: Node): Node {
    if IsEmpty(n) || HasNull(n) then n
    else if n.types != [] && n.props.NoProps? then n.(types := n.types + ["null"])
    else OneOf([n, Type("null")])
  }

  function NonNullTypes(ts: seq<string>): seq<string> {
    if ts == [] then [] else (if ts[0] == "null" then [] else [ts[0]]) + NonNullTypes(ts[1..])
  }

  function NonNullVariants(vs: seq<Node>): (r: seq<Node>)
    ensures forall b :: b in r <==> b in vs && !IsNullType(b)
  {
    if vs == [] then [] else (if IsNullType(vs[0]) then [] else [vs[0]]) + NonNullVariants(vs[1..])
  }

  // A list with nothing left in it is an absent list.
  function Listed(vs: seq<Node>): Variants {
    if vs == [] then NoVariants else Variants(vs)
  }

  function StripNull(n: Node): Node {
    if n.types != [] then n.(types := NonNullTypes(n.types))
    else if n.oneOf.Variants? && n.oneOf.all != [] then
      var rest := NonNullVariants(n.oneOf.all);
      if |rest| == |n.oneOf.all| then n else if |rest| == 1 then rest[0] else n.(oneOf := Listed(rest))
    else if n.anyOf.Variants? && n.anyOf.all != [] then
      var rest := NonNullVariants(n.anyOf.all);
      if |rest| == |n.anyOf.all| then n else if |rest| == 1 then rest[0] else n.(anyOf := Listed(rest))
    else n
  }

  // --- one step down: a property, or an element ---

  predicate AllSame(vs: seq<Node>) {
    forall i :: 0 <= i < |vs| ==> vs[i] == vs[0]
  }

  function Lookup(n: Node, name: string): Result<Node>
    decreases n, 2
  {
    if n.anyOf.Variants? then LookupUnion(n, n.anyOf.all, name, false)
    else if n.oneOf.Variants? then LookupUnion(n, n.oneOf.all, name, true)
    else if n.props.NoProps? then Err("schema has no properties")
    else if name !in n.props.all then Err("field not found in schema")
    else Ok(if IsRequired(n, name) then n.props.all[name] else WithNull(n.props.all[name]))
  }

  // The variants that have the property; null variants are passed over.
  function Hits(n: Node, vs: seq<Node>, name: string): seq<Node>
    requires Inside(n, vs)
    decreases n, 0, |vs|
  {
    if vs == [] then []
    else
      TailInside(n, vs);
      (if IsNullType(vs[0]) then []
       else match Lookup(vs[0], name)
         case Ok(r) => [r]
         case Err(_) => []) + Hits(n, vs[1..], name)
  }

  predicate Missed(n: Node, vs: seq<Node>, name: string)
    requires Inside(n, vs)
    decreases n, 0
  {
    exists b :: b in vs && !IsNullType(b) && Lookup(b, name).Err?
  }

  function Merge(results: seq<Node>, exclusive: bool): Node
    requires results != []
  {
    if AllSame(results) then results[0] else if exclusive then OneOf(results) else AnyOf(results)
  }

  function LookupUnion(n: Node, vs: seq<Node>, name: string, exclusive: bool): Result<Node>
    requires Inside(n, vs)
    decreases n, 1
  {
    var results := Hits(n, vs, name);
    if results == [] then
      if Missed(n, vs, name) then Err("field not found in any variant") else Ok(Type("null"))
    else
      var merged := Merge(results, exclusive);
      Ok(if Missed(n, vs, name) || (exists b :: b in vs && IsNullType(b)) then WithNull(merged) else merged)
  }

  lemma VariantsInside(n: Node)
    ensures n.anyOf.Variants? ==> Inside(n, n.anyOf.all)
    ensures n.oneOf.Variants? ==> Inside(n, n.oneOf.all)
  {
  }

  lemma StripSmaller(n: Node)
    ensures StripNull(n).anyOf.Variants? ==> Inside(n, StripNull(n).anyOf.all)
    ensures StripNull(n).oneOf.Variants? ==> Inside(n, StripNull(n).oneOf.all)
  {
    var r := StripNull(n);
    VariantsInside(n);
    if r < n {
      VariantsInside(r);
    } else if n.types == [] && n.oneOf.Variants? && n.oneOf.all != [] {
      assert |NonNullVariants(n.oneOf.all)| == 1 ==> NonNullVariants(n.oneOf.all)[0] in n.oneOf.all;
    } else if n.types == [] && n.anyOf.Variants? && n.anyOf.all != [] {
      assert |NonNullVariants(n.anyOf.all)| == 1 ==> NonNullVariants(n.anyOf.all)[0] in n.anyOf.all;
    }
  }

  function Index(n: Node): Result<Node>
    decreases n, 2
  {
    StripSmaller(n);
    var r := StripNull(n);
    if r.anyOf.Variants? then Ok(IndexUnion(n, r.anyOf.all))
    else if r.oneOf.Variants? then Ok(IndexUnion(n, r.oneOf.all))
    else if "array" !in r.types then Err("index access requires an array schema")
    else if r.items.NoItems? then Ok(EMPTY)
    else Ok(WithNull(r.items.of))
  }

  function Elements(n: Node, vs: seq<Node>): seq<Node>
    requires Inside(n, vs)
    decreases n, 0, |vs|
  {
    if vs == [] then []
    else
      TailInside(n, vs);
      (if IsNullType(vs[0]) then []
       else match Index(vs[0])
         case Ok(r) => [r]
         case Err(_) => []) + Elements(n, vs[1..])
  }

  function IndexUnion(n: Node, vs: seq<Node>): Node
    requires Inside(n, vs)
    decreases n, 1
  {
    var results := Elements(n, vs);
    if results == [] then Type("null")
    else
      var merged := Merge(results, false);
      if (exists b :: b in vs && (IsNullType(b) || Index(b).Err?)) && !HasNull(merged) then WithNull(merged) else merged
  }

  // --- operand types ---

  // The union members: anyOf when present, else oneOf.
  function VariantsOf(n: Node): Variants {
    if n.anyOf.Variants? then n.anyOf else n.oneOf
  }

  function FirstTypes(vs: seq<Node>): seq<string>
    requires forall b :: b in vs ==> |b.types| == 1
  {
    if vs == [] then [] else assert vs[0] in vs; [vs[0].types[0]] + FirstTypes(vs[1..])
  }

  predicate NumericType(t: string) {
    t == "integer" || t == "number"
  }

  function ConcreteType(n: Node): Option<string> {
    if |n.types| == 1 then Some(n.types[0])
    else match VariantsOf(n)
      case NoVariants => None
      case Variants(vs) =>
        if exists b :: b in vs && (IsNullType(b) || |b.types| != 1) then None
        else
          var ts := FirstTypes(vs);
          if ts == [] then None
          else if forall t :: t in ts ==> t == ts[0] then Some(ts[0])
          else if forall t :: t in ts ==> NumericType(t) then Some("number")
          else None
  }

  function Unwrap(n: Node): Node {
    match VariantsOf(n)
    case NoVariants => n
    case Variants(vs) => if |vs| == 1 && !IsNullType(vs[0]) then vs[0] else n
  }

  function NumericPair(l: Node, r: Node): bool {
    && !HasNull(l) && !HasNull(r)
    && ConcreteType(l).Some? && ConcreteType(r).Some?
    && NumericType(ConcreteType(l).value) && NumericType(ConcreteType(r).value)
  }

  function PairOf(l: Node, r: Node, t: string): bool {
    !HasNull(l) && !HasNull(r) && ConcreteType(l) == Some(t) && ConcreteType(r) == Some(t)
  }

  function InferArith(l: Node, r: Node): Result<Node> {
    if !NumericPair(l, r) then Err("operator requires numeric operands")
    else if PairOf(l, r, "integer") then Ok(Type("integer"))
    else Ok(Type("number"))
  }

  function InferCoalesce(l: Node, r: Node): Node {
    if IsNullType(l) then r
    else
      var rest := StripNull(l);
      if l == rest then l
      else if rest == r then rest
      else
        var lt, rt := ConcreteType(rest), ConcreteType(r);
        if lt.Some? && rt.Some? && NumericType(lt.value) && NumericType(rt.value) then
          Type(if lt == rt then lt.value else "number")
        else OneOf([rest, r])
  }

  function InferBinary(op: BinaryOp, l: Node, r: Node): Result<Node> {
    match op
    case Eq => Ok(Type("boolean"))
    case Ne => Ok(Type("boolean"))
    case Lt => if NumericPair(l, r) then Ok(Type("boolean")) else Err("comparison requires numeric operands")
    case Gt => if NumericPair(l, r) then Ok(Type("boolean")) else Err("comparison requires numeric operands")
    case Le => if NumericPair(l, r) then Ok(Type("boolean")) else Err("comparison requires numeric operands")
    case Ge => if NumericPair(l, r) then Ok(Type("boolean")) else Err("comparison requires numeric operands")
    case And => if PairOf(l, r, "boolean") then Ok(Type("boolean")) else Err("logical operator requires boolean operands")
    case Or => if PairOf(l, r, "boolean") then Ok(Type("boolean")) else Err("logical operator requires boolean operands")
    case Add => if PairOf(l, r, "string") then Ok(Type("string")) else InferArith(l, r)
    case Sub => InferArith(l, r)
    case Mul => InferArith(l, r)
    case Div => if NumericPair(l, r) then Ok(Type("number")) else Err("/ requires numeric operands")
    case Mod => if PairOf(l, r, "integer") then Ok(Type("integer")) else Err("% requires integer operands")
    case Coalesce => Ok(InferCoalesce(l, r))
    case OtherBinary => Err("unsupported operator")
  }

  function InferUnary(op: UnaryOp, n: Node): Result<Node> {
    var t := ConcreteType(n);
    match op
    case Not => if !HasNull(n) && t == Some("boolean") then Ok(Type("boolean")) else Err("! requires a boolean operand")
    case Neg => if !HasNull(n) && t.Some? && NumericType(t.value) then Ok(n) else Err("unary operator requires a numeric operand")
    case Pos => if !HasNull(n) && t.Some? && NumericType(t.value) then Ok(n) else Err("unary operator requires a numeric operand")
    case OtherUnary => Err("unsupported unary operator")
  }

  // other is null and self can take null in place.
  function MadeNullable(self: Node, other: Node): Option<Node> {
    if !IsNullType(other) then None
    else if HasNull(self) then Some(self)
    else if self.props.Props? && self.props.all != map[] then None
    else if |self.types| == 1 then Some(WithNull(self))
    else None
  }

  function Either(t: Node, f: Node): Node {
    if t == f then t
    else if MadeNullable(t, f).Some? then MadeNullable(t, f).value
    else if MadeNullable(f, t).Some? then MadeNullable(f, t).value
    else OneOf([t, f])
  }

  // --- paths: what narrowing remembers types under ---

  function Digits(n: nat): string {
    (if n < 10 then [] else Digits(n / 10)) + [('0' as int + n % 10) as char]
  }

  function Decimal(i: int): string {
    if i < 0 then "-" + Digits(-i) else Digits(i)
  }

  // Empty when the expression is not a path.
  function PathOf(e: Expr): string {
    match e
    case Ident(name) => name
    case Member(base, prop) =>
      var b := PathOf(base);
      if b == "" then ""
      else (match prop
            case StrLit(s) => b + "." + s
            case IntLit(i) => b + "[" + Decimal(i) + "]"
            case _ => "")
    case _ => ""
  }

  type Guards = map<string, Node>

  predicate IsNullWord(e: Expr) {
    e == Ident("null")
  }

  predicate IsLiteral(e: Expr) {
    e.BoolLit? || e.StrLit? || e.IntLit? || e.FloatLit? || IsNullWord(e)
  }

  function LiteralType(e: Expr): Node
    requires IsLiteral(e)
  {
    match e
    case BoolLit(_) => Type("boolean")
    case StrLit(_) => Type("string")
    case IntLit(_) => Type("integer")
    case FloatLit(_) => Type("number")
    case Ident(_) => Type("null")
  }

  predicate IsComparison(e: Expr) {
    e.Binary? && (e.bop == Eq || e.bop == Ne) && (IsLiteral(e.right) || IsLiteral(e.left))
  }

  // What the condition compares, and the literal it compares it with.
  function Subject(e: Expr): Expr
    requires IsComparison(e)
  {
    if IsLiteral(e.right) then e.left else e.right
  }

  function Literal(e: Expr): Expr
    requires IsComparison(e)
  {
    if IsLiteral(e.right) then e.right else e.left
  }

  // The guards where the comparison comes out equal, and where it comes out different.
  function WhenEqual(e: Expr, guards: Guards): Guards {
    if IsComparison(e) && PathOf(Subject(e)) != "" then guards[PathOf(Subject(e)) := LiteralType(Literal(e))] else guards
  }

  function WhenDifferent(e: Expr, guards: Guards, subject: Result<Node>): Guards {
    if IsComparison(e) && PathOf(Subject(e)) != "" && IsNullWord(Literal(e)) && subject.Ok? then
      guards[PathOf(Subject(e)) := StripNull(subject.value)]
    else guards
  }

  function Infer(e: Expr, root: Node, guards: Guards): Result<Node>
    decreases e, 1
  {
    match e
    case IntLit(_) => Ok(Type("integer"))
    case FloatLit(_) => Ok(Type("number"))
    case StrLit(_) => Ok(Type("string"))
    case BoolLit(_) => Ok(Type("boolean"))
    case NilLit => Err("nil is not supported; use null")
    case Ident(name) =>
      if name == "null" then Ok(Type("null"))
      else if name in guards then Ok(guards[name])
      else Lookup(root, name)
    case Member(base, prop) =>
      var path := PathOf(e);
      if path != "" && path in guards then Ok(guards[path])
      else (match Infer(base, root, guards)
            case Err(m) => Err(m)
            case Ok(b) =>
              if IsNullType(b) then Ok(Type("null"))
              else (match prop
                    case StrLit(s) => Lookup(b, s)
                    case IntLit(_) => Index(b)
                    case _ => Err("computed member access")))
    case Binary(op, left, right) =>
      var l, r := Infer(left, root, guards), Infer(right, root, guards);
      if op == OtherBinary then Err("unsupported operator")
      else if l.Err? then l
      else if r.Err? then r
      else InferBinary(op, Unwrap(l.value), Unwrap(r.value))
    case Unary(op, operand) =>
      var t := Infer(operand, root, guards);
      if op == OtherUnary then Err("unsupported unary operator")
      else if t.Err? then t
      else InferUnary(op, Unwrap(t.value))
    case Cond(cond, yes, no) =>
      var c := Infer(cond, root, guards);
      if c.Err? then c
      else
        var t := Infer(yes, root, YesGuards(cond, root, guards));
        if t.Err? then t
        else
          var f := Infer(no, root, NoGuards(cond, root, guards));
          if f.Err? then f
          else Ok(Either(t.value, f.value))
    case OtherNode => Err("unsupported node type")
  }

  // narrowCondition: the guards of the two branches.
  function YesGuards(cond: Expr, root: Node, guards: Guards): Guards
    decreases cond, 2
  {
    if !IsComparison(cond) then guards
    else if cond.bop == Eq then WhenEqual(cond, guards)
    else WhenDifferent(cond, guards, Infer(Subject(cond), root, guards))
  }

  function NoGuards(cond: Expr, root: Node, guards: Guards): Guards
    decreases cond, 2
  {
    if !IsComparison(cond) then guards
    else if cond.bop == Ne then WhenEqual(cond, guards)
    else WhenDifferent(cond, guards, Infer(Subject(cond), root, guards))
  }
}
