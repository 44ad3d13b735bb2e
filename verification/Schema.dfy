/**
 Schema nodes without references, the validator that also normalises (conform), and the
 subset test between two nodes.
 */
module Schema {
  import opened Common

  // JSON numbers are one kind of value here: 1 and 1.0 are equal.
  datatype Value = Null | Bool(b: bool) | Num(r: real) | Str(s: string) | Arr(items: seq<Value>) | Obj(fields: map<string, Value>)

  datatype Properties = NoProps | Props(all: map<string, Node>)

  datatype Variants = NoVariants | Variants(all: seq<Node>)

  datatype Items = NoItems | Items(of: Node)

  // None stands for an absent keyword, as do NoProps, NoVariants and NoItems.
  datatype Node = Node(
    types: seq<string>,
    props: Properties,
    required: Option<seq<string>>,
    items: Items,
    oneOf: Variants,
    anyOf: Variants,
    allOf: Variants,
    enums: Option<seq<Value>>,
    minimum: Option<real>,
    maximum: Option<real>,
    minLength: Option<int>,
    maxLength: Option<int>,
    minItems: Option<int>,
    maxItems: Option<int>,
    default: Option<Value>
  )

  const EMPTY: Node := Node([], NoProps, None, NoItems, NoVariants, NoVariants, NoVariants, None, None, None, None, None, None, None, None)

  function Type(t: string): Node {
    EMPTY.(types := [t])
  }

  predicate IsEmpty(n: Node) {
    n.(default := None) == EMPTY
  }

  // --- normalised documents ---

  // What a schema is after parsing and normalising it: allOf is no keyword, and an empty list, an
  // empty property map or a null default does not survive the trip through JSON.
  predicate Normalized(n: Node)
    decreases n
  {
    && n.allOf.NoVariants?
    && n.required != Some([]) && n.enums != Some([]) && n.default != Some(Null)
    && (n.props.Props? ==> n.props.all != map[] && forall name :: name in n.props.all ==> Normalized(n.props.all[name]))
    && (n.items.Items? ==> Normalized(n.items.of))
    && (n.oneOf.Variants? ==> n.oneOf.all != [] && forall b :: b in n.oneOf.all ==> Normalized(b))
    && (n.anyOf.Variants? ==> n.anyOf.all != [] && forall b :: b in n.anyOf.all ==> Normalized(b))
  }

  // --- conform ---

  predicate HasType(v: Value, t: string) {
    match t
    case "null" => v.Null?
    case "boolean" => v.Bool?
    case "string" => v.Str?
    case "object" => v.Obj?
    case "array" => v.Arr?
    case "number" => v.Num?
    case "integer" => v.Num? && v.r == v.r.Floor as real
    case _ => false
  }

  predicate TypeOk(n: Node, v: Value) {
    n.types == [] || exists t :: t in n.types && HasType(v, t)
  }

  predicate EnumOk(n: Node, v: Value) {
    n.enums.None? || n.enums.value == [] || v in n.enums.value
  }

  predicate ScalarOk(n: Node, v: Value) {
    match v
    case Num(r) => (n.minimum.Some? ==> n.minimum.value <= r) && (n.maximum.Some? ==> r <= n.maximum.value)
    case Str(s) => (n.minLength.Some? ==> n.minLength.value <= |s|) && (n.maxLength.Some? ==> |s| <= n.maxLength.value)
    case _ => true
  }

  predicate IsObjectSchema(n: Node) {
    "object" in n.types || n.props.Props? || n.required.Some?
  }

  predicate IsRequired(n: Node, name: string) {
    n.required.Some? && name in n.required.value
  }

  // The normal form of v, or None when v is refused. Combinators come first and hide the
  // other keywords; allOf is not looked at.
  function Conform(n: Node, v: Value): Option<Value>
    decreases n, 2
  {
    if IsEmpty(n) then Some(v)
    else if n.anyOf.Variants? && n.anyOf.all != [] then FirstMatch(n, n.anyOf.all, v)
    else if n.oneOf.Variants? && n.oneOf.all != [] then OnlyMatch(n, n.oneOf.all, v)
    else if !TypeOk(n, v) || !EnumOk(n, v) then None
    else match v
      case Null => Some(Null)
      case Obj(fields) => if IsObjectSchema(n) then ConformObject(n, fields) else Some(v)
      case Arr(items) => if n.items.Items? || "array" in n.types then ConformArray(n, items) else Some(v)
      case _ => if ScalarOk(n, v) then Some(v) else None
  }

  ghost predicate Inside(n: Node, vs: seq<Node>) {
    forall b :: b in vs ==> b < n
  }

  lemma TailInside(n: Node, vs: seq<Node>)
    requires Inside(n, vs) && vs != []
    ensures vs[0] < n && Inside(n, vs[1..])
  {
    assert vs[0] in vs;
    forall b | b in vs[1..] ensures b < n { assert b in vs; }
  }

  function FirstMatch(n: Node, vs: seq<Node>, v: Value): Option<Value>
    requires Inside(n, vs)
    decreases n, 0, |vs|
  {
    if vs == [] then None
    else
      TailInside(n, vs);
      var r := Conform(vs[0], v);
      if r.Some? then r else FirstMatch(n, vs[1..], v)
  }

  function Matches(n: Node, vs: seq<Node>, v: Value): nat
    requires Inside(n, vs)
    decreases n, 0, |vs|
  {
    if vs == [] then 0
    else
      TailInside(n, vs);
      (if Conform(vs[0], v).Some? then 1 else 0) + Matches(n, vs[1..], v)
  }

  function OnlyMatch(n: Node, vs: seq<Node>, v: Value): Option<Value>
    requires Inside(n, vs)
    decreases n, 1
  {
    if Matches(n, vs, v) == 1 then FirstMatch(n, vs, v) else None
  }

  function PropsOf(n: Node): (m: map<string, Node>)
    ensures forall name :: name in m ==> m[name] < n
  {
    if n.props.Props? then n.props.all else map[]
  }

  // A default of null is no default.
  predicate Defaulted(n: Node) {
    n.default.Some? && n.default.value != Null
  }

  // A declared property refuses the object: its value does not conform, or it is required
  // and absent.
  predicate Refuses(n: Node, fields: map<string, Value>, name: string)
    requires name in PropsOf(n)
    decreases n, 0
  {
    if name in fields then Conform(PropsOf(n)[name], fields[name]).None? else IsRequired(n, name)
  }

  function ConformObject(n: Node, fields: map<string, Value>): Option<Value>
    decreases n, 1
  {
    var props := PropsOf(n);
    if exists name :: name in props && Refuses(n, fields, name) then None
    else Some(Obj(map name | name in props && (name in fields || Defaulted(props[name])) ::
      if name in fields then Conform(props[name], fields[name]).value else props[name].default.value))
  }

  function ConformArray(n: Node, items: seq<Value>): Option<Value>
    decreases n, 1
  {
    if (n.minItems.Some? && |items| < n.minItems.value) || (n.maxItems.Some? && n.maxItems.value < |items|) then None
    else if n.items.NoItems? then Some(Arr(items))
    else if exists i :: 0 <= i < |items| && Conform(n.items.of, items[i]).None? then None
    else Some(Arr(seq(|items|, i requires 0 <= i < |items| => Conform(n.items.of, items[i]).value)))
  }
}
