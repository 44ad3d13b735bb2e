/**
 conform as it is coded: the object, array and union loops, each proved to compute what
 Schema.Conform says. Properties are visited in an arbitrary order, as Go visits a map; the
 result does not depend on it. A union by oneOf counts its matches, one by anyOf stops at the
 first, and a refusal anywhere inside refuses the whole value.
 */
module Validator {
  import opened Common
  import opened Schema

  method ConformNode(n: Node, v: Value) returns (r: Option<Value>)
    ensures r == Conform(n, v)
    decreases n, 2
  {
    if IsEmpty(n) { return Some(v); }
    if n.anyOf.Variants? && n.anyOf.all != [] {
      r := ConformUnion(n, n.anyOf.all, v, false);
      return;
    }
    if n.oneOf.Variants? && n.oneOf.all != [] {
      r := ConformUnion(n, n.oneOf.all, v, true);
      return;
    }
    if !TypeOk(n, v) || !EnumOk(n, v) { return None; }
    match v {
      case Null => return Some(Null);
      case Obj(fields) =>
        if IsObjectSchema(n) { r := ConformFields(n, fields); } else { r := Some(v); }
      case Arr(items) =>
        if n.items.Items? || "array" in n.types { r := ConformItems(n, items); } else { r := Some(v); }
      case _ =>
        if ScalarOk(n, v) { return Some(v); }
        return None;
    }
  }

  // Every declared property once, in any order.
  method ConformFields(n: Node, fields: map<string, Value>) returns (r: Option<Value>)
    ensures r == ConformObject(n, fields)
    decreases n, 1
  {
    var props := PropsOf(n);
    var out: map<string, Value> := map[];
    var todo := props.Keys;
    while todo != {}
      invariant todo <= props.Keys
      invariant forall name :: name in props && name !in todo ==> !Refuses(n, fields, name)
      invariant forall name :: name in out <==> name in props && name !in todo && (name in fields || Defaulted(props[name]))
      invariant forall name :: name in out ==>
        out[name] == if name in fields then Conform(props[name], fields[name]).value else props[name].default.value
      decreases |todo|
    {
      var name :| name in todo;
      todo := todo - {name};
      if name !in fields {
        if IsRequired(n, name) {
          assert Refuses(n, fields, name);
          return None;
        }
        if Defaulted(props[name]) { out := out[name := props[name].default.value]; }
      } else {
        var norm := ConformNode(props[name], fields[name]);
        if norm.None? {
          assert Refuses(n, fields, name);
          return None;
        }
        out := out[name := norm.value];
      }
    }
    r := Some(Obj(out));
    assert ConformObject(n, fields).Some?;
    assert ConformObject(n, fields).value.fields == out;
  }

  method ConformItems(n: Node, items: seq<Value>) returns (r: Option<Value>)
    ensures r == ConformArray(n, items)
    decreases n, 1
  {
    if n.minItems.Some? && |items| < n.minItems.value { return None; }
    if n.maxItems.Some? && |items| > n.maxItems.value { return None; }
    var out: seq<Value> := [];
    for i := 0 to |items|
      invariant |out| == i
      invariant n.items.NoItems? ==> out == items[..i]
      invariant n.items.Items? ==> forall k :: 0 <= k < i ==> Conform(n.items.of, items[k]) == Some(out[k])
    {
      var norm := Some(items[i]);
      if n.items.Items? { norm := ConformNode(n.items.of, items[i]); }
      if norm.None? {
        assert n.items.Items? && Conform(n.items.of, items[i]).None?;
        return None;
      }
      out := out + [norm.value];
    }
    r := Some(Arr(out));
    assert items[..|items|] == items;
    if n.items.Items? {
      assert ConformArray(n, items).Some?;
      assert ConformArray(n, items).value.items == out;
    }
  }

  // anyOf returns the first branch that accepts; oneOf counts them all.
  method ConformUnion(n: Node, branches: seq<Node>, v: Value, exactlyOne: bool) returns (r: Option<Value>)
    requires Inside(n, branches)
    ensures r == if exactlyOne then OnlyMatch(n, branches, v) else FirstMatch(n, branches, v)
    decreases n, 1
  {
    var found: Option<Value> := None;
    var matches := 0;
    for i := 0 to |branches|
      invariant Inside(n, branches[i..])
      invariant matches + Matches(n, branches[i..], v) == Matches(n, branches, v)
      invariant matches == 0 ==> FirstMatch(n, branches[i..], v) == FirstMatch(n, branches, v)
      invariant matches == 1 ==> found.Some? && found == FirstMatch(n, branches, v)
      invariant !exactlyOne ==> matches == 0
    {
      TailInside(n, branches[i..]);
      assert branches[i..][0] == branches[i] && branches[i..][1..] == branches[i + 1..];
      var res := ConformNode(branches[i], v);
      if res.Some? {
        if !exactlyOne { return res; }
        found := res;
        matches := matches + 1;
      }
    }
    if matches == 0 { return None; }
    if matches > 1 { return None; }
    r := found;
  }
}
