/** isSubset on union-free nodes of one type: it says no only when some accepted value is refused. */
module SubsetExact {
  import opened Common
  import opened Schema
  import opened Subset

  // --- the nodes compared ---

  predicate Known(t: string) {
    t == "null" || t == "boolean" || t == "string" || t == "number" || t == "integer" || t == "object" || t == "array"
  }

  predicate IsNumber(t: string) {
    t == "number" || t == "integer"
  }

  predicate Whole(o: Option<real>) {
    o.Some? ==> o.value == o.value.Floor as real
  }

  // One type, and keywords of that type alone; numbers have room between their bounds, integers whole
  // bounds; objects have no defaults, arrays no counts; every value inside can be had.
  ghost predicate Sub(n: Node)
    decreases n
  {
    && |n.types| == 1 && Known(n.types[0]) && Plain(n) && n.allOf.NoVariants? && n.enums.None?
    && var t := n.types[0];
    && (!IsNumber(t) ==> n.minimum.None? && n.maximum.None?)
    && (t != "string" ==> n.minLength.None? && n.maxLength.None?)
    && (t != "object" ==> n.props.NoProps? && n.required.None?)
    && (t != "array" ==> n.items.NoItems?)
    && n.minItems.None? && n.maxItems.None?
    && (t == "number" ==> (n.minimum.Some? && n.maximum.Some? ==> n.minimum.value < n.maximum.value))
    && (t == "integer" ==> Whole(n.minimum) && Whole(n.maximum) && (n.minimum.Some? && n.maximum.Some? ==> n.minimum.value <= n.maximum.value))
    && (n.maxLength.Some? ==> 0 <= n.maxLength.value && (n.minLength.Some? ==> n.minLength.value <= n.maxLength.value))
    && (forall name :: name in PropsOf(n) ==> Sub(PropsOf(n)[name]) && !Defaulted(PropsOf(n)[name]))
    && (n.required.Some? ==> forall f :: f in n.required.value ==> f in PropsOf(n))
    && (n.items.Items? ==> Sub(n.items.of))
  }

  // What is asked of the other side: again no unions and no enumeration, and no keyword that could
  // not matter to a value of the first: a bound of another type, a length of nothing, a required key
  // that is not declared, items that may be anything.
  ghost predicate Super(sub: Node, n: Node)
    decreases n
  {
    IsEmpty(n) ||
    (&& |sub.types| == 1
     && var t := sub.types[0];
     && Plain(n) && n.allOf.NoVariants? && n.enums.None? && n.minItems.None? && n.maxItems.None?
     && (!IsNumber(t) ==> n.minimum.None? && n.maximum.None?)
     && (t != "string" ==> n.minLength.None? && n.maxLength.None?)
     && (n.minLength.Some? ==> 0 < n.minLength.value)
     && (n.required.Some? ==> t == "object" && forall f :: f in n.required.value ==> f in PropsOf(n))
     && (forall name :: name in PropsOf(n) && name in PropsOf(sub) ==> Super(PropsOf(sub)[name], PropsOf(n)[name]))
     && (n.items.Items? ==> t == "array" && (if sub.items.Items? then Super(sub.items.of, n.items.of) else Refusing(n.items.of))))
  }

  ghost predicate Refusing(n: Node) {
    exists v :: Conform(n, v).None?
  }

  // --- something of every kind ---

  function Repeat(k: nat): (s: string)
    ensures |s| == k
  {
    if k == 0 then "" else "x" + Repeat(k - 1)
  }

  function Least(n: Node): int {
    if n.minLength.Some? && n.minLength.value > 0 then n.minLength.value else 0
  }

  // A number within the bounds that is no integer.
  lemma Between(lo: Option<real>, hi: Option<real>) returns (x: real)
    requires lo.Some? && hi.Some? ==> lo.value < hi.value
    ensures (lo.Some? ==> lo.value <= x) && (hi.Some? ==> x <= hi.value) && x != x.Floor as real
  {
    var a := if lo.Some? then lo.value else if hi.Some? then hi.value - 1.0 else 0.0;
    var b := if hi.Some? then hi.value else a + 1.0;
    x := (a + b) / 2.0;
    if x == x.Floor as real {
      var y := if b - x < 0.5 then (x + b) / 2.0 else x + 0.25;
      FloorAbove(x, y);
      x := y;
    }
  }

  lemma FloorAbove(x: real, y: real)
    requires x == x.Floor as real && x < y < x + 1.0
    ensures y != y.Floor as real
  {
    var m, k := x.Floor, y.Floor;
    assert m < k ==> (m + 1) as real <= k as real;
    assert k <= m ==> k as real <= m as real;
  }

  lemma {:induction false} Inhabited(n: Node) returns (v: Value)
    requires Sub(n)
    ensures Conform(n, v).Some?
    decreases n, 1
  {
    var t := n.types[0];
    assert t in n.types;
    if t == "null" { v := Null; }
    else if t == "boolean" { v := Bool(true); }
    else if t == "string" { v := Str(Repeat(Least(n))); }
    else if t == "number" {
      var x := Between(n.minimum, n.maximum);
      v := Num(x);
    } else if t == "integer" {
      v := Num(if n.minimum.Some? then n.minimum.value else if n.maximum.Some? then n.maximum.value else 0.0);
    } else if t == "array" {
      v := Arr([]);
      assert HasType(v, t);
      assert ConformArray(n, []).Some?;
    } else {
      v := Fields(n, {});
    }
    assert HasType(v, t);
  }

  // Something of the type of every declared property but those left out.
  lemma {:induction false} Fields(n: Node, without: set<string>) returns (v: Value)
    requires Sub(n) && n.types[0] == "object"
    requires forall f :: f in without ==> !IsRequired(n, f)
    ensures v.Obj? && Conform(n, v).Some? && forall f :: f in PropsOf(n) ==> (f in v.fields <==> f !in without)
    decreases n, 0
  {
    hide Conform;
    var props := PropsOf(n);
    var todo := props.Keys - without;
    var out: map<string, Value> := map[];
    while todo != {}
      invariant todo <= props.Keys - without
      invariant out.Keys == props.Keys - without - todo
      invariant forall k :: k in out ==> Conform(props[k], out[k]).Some?
    {
      var k :| k in todo;
      var x := Inhabited(props[k]);
      out := out[k := x];
      todo := todo - {k};
    }
    v := Obj(out);
    forall name | name in props ensures !Refuses(n, out, name) { }
    FieldsAccepted(n, out);
  }

  lemma FieldsAccepted(n: Node, fields: map<string, Value>)
    requires Sub(n) && n.types[0] == "object" && forall name :: name in PropsOf(n) ==> !Refuses(n, fields, name)
    ensures Conform(n, Obj(fields)).Some?
  {
    assert HasType(Obj(fields), "object") && "object" in n.types;
    assert ConformObject(n, fields).Some?;
  }

  // --- a counterexample for every no ---

  // Accepted by the first, and what comes out refused by the second.
  predicate Escapes(sub: Node, super: Node, v: Value) {
    Conform(sub, v).Some? && Conform(super, Conform(sub, v).value).None?
  }

  lemma ScalarStays(n: Node, v: Value)
    requires Sub(n) && Scalar(v) && HasType(v, n.types[0]) && ScalarOk(n, v)
    ensures Conform(n, v) == Some(v)
  {
    assert n.types[0] in n.types;
  }

  // The only other type a value of that type can have is number, or integer if it is whole.
  lemma OtherTypes(v: Value, t: string, s: string)
    requires Known(t) && HasType(v, t) && HasType(v, s) && s != t
    ensures (t == "integer" && s == "number") || (t == "number" && s == "integer")
  {
  }

  lemma TypeEscapes(sub: Node, super: Node) returns (v: Value)
    requires Sub(sub) && Plain(super) && super.types != [] && !TypeAllowed(sub.types[0], super.types)
    ensures Escapes(sub, super, v)
  {
    var t := sub.types[0];
    assert t in sub.types;
    v := Inhabited(sub);
    if t == "number" {
      var x := Between(sub.minimum, sub.maximum);
      v := Num(x);
    }
    KeepsType(sub, v, Conform(sub, v).value);
    var w := Conform(sub, v).value;
    assert HasType(w, t);
    forall s | s in super.types ensures !HasType(w, s) {
      if HasType(w, s) { OtherTypes(w, t, s); }
    }
  }

  lemma NumberEscapes(sub: Node, super: Node) returns (v: Value)
    requires Sub(sub) && Plain(super) && IsNumber(sub.types[0])
    requires (super.minimum.Some? && !(sub.minimum.Some? && super.minimum.value <= sub.minimum.value))
             || (super.maximum.Some? && !(sub.maximum.Some? && sub.maximum.value <= super.maximum.value))
    ensures Escapes(sub, super, v)
  {
    var x: real;
    if super.minimum.Some? && !(sub.minimum.Some? && super.minimum.value <= sub.minimum.value) {
      if sub.minimum.Some? {
        x := sub.minimum.value;
      } else {
        x := (super.minimum.value.Floor - 1) as real;
        if sub.maximum.Some? && sub.maximum.value < x { x := sub.maximum.value; }
      }
    } else {
      if sub.maximum.Some? {
        x := sub.maximum.value;
      } else {
        x := (super.maximum.value.Floor + 1) as real;
        if sub.minimum.Some? && x < sub.minimum.value { x := sub.minimum.value; }
      }
    }
    v := Num(x);
    ScalarStays(sub, v);
  }

  lemma TextEscapes(sub: Node, super: Node) returns (v: Value)
    requires Sub(sub) && Plain(super) && sub.types[0] == "string" && (super.minLength.Some? ==> 0 < super.minLength.value)
    requires (super.minLength.Some? && !(sub.minLength.Some? && super.minLength.value <= sub.minLength.value))
             || (super.maxLength.Some? && !(sub.maxLength.Some? && sub.maxLength.value <= super.maxLength.value))
    ensures Escapes(sub, super, v)
  {
    var k: nat;
    if super.minLength.Some? && !(sub.minLength.Some? && super.minLength.value <= sub.minLength.value) {
      k := Least(sub);
    } else if sub.maxLength.Some? {
      k := sub.maxLength.value;
    } else {
      k := if super.maxLength.value + 1 > Least(sub) then super.maxLength.value + 1 else Least(sub);
    }
    v := Str(Repeat(k));
    ScalarStays(sub, v);
  }

  lemma RequiredEscapes(sub: Node, super: Node, f: string) returns (v: Value)
    requires Sub(sub) && Plain(super) && sub.types[0] == "object"
    requires f in PropsOf(super) && IsRequired(super, f) && !IsRequired(sub, f)
    ensures Escapes(sub, super, v)
  {
    v := Fields(sub, {f});
    var w := Conform(sub, v).value;
    ObjectOut(sub, v.fields);
    assert Refuses(super, w.fields, f);
    RefusedObject(super, w.fields, f);
  }

  // What comes out of a sub node's object: the declared fields it has, each in normal form.
  lemma ObjectOut(n: Node, fields: map<string, Value>)
    requires Sub(n) && n.types[0] == "object" && Conform(n, Obj(fields)).Some?
    ensures Conform(n, Obj(fields)).value.Obj?
    ensures forall k :: k in Conform(n, Obj(fields)).value.fields <==> k in PropsOf(n) && k in fields
    ensures forall k :: k in PropsOf(n) && k in fields ==> Conform(PropsOf(n)[k], fields[k]) == Some(Conform(n, Obj(fields)).value.fields[k])
  {
    assert Conform(n, Obj(fields)) == ConformObject(n, fields) by { assert "object" in n.types; }
    forall k | k in PropsOf(n) ensures !Refuses(n, fields, k) { }
  }

  lemma RefusedObject(n: Node, fields: map<string, Value>, name: string)
    requires Plain(n) && name in PropsOf(n) && Refuses(n, fields, name)
    ensures Conform(n, Obj(fields)).None?
  {
  }

  lemma PropertyEscapes(sub: Node, super: Node, k: string, x: Value) returns (v: Value)
    requires Sub(sub) && Plain(super) && sub.types[0] == "object" && k in PropsOf(sub) && k in PropsOf(super)
    requires Escapes(PropsOf(sub)[k], PropsOf(super)[k], x)
    ensures Escapes(sub, super, v)
  {
    var u := Fields(sub, {});
    ObjectOut(sub, u.fields);
    var fields := u.fields[k := x];
    v := Obj(fields);
    hide Conform;
    forall name | name in PropsOf(sub) ensures !Refuses(sub, fields, name) { }
    FieldsAccepted(sub, fields);
    ObjectOut(sub, fields);
    var w := Conform(sub, v).value;
    assert Refuses(super, w.fields, k);
    RefusedObject(super, w.fields, k);
  }

  lemma ItemEscapes(sub: Node, super: Node, x: Value) returns (v: Value)
    requires Sub(sub) && Plain(super) && sub.types[0] == "array" && super.items.Items?
    requires if sub.items.Items? then Escapes(sub.items.of, super.items.of, x) else Conform(super.items.of, x).None?
    ensures Escapes(sub, super, v)
  {
    v := Arr([x]);
    assert HasType(v, "array") && "array" in sub.types;
    assert Conform(sub, v) == ConformArray(sub, [x]);
    assert ConformArray(sub, [x]).Some?;
    var w := Conform(sub, v).value;
    assert |w.items| == 1 && Conform(super.items.of, w.items[0]).None?;
    assert ConformArray(super, w.items).None?;
  }

  // Whenever the test says no, some value the first schema accepts is refused by the second.
  lemma {:induction false} NoHasReason(sub: Node, super: Node) returns (v: Value)
    requires Sub(sub) && Super(sub, super) && !Check(sub, super)
    ensures Escapes(sub, super, v)
    decreases sub
  {
    hide Conform, Escapes;
    var t := sub.types[0];
    assert sub.types == [t];
    if super.types != [] && !TypeAllowed(t, super.types) {
      v := TypeEscapes(sub, super);
    } else if !RequiredKept(sub, super) {
      var f :| f in super.required.value && !IsRequired(sub, f);
      v := RequiredEscapes(sub, super, f);
    } else if k :| k in PropsOf(super) && k in PropsOf(sub) && !Check(PropsOf(sub)[k], PropsOf(super)[k]) {
      var x := NoHasReason(PropsOf(sub)[k], PropsOf(super)[k]);
      v := PropertyEscapes(sub, super, k, x);
    } else if super.items.Items? && !(sub.items.Items? && Check(sub.items.of, super.items.of)) {
      if sub.items.Items? {
        var x := NoHasReason(sub.items.of, super.items.of);
        v := ItemEscapes(sub, super, x);
      } else {
        var x :| Conform(super.items.of, x).None?;
        v := ItemEscapes(sub, super, x);
      }
    } else {
      BoundsFail(sub, super);
      if IsNumber(t) { v := NumberEscapes(sub, super); } else { v := TextEscapes(sub, super); }
    }
  }

  lemma BoundsFail(sub: Node, super: Node)
    requires Sub(sub) && Super(sub, super) && !IsEmpty(super) && !BoundsKept(sub, super)
    ensures IsNumber(sub.types[0]) || sub.types[0] == "string"
    ensures IsNumber(sub.types[0]) ==>
              (super.minimum.Some? && !(sub.minimum.Some? && super.minimum.value <= sub.minimum.value))
              || (super.maximum.Some? && !(sub.maximum.Some? && sub.maximum.value <= super.maximum.value))
    ensures sub.types[0] == "string" ==>
              (super.minLength.Some? && !(sub.minLength.Some? && super.minLength.value <= sub.minLength.value))
              || (super.maxLength.Some? && !(sub.maxLength.Some? && sub.maxLength.value <= super.maxLength.value))
  {
  }

  lemma {:induction false} SubIsOk(n: Node)
    requires Sub(n)
    ensures SubOk(n)
    decreases n
  {
    forall name | name in PropsOf(n) ensures SubOk(PropsOf(n)[name]) { SubIsOk(PropsOf(n)[name]); }
    if n.items.Items? { SubIsOk(n.items.of); }
  }

  // On such nodes the test is exact: it says yes exactly when the second schema accepts whatever comes
  // out of the first, and every no comes with a value to show for it.
  lemma SubsetExactly(sub: Node, super: Node)
    requires Normalized(sub) && Normalized(super) && Sub(sub) && Super(sub, super) && SuperOk(super)
    ensures Check(sub, super) <==> forall v :: !Escapes(sub, super, v)
  {
    hide Sub, Super, SuperOk, Normalized, Check, Conform;
    if Check(sub, super) {
      SubIsOk(sub);
      forall v ensures !Escapes(sub, super, v) {
        if Conform(sub, v).Some? { SubsetSound(sub, super, v, Conform(sub, v).value); }
      }
    } else {
      var v := NoHasReason(sub, super);
    }
  }

  // --- unions ---

  // A variant of a union is within it, and a schema within every union that has it among its variants.
  lemma {:induction false} WithinUnion(sub: Node, n: Node, b: Node)
    requires Normalized(sub) && Check(sub, b) && !IsEmpty(sub) && SolidVariants(sub)
    requires (n.anyOf.Variants? && b in n.anyOf.all) || (n.anyOf.NoVariants? && n.oneOf.Variants? && b in n.oneOf.all)
    ensures Check(sub, n)
    decreases sub
  {
    if sub.anyOf.Variants? {
      forall c | c in sub.anyOf.all ensures Check(c, n) {
        if IsEmpty(b) { assert Check(c, b); }
        WithinUnion(c, n, b);
      }
    } else if sub.oneOf.Variants? {
      forall c | c in sub.oneOf.all ensures Check(c, n) { WithinUnion(c, n, b); }
    }
  }

  // No variant accepts everything.
  predicate SolidVariants(n: Node)
    decreases n
  {
    && (n.anyOf.Variants? ==> forall b :: b in n.anyOf.all ==> !IsEmpty(b) && SolidVariants(b))
    && (n.oneOf.Variants? ==> forall b :: b in n.oneOf.all ==> !IsEmpty(b) && SolidVariants(b))
    && (forall name :: name in PropsOf(n) ==> SolidVariants(PropsOf(n)[name]))
    && (n.items.Items? ==> SolidVariants(n.items.of))
  }

  // Every schema is within itself, its order of keywords and variants whatever it is.
  lemma {:induction false} CheckReflexive(n: Node)
    requires Normalized(n) && SolidVariants(n)
    ensures Check(n, n)
    decreases n
  {
    if IsEmpty(n) {
    } else if n.anyOf.Variants? {
      forall b | b in n.anyOf.all ensures Check(b, n) {
        CheckReflexive(b);
        WithinUnion(b, n, b);
      }
    } else if n.oneOf.Variants? {
      forall b | b in n.oneOf.all ensures Check(b, n) {
        CheckReflexive(b);
        WithinUnion(b, n, b);
      }
    } else {
      if n.props.Props? {
        forall name | name in n.props.all ensures Check(n.props.all[name], n.props.all[name]) {
          assert PropsOf(n)[name] == n.props.all[name];
          CheckReflexive(n.props.all[name]);
        }
      }
      if n.items.Items? { CheckReflexive(n.items.of); }
    }
  }

  // An enumeration of scalars of one type is within another exactly when its values are.
  lemma EnumsExactly(t: string, sub: seq<Value>, super: seq<Value>)
    requires sub != [] && super != [] && forall v :: v in sub ==> HasType(v, t) && Scalar(v)
    ensures var a, b := Type(t).(enums := Some(sub)), Type(t).(enums := Some(super));
            Check(a, b) <==> forall v :: !Escapes(a, b, v)
  {
    var a, b := Type(t).(enums := Some(sub)), Type(t).(enums := Some(super));
    assert t in a.types && t in b.types;
    if Check(a, b) {
      forall v ensures !Escapes(a, b, v) { }
    } else {
      var v :| v in sub && v !in super;
      assert Escapes(a, b, v);
    }
  }
}
