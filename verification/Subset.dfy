/** isSubset on reference-free nodes: when it can be trusted, and inputs on which it cannot. */
module Subset {
  import opened Common
  import opened Schema

  predicate TypeAllowed(t: string, types: seq<string>) {
    t in types || (t == "integer" && "number" in types)
  }

  predicate RequiredKept(sub: Node, super: Node) {
    super.required.Some? ==> forall f :: f in super.required.value ==> IsRequired(sub, f)
  }

  predicate BoundsKept(sub: Node, super: Node) {
    && (super.minimum.Some? ==> sub.minimum.Some? && super.minimum.value <= sub.minimum.value)
    && (super.maximum.Some? ==> sub.maximum.Some? && sub.maximum.value <= super.maximum.value)
    && (super.minLength.Some? ==> sub.minLength.Some? && super.minLength.value <= sub.minLength.value)
    && (super.maxLength.Some? ==> sub.maxLength.Some? && sub.maxLength.value <= super.maxLength.value)
  }

  predicate EnumKept(sub: Node, super: Node) {
    super.enums.Some? ==> sub.enums.Some? && forall v :: v in sub.enums.value ==> v in super.enums.value
  }

  predicate Check(sub: Node, super: Node)
    decreases sub, super
  {
    if IsEmpty(super) then true
    else if IsEmpty(sub) then false
    else if sub.anyOf.Variants? then forall b :: b in sub.anyOf.all ==> Check(b, super)
    else if sub.oneOf.Variants? then forall b :: b in sub.oneOf.all ==> Check(b, super)
    else if sub.allOf.Variants? && sub.allOf.all != [] then exists b :: b in sub.allOf.all && Check(b, super)
    else if super.anyOf.Variants? then exists b :: b in super.anyOf.all && Check(sub, b)
    else if super.oneOf.Variants? then exists b :: b in super.oneOf.all && Check(sub, b)
    else if super.allOf.Variants? && super.allOf.all != [] then forall b :: b in super.allOf.all ==> Check(sub, b)
    else
      && (super.types != [] ==> sub.types != [] && forall t :: t in sub.types ==> TypeAllowed(t, super.types))
      && RequiredKept(sub, super)
      && (super.props.Props? && sub.props.Props? ==>
            forall name :: name in super.props.all && name in sub.props.all ==> Check(sub.props.all[name], super.props.all[name]))
      && (super.items.Items? ==> sub.items.Items? && Check(sub.items.of, super.items.of))
      && BoundsKept(sub, super)
      && EnumKept(sub, super)
  }

  // --- where it can be trusted ---

  predicate Scalar(v: Value) {
    !v.Arr? && !v.Obj?
  }

  // A default is already a normal form of its own node.
  predicate DefaultFits(n: Node) {
    Defaulted(n) ==> Conform(n, n.default.value) == n.default
  }

  // The sub side: plain nodes name their types, enums list scalars, what is required is declared,
  // and defaults fit.
  predicate SubOk(n: Node)
    decreases n
  {
    IsEmpty(n) ||
    if n.anyOf.Variants? then forall b :: b in n.anyOf.all ==> SubOk(b)
    else if n.oneOf.Variants? then forall b :: b in n.oneOf.all ==> SubOk(b)
    else
      && n.types != []
      && (n.enums.Some? ==> forall v :: v in n.enums.value ==> Scalar(v))
      && (forall name :: name in PropsOf(n) ==> SubOk(PropsOf(n)[name]) && DefaultFits(PropsOf(n)[name]))
      && (n.required.Some? ==> forall f :: f in n.required.value ==> f in PropsOf(n))
      && (n.items.Items? ==> SubOk(n.items.of))
  }

  ghost predicate Exclusive(n: Node, vs: seq<Node>)
    requires Inside(n, vs)
  {
    forall v :: Matches(n, vs, v) <= 1
  }

  // The super side: no item counts, and oneOf variants exclude each other.
  ghost predicate SuperOk(n: Node)
    decreases n
  {
    IsEmpty(n) ||
    if n.anyOf.Variants? then forall b :: b in n.anyOf.all ==> SuperOk(b)
    else if n.oneOf.Variants? then Exclusive(n, n.oneOf.all) && forall b :: b in n.oneOf.all ==> SuperOk(b)
    else
      && n.minItems.None? && n.maxItems.None?
      && (forall name :: name in PropsOf(n) ==> SuperOk(PropsOf(n)[name]))
      && (n.items.Items? ==> SuperOk(n.items.of))
  }

  // --- unions ---

  lemma {:induction false} FirstMatchIs(n: Node, vs: seq<Node>, v: Value) returns (b: Node)
    requires Inside(n, vs) && FirstMatch(n, vs, v).Some?
    ensures b in vs && Conform(b, v) == FirstMatch(n, vs, v)
    decreases |vs|
  {
    TailInside(n, vs);
    if Conform(vs[0], v).Some? {
      b := vs[0];
    } else {
      b := FirstMatchIs(n, vs[1..], v);
    }
  }

  lemma {:induction false} SomeMatch(n: Node, vs: seq<Node>, b: Node, v: Value)
    requires Inside(n, vs) && b in vs && Conform(b, v).Some?
    ensures FirstMatch(n, vs, v).Some? && Matches(n, vs, v) >= 1
    decreases |vs|
  {
    TailInside(n, vs);
    if Conform(vs[0], v).None? {
      assert b in vs[1..];
      SomeMatch(n, vs[1..], b, v);
    }
  }

  // --- plain nodes ---

  predicate Plain(n: Node) {
    !IsEmpty(n) && n.anyOf.NoVariants? && n.oneOf.NoVariants?
  }

  // Normalising keeps the JSON type, and scalars altogether.
  lemma KeepsType(n: Node, v: Value, w: Value)
    requires Plain(n) && Conform(n, v) == Some(w)
    ensures forall t :: HasType(v, t) ==> HasType(w, t)
    ensures Scalar(v) ==> w == v
    ensures TypeOk(n, v) && EnumOk(n, v) && (Scalar(v) && !v.Null? ==> ScalarOk(n, v))
    ensures v.Obj? == w.Obj? && v.Arr? == w.Arr?
  {
  }

  lemma TypesKept(sub: Node, super: Node, v: Value, w: Value)
    requires Normalized(sub) && Normalized(super) && Plain(sub) && SubOk(sub) && Plain(super) && Check(sub, super) && Conform(sub, v) == Some(w)
    ensures TypeOk(super, w)
  {
    KeepsType(sub, v, w);
    if super.types != [] {
      var t :| t in sub.types && HasType(v, t);
      assert TypeAllowed(t, super.types);
      assert HasType(w, t);
      if t !in super.types { assert HasType(w, "number"); }
    }
  }

  lemma EnumsKept(sub: Node, super: Node, v: Value, w: Value)
    requires Normalized(sub) && Normalized(super) && Plain(sub) && SubOk(sub) && Plain(super) && Check(sub, super) && Conform(sub, v) == Some(w)
    ensures EnumOk(super, w)
  {
    KeepsType(sub, v, w);
    if super.enums.Some? {
      assert v in sub.enums.value;
      assert Scalar(v);
    }
  }

  // --- the theorem ---

  // Whatever a trusted sub schema lets through, the super schema accepts.
  lemma {:induction false} SubsetSound(sub: Node, super: Node, v: Value, w: Value)
    requires Normalized(sub) && Normalized(super)
    requires SubOk(sub) && SuperOk(super) && Check(sub, super) && Conform(sub, v) == Some(w)
    ensures Conform(super, w).Some?
    decreases sub, super, 2
  {
    if IsEmpty(super) {
    } else if sub.anyOf.Variants? {
      var b := FirstMatchIs(sub, sub.anyOf.all, v);
      SubsetSound(b, super, v, w);
    } else if sub.oneOf.Variants? {
      var b := FirstMatchIs(sub, sub.oneOf.all, v);
      SubsetSound(b, super, v, w);
    } else if super.anyOf.Variants? {
      var b :| b in super.anyOf.all && Check(sub, b);
      SubsetSound(sub, b, v, w);
      SomeMatch(super, super.anyOf.all, b, w);
    } else if super.oneOf.Variants? {
      var b :| b in super.oneOf.all && Check(sub, b);
      SubsetSound(sub, b, v, w);
      SomeMatch(super, super.oneOf.all, b, w);
      assert Matches(super, super.oneOf.all, w) <= 1;
    } else {
      PlainSound(sub, super, v, w);
    }
  }

  lemma {:induction false} PlainSound(sub: Node, super: Node, v: Value, w: Value)
    requires Plain(sub) && Plain(super)
    requires Normalized(sub) && Normalized(super)
    requires SubOk(sub) && SuperOk(super) && Check(sub, super) && Conform(sub, v) == Some(w)
    ensures Conform(super, w).Some?
    decreases sub, super, 1
  {
    KeepsType(sub, v, w);
    TypesKept(sub, super, v, w);
    EnumsKept(sub, super, v, w);
    if v.Obj? {
      var t :| t in sub.types && HasType(v, t);
      assert "object" in sub.types;
      forall name | name in PropsOf(super) ensures !Refuses(super, w.fields, name) {
        PropertySound(sub, super, v.fields, w.fields, name);
      }
    } else if v.Arr? {
      var t :| t in sub.types && HasType(v, t);
      assert "array" in sub.types;
      if super.items.Items? {
        forall i | 0 <= i < |w.items| ensures Conform(super.items.of, w.items[i]).Some? {
          SubsetSound(sub.items.of, super.items.of, v.items[i], w.items[i]);
        }
      }
    }
  }

  lemma {:induction false} PropertySound(sub: Node, super: Node, f: map<string, Value>, g: map<string, Value>, name: string)
    requires Normalized(sub) && Normalized(super) && Plain(sub) && Plain(super) && "object" in sub.types
    requires SubOk(sub) && SuperOk(super) && Check(sub, super) && ConformObject(sub, f) == Some(Obj(g))
    requires name in PropsOf(super)
    ensures !Refuses(super, g, name)
    decreases sub, super, 0
  {
    assert IsRequired(super, name) ==> IsRequired(sub, name) && name in PropsOf(sub);
    assert name in PropsOf(sub) ==> !Refuses(sub, f, name);
    if name in g {
      assert name in PropsOf(sub);
      var p := PropsOf(sub)[name];
      SubsetSound(p, PropsOf(super)[name], if name in f then f[name] else p.default.value, g[name]);
    }
  }

  // --- oneOf: types that do not meet ---

  predicate MeetTypes(s: string, t: string) {
    s == t || (s == "integer" && t == "number") || (s == "number" && t == "integer")
  }

  predicate TypesApart(a: Node, b: Node) {
    forall s, t :: s in a.types && t in b.types ==> !MeetTypes(s, t)
  }

  // The nullable wrapper {oneOf: [X, {type: null}]} and unions by type are of this kind.
  predicate TypedApart(vs: seq<Node>) {
    && (forall b :: b in vs ==> Plain(b) && b.types != [])
    && (forall i, j :: 0 <= i < j < |vs| ==> TypesApart(vs[i], vs[j]))
  }

  lemma OneTypeOnly(a: Node, b: Node, v: Value)
    requires Plain(a) && Plain(b) && a.types != [] && b.types != [] && TypesApart(a, b)
    ensures Conform(a, v).None? || Conform(b, v).None?
  {
    if TypeOk(a, v) && TypeOk(b, v) {
      var s :| s in a.types && HasType(v, s);
      var t :| t in b.types && HasType(v, t);
      assert MeetTypes(s, t);
    }
  }

  lemma {:induction false} NoMatch(n: Node, vs: seq<Node>, v: Value)
    requires Inside(n, vs) && forall b :: b in vs ==> Conform(b, v).None?
    ensures Matches(n, vs, v) == 0
    decreases |vs|
  {
    if vs != [] {
      TailInside(n, vs);
      assert vs[0] in vs;
      forall b | b in vs[1..] ensures Conform(b, v).None? { assert b in vs; }
      NoMatch(n, vs[1..], v);
    }
  }

  lemma {:induction false} ApartMatches(n: Node, vs: seq<Node>, v: Value)
    requires Inside(n, vs) && TypedApart(vs)
    ensures Matches(n, vs, v) <= 1
    decreases |vs|
  {
    if vs != [] {
      TailInside(n, vs);
      if Conform(vs[0], v).Some? {
        forall b | b in vs[1..] ensures Conform(b, v).None? {
          var i :| 0 <= i < |vs[1..]| && vs[1..][i] == b;
          assert vs[0] in vs && vs[i + 1] in vs;
          OneTypeOnly(vs[0], vs[i + 1], v);
        }
        NoMatch(n, vs[1..], v);
      } else {
        assert TypedApart(vs[1..]) by {
          forall b | b in vs[1..] ensures Plain(b) && b.types != [] { assert b in vs; }
          assert forall i :: 0 <= i < |vs[1..]| ==> vs[1..][i] == vs[i + 1];
        }
        ApartMatches(n, vs[1..], v);
      }
    }
  }

  lemma ApartIsExclusive(n: Node)
    requires n.oneOf.Variants? && TypedApart(n.oneOf.all)
    ensures Exclusive(n, n.oneOf.all)
  {
    forall v ensures Matches(n, n.oneOf.all, v) <= 1 { ApartMatches(n, n.oneOf.all, v); }
  }

  // --- none of the conditions can be dropped ---

  // Normalised schemas: check says yes, the sub schema lets v through, and the super schema refuses
  // the result.
  predicate Breaks(sub: Node, super: Node, v: Value) {
    && Normalized(sub) && Normalized(super)
    && Check(sub, super)
    && Conform(sub, v).Some?
    && Conform(super, Conform(sub, v).value).None?
  }

  function OneField(name: string, v: Value): Value {
    Obj(map[name := v])
  }

  function OneProp(name: string, p: Node): Node {
    EMPTY.(types := ["object"], props := Props(map[name := p]))
  }

  // Item counts are never compared; and integer is within number, so one integer matches both
  // variants of a oneOf that check takes for an anyOf.
  lemma SuperSideNeeded()
    ensures Breaks(Type("array"), Type("array").(minItems := Some(1)), Arr([]))
    ensures Breaks(Type("integer"), EMPTY.(oneOf := Variants([Type("number"), Type("integer")])), Num(1.0))
  {
    hide Breaks;
    assert Breaks(Type("array"), Type("array").(minItems := Some(1)), Arr([])) by { FewItems(); }
    assert Breaks(Type("integer"), EMPTY.(oneOf := Variants([Type("number"), Type("integer")])), Num(1.0)) by { TwoMatches(); }
  }

  lemma FewItems()
    ensures Breaks(Type("array"), Type("array").(minItems := Some(1)), Arr([]))
  {
    assert "array" in Type("array").types && HasType(Arr([]), "array");
  }

  lemma TwoMatches()
    ensures Breaks(Type("integer"), EMPTY.(oneOf := Variants([Type("number"), Type("integer")])), Num(1.0))
  {
    var vs := [Type("number"), Type("integer")];
    var super := EMPTY.(oneOf := Variants(vs));
    assert Type("integer") in vs && Check(Type("integer"), Type("integer"));
    assert "integer" in Type("integer").types && "number" in Type("number").types;
    assert HasType(Num(1.0), "integer") && HasType(Num(1.0), "number");
    assert vs[1..] == [Type("integer")];
    assert Conform(vs[0], Num(1.0)).Some? && Conform(vs[1], Num(1.0)).Some?;
    TailInside(super, vs);
    TailInside(super, vs[1..]);
    assert Matches(super, vs, Num(1.0)) == 2;
  }

  // An untyped sub node passes objects through unpruned.
  lemma UntypedSub()
    ensures Breaks(EMPTY.(minimum := Some(0.0)), EMPTY.(props := Props(map["a" := Type("integer")])), OneField("a", Null))
  {
    var super := EMPTY.(props := Props(map["a" := Type("integer")]));
    assert "a" in PropsOf(super) && Refuses(super, map["a" := Null], "a");
  }

  lemma OnePropNormalized(name: string, p: Node)
    requires p == Type("integer").(default := p.default) && p.default != Some(Null)
    ensures Normalized(OneProp(name, p))
  {
    assert Normalized(p);
    assert name in OneProp(name, p).props.all;
  }

  lemma RequiredUndeclared()
    ensures Breaks(Type("object").(required := Some(["a"])), OneProp("a", Type("integer")).(required := Some(["a"])), Obj(map[]))
  {
    var sub, super := Type("object").(required := Some(["a"])), OneProp("a", Type("integer")).(required := Some(["a"]));
    assert "object" in sub.types && HasType(Obj(map[]), "object");
    assert ConformObject(sub, map[]) == Some(Obj(map[]));
    assert "a" in PropsOf(super) && Refuses(super, map[], "a");
    assert "object" in super.types;
  }

  lemma DefaultUnchecked()
    ensures Breaks(OneProp("a", Type("integer").(default := Some(Str("x")))), OneProp("a", Type("integer")), Obj(map[]))
  {
    hide Normalized;
    var sub, super := OneProp("a", Type("integer").(default := Some(Str("x")))), OneProp("a", Type("integer"));
    assert Normalized(sub) && Normalized(super) by { OnePropNormalized("a", PropsOf(sub)["a"]); OnePropNormalized("a", PropsOf(super)["a"]); }
    assert "object" in sub.types && HasType(Obj(map[]), "object");
    assert "a" in PropsOf(sub) && PropsOf(sub)["a"].default == Some(Str("x"));
    var r := ConformObject(sub, map[]);
    assert r.Some? && r.value.fields == map["a" := Str("x")];
    assert "a" in PropsOf(super) && Refuses(super, map["a" := Str("x")], "a");
    assert "object" in super.types;
    assert Check(PropsOf(sub)["a"], PropsOf(super)["a"]);
  }

  // The enum is tested before pruning, so the pruned object need not be listed.
  lemma ObjectEnum()
    ensures var e := OneField("a", Null);
      Breaks(Type("object").(enums := Some([e])), EMPTY.(enums := Some([e])), e)
  {
    var e := OneField("a", Null);
    var sub, super := Type("object").(enums := Some([e])), EMPTY.(enums := Some([e]));
    assert "object" in sub.types && HasType(e, "object") && e in sub.enums.value;
    assert ConformObject(sub, e.fields) == Some(Obj(map[]));
    assert Obj(map[]) != e by { assert "a" in e.fields; }
  }
}
