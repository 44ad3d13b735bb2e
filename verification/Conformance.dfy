/** What validation accepts and what it makes of it, said keyword by keyword. */
module Conformance {
  import opened Common
  import opened Schema

  ghost predicate Is(v: Value, t: string) {
    || (t == "null" && v == Null)
    || (t == "boolean" && v.Bool?)
    || (t == "string" && v.Str?)
    || (t == "object" && v.Obj?)
    || (t == "array" && v.Arr?)
    || (t == "number" && v.Num?)
    || (t == "integer" && v.Num? && exists k: int :: v.r == Whole(k))
  }

  function Whole(k: int): real {
    k as real
  }

  // Absent bounds admit everything.
  predicate WithinReals(lo: Option<real>, x: real, hi: Option<real>) {
    (lo == None || lo.value <= x) && (hi == None || x <= hi.value)
  }

  predicate WithinInts(lo: Option<int>, x: int, hi: Option<int>) {
    (lo == None || lo.value <= x) && (hi == None || x <= hi.value)
  }

  // The value itself, whatever is inside it: of one of the types, one of the enumerated values,
  // within the bounds of its kind. Items are counted where arrays are expected.
  ghost predicate Admits(n: Node, v: Value) {
    && (n.types == [] || exists t :: t in n.types && Is(v, t))
    && (n.enums == None || n.enums == Some([]) || v in n.enums.value)
    && (v.Num? ==> WithinReals(n.minimum, v.r, n.maximum))
    && (v.Str? ==> WithinInts(n.minLength, |v.s|, n.maxLength))
    && (v.Arr? && (n.items != NoItems || "array" in n.types) ==> WithinInts(n.minItems, |v.items|, n.maxItems))
  }

  predicate Says(u: Variants) {
    u != NoVariants && u != Variants([])
  }

  predicate PrunesObjects(n: Node) {
    "object" in n.types || n.props != NoProps || n.required != None
  }

  predicate Demands(n: Node, name: string) {
    n.required != None && name in n.required.value
  }

  // What an absent property is filled with.
  function Filling(prop: Node): Option<Value> {
    if prop.default == Some(Null) then None else prop.default
  }

  // w is what validation makes of v: nothing is changed but inside objects, which lose what is not
  // declared, keep the normal form of what is there, and gain the defaults of what is not. Under a
  // union it is what the first variant with a normal form makes of v, under an exclusive one what
  // the only such variant does.
  ghost predicate NormalForm(n: Node, v: Value, w: Value)
    decreases n, 1
  {
    if n == EMPTY.(default := n.default) then w == v
    else if Says(n.anyOf) then
      exists i :: 0 <= i < |n.anyOf.all| && NormalForm(n.anyOf.all[i], v, w) && forall j :: 0 <= j < i ==> HasNone(n.anyOf.all[j], v)
    else if Says(n.oneOf) then
      exists i :: 0 <= i < |n.oneOf.all| && NormalForm(n.oneOf.all[i], v, w) && forall j :: 0 <= j < |n.oneOf.all| && j != i ==> HasNone(n.oneOf.all[j], v)
    else
      Admits(n, v) &&
      match v
      case Obj(fields) => if PrunesObjects(n) then w.Obj? && FieldsNormal(n, fields, w.fields) else w == v
      case Arr(items) =>
        if n.items == NoItems then w == v
        else w.Arr? && |w.items| == |items| && forall i :: 0 <= i < |items| ==> NormalForm(n.items.of, items[i], w.items[i])
      case _ => w == v
  }

  ghost predicate HasNone(n: Node, v: Value)
    decreases n, 2
  {
    forall w :: !NormalForm(n, v, w)
  }

  ghost predicate FieldsNormal(n: Node, fields: map<string, Value>, out: map<string, Value>)
    decreases n, 0
  {
    && (forall name :: name in out ==> name in PropsOf(n))
    && forall name :: name in PropsOf(n) ==>
         if name in fields then name in out && NormalForm(PropsOf(n)[name], fields[name], out[name])
         else !Demands(n, name) && (if name in out then Filling(PropsOf(n)[name]) == Some(out[name]) else Filling(PropsOf(n)[name]) == None)
  }

  // --- validation computes exactly that ---

  lemma AdmitsIs(n: Node, v: Value)
    ensures TypeOk(n, v) <==> (n.types == [] || exists t :: t in n.types && Is(v, t))
    ensures EnumOk(n, v) <==> (n.enums == None || n.enums == Some([]) || v in n.enums.value)
    ensures !v.Arr? ==> (Admits(n, v) <==> TypeOk(n, v) && EnumOk(n, v) && ScalarOk(n, v))
  {
    forall t ensures HasType(v, t) <==> Is(v, t) {
      if v.Num? && v.r == v.r.Floor as real { assert v.r == Whole(v.r.Floor); }
    }
  }

  // What is to be shown of the nodes inside n.
  ghost predicate Agrees(n: Node, v: Value) {
    forall w :: Conform(n, v) == Some(w) <==> NormalForm(n, v, w)
  }

  lemma AgreesAt(n: Node, v: Value, w: Value)
    requires Agrees(n, v)
    ensures Conform(n, v) == Some(w) <==> NormalForm(n, v, w)
    ensures Conform(n, v).None? <==> HasNone(n, v)
  {
    if Conform(n, v).Some? { assert NormalForm(n, v, Conform(n, v).value); }
  }

  ghost predicate Leads(vs: seq<Node>, v: Value, w: Value, i: nat) {
    i < |vs| && NormalForm(vs[i], v, w) && forall j :: 0 <= j < i ==> HasNone(vs[j], v)
  }

  lemma LeadShifted(vs: seq<Node>, v: Value, w: Value)
    requires vs != []
    ensures HasNone(vs[0], v) ==> forall i: nat :: Leads(vs[1..], v, w, i) <==> Leads(vs, v, w, i + 1)
    ensures forall i: nat :: Leads(vs, v, w, i) && i > 0 ==> HasNone(vs[0], v)
    ensures Leads(vs, v, w, 0) <==> NormalForm(vs[0], v, w)
  {
    hide NormalForm, HasNone;
    var rest := vs[1..];
    if HasNone(vs[0], v) {
      forall i: nat ensures Leads(rest, v, w, i) <==> Leads(vs, v, w, i + 1) {
        if Leads(rest, v, w, i) {
          forall j | 0 <= j < i + 1 ensures HasNone(vs[j], v) { if j > 0 { assert vs[j] == rest[j - 1]; } }
        }
        if Leads(vs, v, w, i + 1) {
          forall j | 0 <= j < i ensures HasNone(rest[j], v) { assert rest[j] == vs[j + 1]; }
        }
      }
    }
  }

  lemma {:induction false} FirstIs(n: Node, vs: seq<Node>, v: Value, w: Value)
    requires Inside(n, vs) && forall b :: b in vs ==> Agrees(b, v)
    ensures FirstMatch(n, vs, v) == Some(w) <==> exists i: nat :: Leads(vs, v, w, i)
    decreases |vs|
  {
    hide Conform, NormalForm, HasNone, Agrees, Inside, Leads;
    if vs != [] {
      var rest := vs[1..];
      TailInside(n, vs);
      AgreesAt(vs[0], v, w);
      FirstIs(n, rest, v, w);
      LeadShifted(vs, v, w);
      if HasNone(vs[0], v) {
        HasOneNot(vs[0], v, w);
        if i: nat :| Leads(rest, v, w, i) { assert Leads(vs, v, w, i + 1); }
        if i: nat :| Leads(vs, v, w, i) { assert Leads(rest, v, w, i - 1); }
      } else {
        if i: nat :| Leads(vs, v, w, i) { assert i == 0; }
      }
    } else {
      NoLead(vs, v, w);
    }
  }

  lemma NoLead(vs: seq<Node>, v: Value, w: Value)
    requires vs == []
    ensures forall i: nat :: !Leads(vs, v, w, i)
  {
  }

  lemma HasOneNot(b: Node, v: Value, w: Value)
    requires HasNone(b, v)
    ensures !NormalForm(b, v, w)
  {
  }

  ghost predicate Alone(vs: seq<Node>, v: Value, i: nat) {
    i < |vs| && !HasNone(vs[i], v) && forall j :: 0 <= j < |vs| && j != i ==> HasNone(vs[j], v)
  }

  ghost predicate NoneAtAll(vs: seq<Node>, v: Value) {
    forall j :: 0 <= j < |vs| ==> HasNone(vs[j], v)
  }

  // Matches counts the variants that have a normal form.
  lemma {:induction false} CountIs(n: Node, vs: seq<Node>, v: Value)
    requires Inside(n, vs) && forall b :: b in vs ==> Agrees(b, v)
    ensures Matches(n, vs, v) == 0 <==> NoneAtAll(vs, v)
    ensures Matches(n, vs, v) == 1 <==> exists i: nat :: Alone(vs, v, i)
    decreases |vs|
  {
    hide Conform, NormalForm, HasNone, Agrees, Inside;
    if vs != [] {
      var rest := vs[1..];
      TailInside(n, vs);
      AgreesAt(vs[0], v, Null);
      CountIs(n, rest, v);
      Shifted(vs, v);
      if HasNone(vs[0], v) {
        if i: nat :| Alone(rest, v, i) { assert Alone(vs, v, i + 1); }
        if i: nat :| Alone(vs, v, i) { assert Alone(rest, v, i - 1); }
      } else {
        if NoneAtAll(rest, v) { assert Alone(vs, v, 0); }
        if i: nat :| Alone(vs, v, i) { assert i == 0; }
      }
    }
  }

  lemma Shifted(vs: seq<Node>, v: Value)
    requires vs != []
    ensures NoneAtAll(vs, v) <==> HasNone(vs[0], v) && NoneAtAll(vs[1..], v)
    ensures HasNone(vs[0], v) ==> forall i: nat :: Alone(vs[1..], v, i) <==> Alone(vs, v, i + 1)
    ensures Alone(vs, v, 0) ==> NoneAtAll(vs[1..], v)
    ensures !HasNone(vs[0], v) && NoneAtAll(vs[1..], v) ==> Alone(vs, v, 0)
  {
    hide HasNone;
    var rest := vs[1..];
    assert forall j :: 0 <= j < |rest| ==> rest[j] == vs[j + 1];
    assert forall j :: 0 < j < |vs| ==> vs[j] == rest[j - 1];
    if HasNone(vs[0], v) {
      forall i: nat ensures Alone(rest, v, i) <==> Alone(vs, v, i + 1) {
        if Alone(rest, v, i) {
          forall j | 0 <= j < |vs| && j != i + 1 ensures HasNone(vs[j], v) { if j > 0 { assert vs[j] == rest[j - 1]; } }
        }
        if Alone(vs, v, i + 1) {
          forall j | 0 <= j < |rest| && j != i ensures HasNone(rest[j], v) { assert rest[j] == vs[j + 1]; }
        }
      }
    }
    if Alone(vs, v, 0) {
      forall j | 0 <= j < |rest| ensures HasNone(rest[j], v) { assert rest[j] == vs[j + 1]; }
    }
  }

  ghost predicate Stands(vs: seq<Node>, v: Value, w: Value, i: nat) {
    Alone(vs, v, i) && NormalForm(vs[i], v, w)
  }

  lemma OnlyIs(n: Node, vs: seq<Node>, v: Value, w: Value)
    requires Inside(n, vs) && forall b :: b in vs ==> Agrees(b, v)
    ensures OnlyMatch(n, vs, v) == Some(w) <==> exists i: nat :: Stands(vs, v, w, i)
  {
    hide Conform, NormalForm, HasNone, Agrees, Inside, Matches, FirstMatch;
    CountIs(n, vs, v);
    FirstIs(n, vs, v, w);
    if i: nat :| Stands(vs, v, w, i) { assert Alone(vs, v, i) && Leads(vs, v, w, i); }
    if OnlyMatch(n, vs, v) == Some(w) {
      var k: nat :| Alone(vs, v, k);
      var i: nat :| Leads(vs, v, w, i);
      HasOne(vs[i], v, w);
      assert Stands(vs, v, w, i);
    }
  }

  lemma StandsIs(vs: seq<Node>, v: Value, w: Value)
    ensures (exists i: nat :: Stands(vs, v, w, i)) <==>
              exists i :: 0 <= i < |vs| && NormalForm(vs[i], v, w) && forall j :: 0 <= j < |vs| && j != i ==> HasNone(vs[j], v)
  {
    hide NormalForm, HasNone;
    if i :| 0 <= i < |vs| && NormalForm(vs[i], v, w) && forall j :: 0 <= j < |vs| && j != i ==> HasNone(vs[j], v) {
      HasOne(vs[i], v, w);
      assert Stands(vs, v, w, i);
    }
  }

  lemma LeadsIs(vs: seq<Node>, v: Value, w: Value)
    ensures (exists i: nat :: Leads(vs, v, w, i)) <==>
              exists i :: 0 <= i < |vs| && NormalForm(vs[i], v, w) && forall j :: 0 <= j < i ==> HasNone(vs[j], v)
  {
    hide NormalForm, HasNone;
    if i :| 0 <= i < |vs| && NormalForm(vs[i], v, w) && forall j :: 0 <= j < i ==> HasNone(vs[j], v) {
      assert Leads(vs, v, w, i);
    }
  }

  lemma HasOne(b: Node, v: Value, w: Value)
    requires NormalForm(b, v, w)
    ensures !HasNone(b, v)
  {
  }

  lemma ObjectIs(n: Node, fields: map<string, Value>, w: Value)
    requires forall name, u, x :: name in PropsOf(n) ==> (Conform(PropsOf(n)[name], u) == Some(x) <==> NormalForm(PropsOf(n)[name], u, x))
    ensures ConformObject(n, fields) == Some(w) <==> w.Obj? && FieldsNormal(n, fields, w.fields)
  {
    hide Conform, NormalForm;
    var props := PropsOf(n);
    if ConformObject(n, fields).Some? {
      var out := ConformObject(n, fields).value.fields;
      forall name | name in props ensures !Refuses(n, fields, name) { }
      assert FieldsNormal(n, fields, out);
      if w.Obj? && FieldsNormal(n, fields, w.fields) {
        forall name | name in props && name in fields ensures name in w.fields && w.fields[name] == out[name] {
          assert Conform(props[name], fields[name]) == Some(w.fields[name]);
        }
        assert forall name :: name in w.fields <==> name in out;
        assert w.fields == out;
      }
    } else {
      var name :| name in props && Refuses(n, fields, name);
      assert name in fields ==> forall x :: !NormalForm(props[name], fields[name], x);
    }
  }

  lemma ArrayIs(n: Node, items: seq<Value>, w: Value)
    requires n.items.Items? ==> forall u, x :: Conform(n.items.of, u) == Some(x) <==> NormalForm(n.items.of, u, x)
    ensures ConformArray(n, items) == Some(w) <==>
              && WithinInts(n.minItems, |items|, n.maxItems)
              && if n.items == NoItems then w == Arr(items)
                 else w.Arr? && |w.items| == |items| && forall i :: 0 <= i < |items| ==> NormalForm(n.items.of, items[i], w.items[i])
  {
    hide Conform, NormalForm;
    if n.items.Items? && WithinInts(n.minItems, |items|, n.maxItems) && w.Arr? && |w.items| == |items| {
      if forall i :: 0 <= i < |items| ==> NormalForm(n.items.of, items[i], w.items[i]) {
        assert forall i :: 0 <= i < |items| ==> Conform(n.items.of, items[i]) == Some(w.items[i]);
        assert ConformArray(n, items).value.items == w.items;
      }
      if ConformArray(n, items) == Some(w) {
        forall i | 0 <= i < |items| ensures NormalForm(n.items.of, items[i], w.items[i]) {
          assert Conform(n.items.of, items[i]) == Some(w.items[i]);
        }
      }
    }
  }

  // Validation accepts a value, and makes w of it, exactly when w is its normal form: at every depth
  // the types, bounds, lengths, enumerated values and item counts are met, and nothing else is asked.
  lemma {:induction false} ConformIsNormalForm(n: Node, v: Value, w: Value)
    ensures Conform(n, v) == Some(w) <==> NormalForm(n, v, w)
    decreases n, 2
  {
    if n == EMPTY.(default := n.default) {
    } else if Says(n.anyOf) {
      AnyOfIs(n, v, w);
    } else if Says(n.oneOf) {
      OneOfIs(n, v, w);
    } else {
      PlainIs(n, v, w);
    }
  }

  lemma {:induction false} AnyOfIs(n: Node, v: Value, w: Value)
    requires n != EMPTY.(default := n.default) && Says(n.anyOf)
    ensures Conform(n, v) == Some(w) <==> NormalForm(n, v, w)
    decreases n, 1
  {
    hide ConformObject, ConformArray, HasNone, FieldsNormal, Admits;
    assert n.anyOf.Variants? && n.anyOf.all != [];
    VariantsAgree(n, n.anyOf.all, v);
    FirstIs(n, n.anyOf.all, v, w);
    LeadsIs(n.anyOf.all, v, w);
  }

  lemma {:induction false} OneOfIs(n: Node, v: Value, w: Value)
    requires n != EMPTY.(default := n.default) && !Says(n.anyOf) && Says(n.oneOf)
    ensures Conform(n, v) == Some(w) <==> NormalForm(n, v, w)
    decreases n, 1
  {
    hide ConformObject, ConformArray, HasNone, FieldsNormal, Admits;
    assert n.oneOf.Variants? && n.oneOf.all != [];
    VariantsAgree(n, n.oneOf.all, v);
    OnlyIs(n, n.oneOf.all, v, w);
    StandsIs(n.oneOf.all, v, w);
  }

  lemma {:induction false} VariantsAgree(n: Node, vs: seq<Node>, v: Value)
    requires Inside(n, vs)
    ensures forall b :: b in vs ==> Agrees(b, v)
    decreases n, 0
  {
    hide Conform, NormalForm;
    forall b | b in vs ensures Agrees(b, v) {
      forall u ensures Conform(b, v) == Some(u) <==> NormalForm(b, v, u) { ConformIsNormalForm(b, v, u); }
    }
  }

  lemma {:induction false} PlainIs(n: Node, v: Value, w: Value)
    requires n != EMPTY.(default := n.default) && !Says(n.anyOf) && !Says(n.oneOf)
    ensures Conform(n, v) == Some(w) <==> NormalForm(n, v, w)
    decreases n, 1
  {
    hide ConformObject, ConformArray, FieldsNormal;
    AdmitsIs(n, v);
    match v
    case Obj(fields) =>
      forall name, u, x | name in PropsOf(n) ensures Conform(PropsOf(n)[name], u) == Some(x) <==> NormalForm(PropsOf(n)[name], u, x) {
        ConformIsNormalForm(PropsOf(n)[name], u, x);
      }
      ObjectIs(n, fields, w);
    case Arr(items) =>
      if n.items.Items? {
        forall u, x ensures Conform(n.items.of, u) == Some(x) <==> NormalForm(n.items.of, u, x) { ConformIsNormalForm(n.items.of, u, x); }
      }
      ArrayIs(n, items, w);
    case _ =>
  }

  // --- what comes out meets the schema ---

  predicate Scalar(v: Value) {
    !v.Obj? && !v.Arr?
  }

  // Enumerated values are scalars and defaults meet the property they fill, at every depth.
  ghost predicate Sane(n: Node)
    decreases n
  {
    && (n.enums != None ==> forall e :: e in n.enums.value ==> Scalar(e))
    && (forall name :: name in PropsOf(n) ==>
          Sane(PropsOf(n)[name]) && (Filling(PropsOf(n)[name]) != None ==> Meets(PropsOf(n)[name], Filling(PropsOf(n)[name]).value)))
    && (n.items.Items? ==> Sane(n.items.of))
    && (n.anyOf.Variants? ==> forall b :: b in n.anyOf.all ==> Sane(b))
    && (n.oneOf.Variants? ==> forall b :: b in n.oneOf.all ==> Sane(b))
  }

  // The value as it is meets the schema: its own keywords and those of everything inside it, with
  // nothing that is not declared and everything that is required.
  ghost predicate Meets(n: Node, w: Value)
    decreases n
  {
    if n == EMPTY.(default := n.default) then true
    else if Says(n.anyOf) then exists b :: b in n.anyOf.all && Meets(b, w)
    else if Says(n.oneOf) then exists b :: b in n.oneOf.all && Meets(b, w)
    else
      Admits(n, w) &&
      match w
      case Obj(fields) =>
        PrunesObjects(n) ==>
          && (forall name :: name in fields ==> name in PropsOf(n) && Meets(PropsOf(n)[name], fields[name]))
          && forall name :: name in PropsOf(n) && Demands(n, name) ==> name in fields
      case Arr(items) => n.items.Items? ==> forall i :: 0 <= i < |items| ==> Meets(n.items.of, items[i])
      case _ => true
  }

  lemma SameKindAdmitted(n: Node, v: Value, w: Value)
    requires Admits(n, v) && (n.enums != None ==> forall e :: e in n.enums.value ==> Scalar(e))
    requires (v.Obj? && w.Obj?) || (v.Arr? && w.Arr? && |w.items| == |v.items|)
    ensures Admits(n, w)
  {
    if n.types != [] {
      var t :| t in n.types && Is(v, t);
      assert Is(w, t);
    }
  }

  lemma {:induction false} NormalFormMeets(n: Node, v: Value, w: Value)
    requires Sane(n) && NormalForm(n, v, w)
    ensures Meets(n, w)
    decreases n
  {
    if n == EMPTY.(default := n.default) {
    } else if Says(n.anyOf) {
      var i :| 0 <= i < |n.anyOf.all| && NormalForm(n.anyOf.all[i], v, w);
      NormalFormMeets(n.anyOf.all[i], v, w);
    } else if Says(n.oneOf) {
      var i :| 0 <= i < |n.oneOf.all| && NormalForm(n.oneOf.all[i], v, w);
      NormalFormMeets(n.oneOf.all[i], v, w);
    } else {
      match v
      case Obj(fields) =>
        if PrunesObjects(n) {
          SameKindAdmitted(n, v, w);
          forall name | name in w.fields ensures name in PropsOf(n) && Meets(PropsOf(n)[name], w.fields[name]) {
            if name in fields { NormalFormMeets(PropsOf(n)[name], fields[name], w.fields[name]); }
          }
        }
      case Arr(items) =>
        if n.items.Items? {
          SameKindAdmitted(n, v, w);
          forall i | 0 <= i < |items| ensures Meets(n.items.of, w.items[i]) { NormalFormMeets(n.items.of, items[i], w.items[i]); }
        }
      case _ =>
    }
  }

  // What validation lets through meets the schema at every depth, as it is.
  lemma AcceptedMeets(n: Node, v: Value)
    requires Sane(n) && Conform(n, v).Some?
    ensures Meets(n, Conform(n, v).value)
  {
    ConformIsNormalForm(n, v, Conform(n, v).value);
    NormalFormMeets(n, v, Conform(n, v).value);
  }

  predicate Plain(n: Node) {
    n != EMPTY.(default := n.default) && !Says(n.anyOf) && !Says(n.oneOf)
  }

  // A scalar comes out as it is, or not at all: exactly by the keywords of the node.
  lemma ScalarsExactly(n: Node, v: Value)
    requires Plain(n) && Scalar(v)
    ensures Conform(n, v) == if Admits(n, v) then Some(v) else None
  {
    hide Admits;
    forall w ensures Conform(n, v) == Some(w) <==> Admits(n, v) && w == v { ConformIsNormalForm(n, v, w); }
    if Conform(n, v).Some? { assert Conform(n, v) == Some(Conform(n, v).value); }
  }

  // An object is accepted exactly when its own keywords admit it, what it holds of the declared
  // properties is accepted, and what it lacks is not required. What comes out has no other keys: each
  // property that is there has its own normal form, whatever its default, and an absent one its default.
  lemma ObjectsExactly(n: Node, fields: map<string, Value>)
    requires Plain(n) && PrunesObjects(n)
    ensures Conform(n, Obj(fields)).Some? <==>
              && Admits(n, Obj(fields))
              && forall name :: name in PropsOf(n) ==> if name in fields then Conform(PropsOf(n)[name], fields[name]).Some? else !Demands(n, name)
    ensures Conform(n, Obj(fields)).Some? ==>
              && Conform(n, Obj(fields)).value.Obj?
              && var out := Conform(n, Obj(fields)).value.fields;
                 && (forall name :: name in out ==> name in PropsOf(n))
                 && (forall name :: name in PropsOf(n) && name in fields ==> name in out && Some(out[name]) == Conform(PropsOf(n)[name], fields[name]))
                 && forall name :: name in PropsOf(n) && name !in fields ==>
                      if Filling(PropsOf(n)[name]) == None then name !in out else name in out && Some(out[name]) == Filling(PropsOf(n)[name])
  {
    hide Admits, ConformArray;
    AdmitsIs(n, Obj(fields));
    var props := PropsOf(n);
    assert Conform(n, Obj(fields)) == if TypeOk(n, Obj(fields)) && EnumOk(n, Obj(fields)) then ConformObject(n, fields) else None;
    forall name | name in props
      ensures Refuses(n, fields, name) <==> !(if name in fields then Conform(props[name], fields[name]).Some? else !Demands(n, name))
    {
    }
  }
}
