/** Resolving only the context slots an expression names agrees with resolving them all. */
module LazyContext {
  import opened Common
  import opened Expression

  // --- roots ---

  datatype Roots = Roots(input: bool, error: bool, outputs: set<string>, allOutputs: bool, selfPrevious: bool)

  const NO_ROOTS := Roots(false, false, {}, false, false)
  const ALL_ROOTS := Roots(true, true, {}, true, true)

  function Union(a: Roots, b: Roots): Roots {
    Roots(a.input || b.input, a.error || b.error, a.outputs + b.outputs, a.allOutputs || b.allOutputs, a.selfPrevious || b.selfPrevious)
  }

  predicate Covers(a: Roots, b: Roots) {
    && (b.input ==> a.input) && (b.error ==> a.error) && (b.selfPrevious ==> a.selfPrevious)
    && (b.allOutputs ==> a.allOutputs) && (a.allOutputs || b.outputs <= a.outputs)
  }

  predicate IsOutputRef(e: Expr) {
    e.Member? && e.base == Ident("outputs") && e.prop.StrLit? && e.prop.s != ""
  }

  predicate IsSelfPrevious(e: Expr) {
    e == Member(Ident("self"), StrLit("previous"))
  }

  function Collect(e: Expr): Roots {
    match e
    case Member(base, prop) =>
      if IsOutputRef(e) then NO_ROOTS.(outputs := {prop.s})
      else if IsSelfPrevious(e) then NO_ROOTS.(selfPrevious := true)
      else Union(Collect(base), Collect(prop))
    case Ident(name) =>
      if name == "input" then NO_ROOTS.(input := true)
      else if name == "error" then NO_ROOTS.(error := true)
      else if name == "outputs" then NO_ROOTS.(allOutputs := true)
      else NO_ROOTS
    case Binary(_, left, right) => Union(Collect(left), Collect(right))
    case Unary(_, operand) => Collect(operand)
    case Cond(cond, yes, no) => Union(Collect(cond), Union(Collect(yes), Collect(no)))
    case _ => NO_ROOTS
  }

  // self appears as self.<field> only.
  predicate SelfByField(e: Expr) {
    match e
    case Ident(name) => name != "self"
    case Member(base, prop) => (base == Ident("self") && prop.StrLit?) || (SelfByField(base) && SelfByField(prop))
    case Binary(_, left, right) => SelfByField(left) && SelfByField(right)
    case Unary(_, operand) => SelfByField(operand)
    case Cond(cond, yes, no) => SelfByField(cond) && SelfByField(yes) && SelfByField(no)
    case _ => true
  }

  // --- environments ---

  // A value kept inline, or the marker of an externalised one.
  datatype Held = Here(v: Datum) | Away(hash: string)

  // self: none, or the fields of the task's transient scope, of which previous may be away.
  datatype Self = NoSelf | Self(fields: map<string, Datum>, previous: Option<Held>)

  datatype Context = Context(input: Held, error: Held, outputs: map<string, Held>, config: map<string, Datum>, self: Self)

  // The object store answers every reference.
  type Store = string -> Datum

  function Load(store: Store, h: Held): Datum {
    match h
    case Here(v) => v
    case Away(hash) => store(hash)
  }

  // What stands in the environment for a marker nobody resolved.
  function Unloaded(h: Held, marker: Datum): Datum {
    match h
    case Here(v) => v
    case Away(_) => marker
  }

  function SelfValue(c: Context, roots: Roots, store: Store, marker: Datum): Datum {
    match c.self
    case NoSelf => VNull
    case Self(fields, previous) =>
      if roots.selfPrevious then VObj(fields["previous" := if previous.Some? then Load(store, previous.value) else VNull])
      else if previous.Some? then VObj(fields["previous" := Unloaded(previous.value, marker)])
      else VObj(fields)
  }

  function Slot(h: Held, named: bool, store: Store): Datum {
    if h.Away? && !named then VNull else Load(store, h)
  }

  function Outputs(c: Context, roots: Roots, store: Store): map<string, Datum> {
    map id | id in c.outputs && (c.outputs[id].Here? || roots.allOutputs || id in roots.outputs) :: Load(store, c.outputs[id])
  }

  function EnvFor(c: Context, roots: Roots, store: Store, marker: Datum): Env {
    map["self" := SelfValue(c, roots, store, marker), "config" := VObj(c.config), "input" := Slot(c.input, roots.input, store),
        "error" := Slot(c.error, roots.error, store), "outputs" := VObj(Outputs(c, roots, store))]
  }

  // Fields of self other than previous are never externalised.
  predicate PlainSelf(c: Context) {
    c.self.Self? ==> "previous" !in c.self.fields
  }

  lemma SelfFieldAgrees(c: Context, roots: Roots, store: Store, marker: Datum, field: string)
    requires PlainSelf(c) && (field == "previous" ==> roots.selfPrevious)
    ensures FieldOf(SelfValue(c, roots, store, marker), field) == FieldOf(SelfValue(c, ALL_ROOTS, store, marker), field)
  {
  }

  lemma SelfMemberAgrees(field: string, c: Context, roots: Roots, store: Store, marker: Datum)
    requires PlainSelf(c) && Covers(roots, Collect(Member(Ident("self"), StrLit(field))))
    ensures var e := Member(Ident("self"), StrLit(field));
            Eval(e, EnvFor(c, roots, store, marker)) == Eval(e, EnvFor(c, ALL_ROOTS, store, marker))
  {
    hide SelfValue;
    var e := Member(Ident("self"), StrLit(field));
    assert field == "previous" ==> IsSelfPrevious(e) && roots.selfPrevious;
    SelfFieldAgrees(c, roots, store, marker, field);
    SelfReads(field, EnvFor(c, roots, store, marker));
    SelfReads(field, EnvFor(c, ALL_ROOTS, store, marker));
  }

  lemma SelfReads(field: string, env: Env)
    requires "self" in env
    ensures Eval(Member(Ident("self"), StrLit(field)), env) == Val(FieldOf(env["self"], field))
  {
    assert Eval(Ident("self"), env) == Val(env["self"]);
  }

  lemma OutputAgrees(id: string, c: Context, roots: Roots, store: Store, marker: Datum)
    requires roots.allOutputs || id in roots.outputs
    ensures var e := Member(Ident("outputs"), StrLit(id));
            Eval(e, EnvFor(c, roots, store, marker)) == Eval(e, EnvFor(c, ALL_ROOTS, store, marker))
  {
    OutputReads(id, EnvFor(c, roots, store, marker));
    OutputReads(id, EnvFor(c, ALL_ROOTS, store, marker));
  }

  lemma OutputReads(id: string, env: Env)
    requires "outputs" in env
    ensures Eval(Member(Ident("outputs"), StrLit(id)), env) == Val(FieldOf(env["outputs"], id))
  {
    assert Eval(Ident("outputs"), env) == Val(env["outputs"]);
  }

  // An expression that names its roots reads the same from both environments, whatever stands
  // for the markers.
  lemma {:induction false} ExpressionAgrees(e: Expr, c: Context, roots: Roots, store: Store, marker: Datum)
    requires PlainSelf(c) && SelfByField(e) && Covers(roots, Collect(e))
    ensures Eval(e, EnvFor(c, roots, store, marker)) == Eval(e, EnvFor(c, ALL_ROOTS, store, marker))
    decreases e
  {
    hide EnvFor, Apply, ApplyUnary;
    match e
    case Ident(name) => IdentAgrees(name, c, roots, store, marker);
    case Member(base, prop) =>
      if IsOutputRef(e) {
        OutputAgrees(prop.s, c, roots, store, marker);
      } else if base == Ident("self") && prop.StrLit? {
        SelfMemberAgrees(prop.s, c, roots, store, marker);
      } else {
        ExpressionAgrees(base, c, roots, store, marker);
      }
    case Binary(_, left, right) =>
      ExpressionAgrees(left, c, roots, store, marker);
      ExpressionAgrees(right, c, roots, store, marker);
    case Unary(_, operand) => ExpressionAgrees(operand, c, roots, store, marker);
    case Cond(cond, yes, no) =>
      ExpressionAgrees(cond, c, roots, store, marker);
      ExpressionAgrees(yes, c, roots, store, marker);
      ExpressionAgrees(no, c, roots, store, marker);
    case _ =>
  }

  lemma IdentAgrees(name: string, c: Context, roots: Roots, store: Store, marker: Datum)
    requires name != "self" && Covers(roots, Collect(Ident(name)))
    ensures Eval(Ident(name), EnvFor(c, roots, store, marker)) == Eval(Ident(name), EnvFor(c, ALL_ROOTS, store, marker))
  {
    hide SelfValue;
    assert roots.allOutputs ==> Outputs(c, roots, store) == Outputs(c, ALL_ROOTS, store);
  }

  // Bare self is not collected. An externalised previous value shows as its marker, a missing one
  // as no field at all; exactly then the two evaluations of self differ.
  lemma BareSelfDisagrees(c: Context, store: Store, marker: Datum)
    requires PlainSelf(c)
    ensures var e := Ident("self");
            Eval(e, EnvFor(c, Collect(e), store, marker)) != Eval(e, EnvFor(c, ALL_ROOTS, store, marker)) <==>
              c.self.Self? && match c.self.previous
                              case None => true
                              case Some(h) => h.Away? && marker != store(h.hash)
  {
    var lazy, eager := SelfValue(c, NO_ROOTS, store, marker), SelfValue(c, ALL_ROOTS, store, marker);
    if c.self.Self? {
      assert "previous" in eager.fields && ("previous" in lazy.fields <==> c.self.previous.Some?);
      assert c.self.previous.Some? ==> (lazy == eager <==> lazy.fields["previous"] == eager.fields["previous"]);
    }
  }

  // --- templates ---

  // Literal text, the text of a {{ }} block, or a {{ that is never closed.
  datatype Piece = Lit(text: string) | Block(text: string) | Unclosed

  // The expr-lang parser, and the text of a value in a mixed template.
  datatype Language = Language(parse: string -> Option<Expr>, show: Datum -> Option<string>)

  // The first place where the character stands twice, or -1.
  function Find(s: string, c: char): (i: int)
    ensures -1 <= i && (i >= 0 ==> i + 2 <= |s|)
  {
    if |s| < 2 then -1
    else if s[0] == c && s[1] == c then 0
    else var r := Find(s[1..], c); if r < 0 then -1 else r + 1
  }

  function Pieces(s: string): seq<Piece>
    decreases |s|
  {
    var start := Find(s, '{');
    if start < 0 then [Lit(s)]
    else
      var rest := s[start + 2..];
      var end := Find(rest, '}');
      if end < 0 then [Lit(s[..start]), Unclosed]
      else [Lit(s[..start]), Block(rest[..end])] + Pieces(rest[end + 2..])
  }

  // The expression of a template that is one block and nothing else.
  function Single(s: string): Option<string> {
    if |s| >= 4 && s[..2] == "{{" && s[|s| - 2..] == "}}" && Find(s[2..|s| - 2], '{') < 0 && Find(s[2..|s| - 2], '}') < 0
    then Some(s[2..|s| - 2]) else None
  }

  // The text of one block.
  function BlockText(l: Language, text: string, env: Env): (o: Outcome)
    ensures o.Val? ==> o.v.VStr?
  {
    match l.parse(text)
    case None => Failed
    case Some(e) =>
      var v := Eval(e, env);
      if !v.Val? then v
      else if l.show(v.v).None? then Failed
      else Val(VStr(l.show(v.v).value))
  }

  function PieceText(l: Language, p: Piece, env: Env): (o: Outcome)
    ensures o.Val? ==> o.v.VStr?
  {
    match p
    case Lit(text) => Val(VStr(text))
    case Block(text) => BlockText(l, text, env)
    case Unclosed => Failed
  }

  // The text of the pieces, one after the other; the first failure ends it.
  function Render(l: Language, ps: seq<Piece>, env: Env): (o: Outcome)
    ensures o.Val? ==> o.v.VStr?
  {
    if ps == [] then Val(VStr(""))
    else
      var o := PieceText(l, ps[0], env);
      if o.Val? then Prepend(o.v.s, Render(l, ps[1..], env)) else o
  }

  function Prepend(text: string, o: Outcome): Outcome {
    if o.Val? && o.v.VStr? then Val(VStr(text + o.v.s)) else o
  }

  function EvalTemplate(l: Language, s: string, env: Env): Outcome {
    if Single(s).Some? then
      match l.parse(Single(s).value)
      case None => Failed
      case Some(e) => Eval(e, env)
    else Render(l, Pieces(s), env)
  }

  // None when a block does not parse.
  function PieceRoots(l: Language, ps: seq<Piece>): Option<Roots> {
    if ps == [] then Some(NO_ROOTS)
    else
      var rest := PieceRoots(l, ps[1..]);
      if !ps[0].Block? then rest
      else match l.parse(ps[0].text)
        case None => None
        case Some(e) => if rest.None? then None else Some(Union(Collect(e), rest.value))
  }

  function TemplateRoots(l: Language, s: string): Option<Roots> {
    if Single(s).Some? then
      match l.parse(Single(s).value)
      case None => None
      case Some(e) => Some(Collect(e))
    else PieceRoots(l, Pieces(s))
  }

  ghost predicate BlocksByField(l: Language, ps: seq<Piece>) {
    forall i :: 0 <= i < |ps| && ps[i].Block? && l.parse(ps[i].text).Some? ==> SelfByField(l.parse(ps[i].text).value)
  }

  ghost predicate TemplateByField(l: Language, s: string) {
    if Single(s).Some? then l.parse(Single(s).value).Some? ==> SelfByField(l.parse(Single(s).value).value)
    else BlocksByField(l, Pieces(s))
  }

  lemma CoversUnion(roots: Roots, a: Roots, b: Roots)
    requires Covers(roots, Union(a, b))
    ensures Covers(roots, a) && Covers(roots, b)
  {
  }

  lemma {:induction false} RenderAgrees(l: Language, ps: seq<Piece>, c: Context, roots: Roots, store: Store, marker: Datum)
    requires PlainSelf(c) && BlocksByField(l, ps) && PieceRoots(l, ps).Some? && Covers(roots, PieceRoots(l, ps).value)
    ensures Render(l, ps, EnvFor(c, roots, store, marker)) == Render(l, ps, EnvFor(c, ALL_ROOTS, store, marker))
    decreases |ps|
  {
    hide EnvFor, Eval, Collect, SelfByField, Covers;
    if ps != [] {
      var rest := PieceRoots(l, ps[1..]).value;
      if ps[0].Block? {
        var e := l.parse(ps[0].text).value;
        CoversUnion(roots, Collect(e), rest);
        ExpressionAgrees(e, c, roots, store, marker);
      }
      assert forall i :: 0 <= i < |ps[1..]| ==> ps[1..][i] == ps[i + 1];
      RenderAgrees(l, ps[1..], c, roots, store, marker);
    }
  }

  lemma TemplateAgrees(l: Language, s: string, c: Context, roots: Roots, store: Store, marker: Datum)
    requires PlainSelf(c) && TemplateByField(l, s) && TemplateRoots(l, s).Some? && Covers(roots, TemplateRoots(l, s).value)
    ensures EvalTemplate(l, s, EnvFor(c, roots, store, marker)) == EvalTemplate(l, s, EnvFor(c, ALL_ROOTS, store, marker))
  {
    hide EnvFor, Eval, Collect, SelfByField, Covers;
    if Single(s).Some? {
      ExpressionAgrees(l.parse(Single(s).value).value, c, roots, store, marker);
    } else {
      RenderAgrees(l, Pieces(s), c, roots, store, marker);
    }
  }

  // A block that does not parse leaves no value in either environment.
  lemma {:induction false} UnparsedNeverRenders(l: Language, ps: seq<Piece>, env: Env)
    requires PieceRoots(l, ps).None?
    ensures !Render(l, ps, env).Val?
    decreases |ps|
  {
    hide Eval, Collect;
    if ps[0].Block? && l.parse(ps[0].text).None? {
    } else {
      UnparsedNeverRenders(l, ps[1..], env);
    }
  }

  // --- shapes ---

  datatype Shape = Leaf(template: string) | Object(fields: map<string, Shape>)

  function EvalShape(l: Language, sh: Shape, env: Env): Option<Datum> {
    match sh
    case Leaf(t) => (match EvalTemplate(l, t, env)
                     case Val(v) => Some(v)
                     case _ => None)
    case Object(fields) =>
      if exists k :: k in fields && EvalShape(l, fields[k], env).None? then None
      else Some(VObj(map k | k in fields :: EvalShape(l, fields[k], env).value))
  }

  // Every leaf's roots, and none that does not parse.
  ghost predicate ShapeCovered(l: Language, sh: Shape, roots: Roots) {
    match sh
    case Leaf(t) => TemplateRoots(l, t).Some? && Covers(roots, TemplateRoots(l, t).value)
    case Object(fields) => forall k :: k in fields ==> ShapeCovered(l, fields[k], roots)
  }

  ghost predicate ShapeByField(l: Language, sh: Shape) {
    match sh
    case Leaf(t) => TemplateByField(l, t)
    case Object(fields) => forall k :: k in fields ==> ShapeByField(l, fields[k])
  }

  ghost predicate ShapeParses(l: Language, sh: Shape) {
    match sh
    case Leaf(t) => TemplateRoots(l, t).Some?
    case Object(fields) => forall k :: k in fields ==> ShapeParses(l, fields[k])
  }

  lemma {:induction false} ShapeAgrees(l: Language, sh: Shape, c: Context, roots: Roots, store: Store, marker: Datum)
    requires PlainSelf(c) && ShapeByField(l, sh) && ShapeCovered(l, sh, roots)
    ensures EvalShape(l, sh, EnvFor(c, roots, store, marker)) == EvalShape(l, sh, EnvFor(c, ALL_ROOTS, store, marker))
    decreases sh
  {
    hide EnvFor, EvalTemplate, TemplateRoots, TemplateByField, Covers;
    match sh
    case Leaf(t) => TemplateAgrees(l, t, c, roots, store, marker);
    case Object(fields) =>
      forall k | k in fields
        ensures EvalShape(l, fields[k], EnvFor(c, roots, store, marker)) == EvalShape(l, fields[k], EnvFor(c, ALL_ROOTS, store, marker))
      {
        ShapeAgrees(l, fields[k], c, roots, store, marker);
      }
      var lazy, eager := EvalShape(l, sh, EnvFor(c, roots, store, marker)), EvalShape(l, sh, EnvFor(c, ALL_ROOTS, store, marker));
      assert lazy.Some? && eager.Some? ==> lazy.value.fields == eager.value.fields;
  }

  lemma {:induction false} UnparsedHasNoValue(l: Language, sh: Shape, env: Env)
    requires !ShapeParses(l, sh)
    ensures EvalShape(l, sh, env).None?
    decreases sh
  {
    hide Render, Eval, Collect;
    match sh
    case Leaf(t) => if Single(t).None? { UnparsedNeverRenders(l, Pieces(t), env); }
    case Object(fields) =>
      var k :| k in fields && !ShapeParses(l, fields[k]);
      UnparsedHasNoValue(l, fields[k], env);
  }
}
