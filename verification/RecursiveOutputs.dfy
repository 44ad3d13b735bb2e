/**
 Output maps as definitions write them, shapes of templates over the outputs and the task's own
 scope: their inferred types hold of what they evaluate to, which is what the fixpoint asks of
 inference; so the accepted types of recursive outputs hold over any number of loop iterations.
 */
module RecursiveOutputs {
  import opened Common
  import opened Schema
  import opened Sorting
  import opened Expression
  import opened Inference
  import opened Membership
  import opened TypeSoundness
  import opened TypedContexts
  import opened LazyContext
  import C = Canonical
  import F = Fixpoint
  import J = JsonText

  // --- types of templates and shapes ---

  // No block of a mixed template may be null.
  function BlocksTyped(l: Language, ps: seq<Piece>, root: Node): bool {
    forall i :: 0 <= i < |ps| && ps[i].Block? ==>
      match l.parse(ps[i].text)
      case None => false
      case Some(e) => Infer(e, root, map[]).Ok? && !HasNull(Infer(e, root, map[]).value)
  }

  function InferTemplate(l: Language, t: string, root: Node): Result<Node> {
    if Single(t).Some? then
      match l.parse(Single(t).value)
      case None => Err("parse")
      case Some(e) => Infer(e, root, map[])
    else if BlocksTyped(l, Pieces(t), root) then Ok(Type("string"))
    else Err("a block has no type or may be null")
  }

  // An object with every field required, its names in order.
  ghost function InferShape(l: Language, sh: Shape, root: Node): Result<Node> {
    match sh
    case Leaf(t) => InferTemplate(l, t, root)
    case Object(fields) =>
      if fields == map[] then Ok(Type("object"))
      else if exists k :: k in fields && InferShape(l, fields[k], root).Err? then Err("a field has no type")
      else Ok(Type("object").(props := Props(map k | k in fields :: InferShape(l, fields[k], root).value),
                              required := Some(C.Sorted(J.Listing(fields.Keys)))))
  }

  // Expressions that stand alone are within the fragment soundness is proved for; in a mixed
  // template any expression will do, its value being text.
  ghost predicate Clean(l: Language, sh: Shape, root: Node) {
    match sh
    case Leaf(t) =>
      Single(t).Some? && l.parse(Single(t).value).Some? ==>
        TypeSoundness.Simple(l.parse(Single(t).value).value, root, map[]) && Narrows(l.parse(Single(t).value).value, root, map[])
    case Object(fields) => forall k :: k in fields ==> Clean(l, fields[k], root)
  }

  // Some template fails: by a division by zero if it is one block, and otherwise because a block
  // has no value or none that is text.
  ghost predicate LeafFails(l: Language, sh: Shape, env: Env) {
    match sh
    case Leaf(t) =>
      if Single(t).Some? then l.parse(Single(t).value).Some? && Eval(l.parse(Single(t).value).value, env).DivByZero?
      else !Render(l, Pieces(t), env).Val?
    case Object(fields) => exists k :: k in fields && LeafFails(l, fields[k], env)
  }

  lemma TemplateSound(l: Language, t: string, root: Node, env: Env)
    requires Solid(root) && EnvFits(root, env) && Clean(l, Leaf(t), root) && InferTemplate(l, t, root).Ok?
    ensures EvalTemplate(l, t, env).Val? ==> Mem(InferTemplate(l, t, root).value, EvalTemplate(l, t, env).v)
    ensures !EvalTemplate(l, t, env).Val? ==> LeafFails(l, Leaf(t), env)
  {
    hide Mem, Solid, EnvFits, Infer, Eval, Pieces, Single, Render, BlocksTyped, TypeSoundness.Simple, Narrows;
    if Single(t).Some? {
      WellTypedRuns(l.parse(Single(t).value).value, root, env);
    } else if EvalTemplate(l, t, env).Val? {
      assert EvalTemplate(l, t, env) == Render(l, Pieces(t), env);
      TypeMem("string", EvalTemplate(l, t, env).v);
    }
  }

  // A shape evaluates to a value of its inferred type, unless one of its templates fails.
  lemma {:induction false} ShapesAreSound(l: Language, sh: Shape, root: Node, env: Env)
    requires Solid(root) && EnvFits(root, env) && Clean(l, sh, root) && InferShape(l, sh, root).Ok?
    ensures EvalShape(l, sh, env).Some? ==> Mem(InferShape(l, sh, root).value, EvalShape(l, sh, env).value)
    ensures EvalShape(l, sh, env).None? ==> LeafFails(l, sh, env)
    decreases sh
  {
    hide Solid, EnvFits, EvalTemplate, InferTemplate, Mem;
    match sh
    case Leaf(t) => TemplateSound(l, t, root, env);
    case Object(fields) =>
      forall k | k in fields
        ensures EvalShape(l, fields[k], env).Some? && InferShape(l, fields[k], root).Ok? ==>
                  Mem(InferShape(l, fields[k], root).value, EvalShape(l, fields[k], env).value)
        ensures InferShape(l, fields[k], root).Ok?
        ensures EvalShape(l, fields[k], env).None? ==> LeafFails(l, fields[k], env)
      {
        assert InferShape(l, fields[k], root).Ok?;
        ShapesAreSound(l, fields[k], root, env);
      }
      if EvalShape(l, sh, env).Some? { ObjectHas(InferShape(l, sh, root).value, EvalShape(l, sh, env).value); }
  }

  lemma ObjectHas(n: Node, v: Datum)
    requires v.VObj? && n.types == ["object"] && n.anyOf.NoVariants? && n.oneOf.NoVariants?
    requires v.fields.Keys == PropsOf(n).Keys && forall k :: k in v.fields ==> Mem(PropsOf(n)[k], v.fields[k])
    ensures Mem(n, v)
  {
    assert "object" in n.types && OfType(v, "object");
    assert FieldsMem(n, v.fields);
  }

  // --- output maps in their contexts ---

  // An output map, the context it reads apart from the outputs and self, the fields of self apart
  // from previous, and which outputs the availability analysis lists for its task.
  datatype OutputMap = OutputMap(shape: Shape, root: Node, self: Node, required: seq<string>, optional: seq<string>, loops: bool)

  type Maps = map<string, OutputMap>

  function OutputsNode(a: OutputMap, d: F.Defs): Node {
    Type("object").(props := Props(map x | x in d && (x in a.required || x in a.optional) :: d[x]), required := Some(a.required))
  }

  // A looping task may read its own prior output.
  function SelfNode(a: OutputMap, m: string, d: F.Defs): Node {
    if a.loops && m in d then a.self.(props := Props(PropsOf(a.self)["previous" := d[m]])) else a.self
  }

  function TaskContext(a: OutputMap, m: string, d: F.Defs): Node {
    a.root.(props := Props(PropsOf(a.root)["outputs" := OutputsNode(a, d)]["self" := SelfNode(a, m, d)]))
  }

  ghost function InferOf(l: Language, maps: Maps): F.Infer {
    (m: string, d: F.Defs) => if m in maps then InferShape(l, maps[m].shape, TaskContext(maps[m], m, d)) else Err("no output map")
  }

  // What a task reads on one occasion besides the component's outputs: its environment, the fields
  // of its self, the stored outputs of other components.
  datatype Scene = Scene(env: Env, self: map<string, Datum>, others: F.Outputs)

  type Scenes = (string, nat) -> Scene

  function Stored(c: Scene, members: seq<string>, o: F.Outputs): F.Outputs {
    (map x | x in c.others && x !in members :: c.others[x]) + map x | x in o && x in members :: o[x]
  }

  function SelfValue(a: OutputMap, m: string, c: Scene, o: F.Outputs): Datum {
    VObj(if a.loops then c.self["previous" := if m in o then o[m] else VNull] else c.self)
  }

  function Environment(a: OutputMap, m: string, c: Scene, members: seq<string>, o: F.Outputs): Env {
    c.env["outputs" := VObj(Stored(c, members, o))]["self" := SelfValue(a, m, c, o)]
  }

  // A task is entered with every output it requires and with none that is not listed for it.
  predicate Entered(a: OutputMap, c: Scene, members: seq<string>, o: F.Outputs) {
    && (forall x :: x in a.required ==> x in Stored(c, members, o))
    && forall x :: x in Stored(c, members, o) ==> x in a.required || x in a.optional
  }

  function EvalOf(l: Language, maps: Maps, scenes: Scenes, members: seq<string>): F.Eval {
    (m: string, o: F.Outputs, n: nat) =>
      if m in maps && Entered(maps[m], scenes(m, n), members, o) then
        EvalShape(l, maps[m].shape, Environment(maps[m], m, scenes(m, n), members, o))
      else None
  }

  // The context of a map is typed throughout and the scene fits it.
  ghost predicate SceneFits(l: Language, a: OutputMap, m: string, c: Scene, members: seq<string>, d: F.Defs) {
    && a.root.props.Props? && TaskContext(a, m, d).types == ["object"] && Solid(TaskContext(a, m, d))
    && (forall name :: name in a.root.props.all && name != "outputs" && name != "self" ==>
          name in c.env && (Mem(a.root.props.all[name], c.env[name]) || (!IsRequired(a.root, name) && c.env[name] == VNull)))
    && Mem(a.self, VObj(c.self)) && "previous" !in c.self && "previous" !in PropsOf(a.self) && !IsRequired(a.self, "previous")
    && (a.loops ==> m in members && a.self.types == ["object"])
    && (forall x :: x in c.others && x !in members ==> x in d && Mem(d[x], c.others[x]))
    && Clean(l, a.shape, TaskContext(a, m, d))
  }

  ghost predicate WellTyped(l: Language, maps: Maps, scenes: Scenes, members: seq<string>, d: F.Defs) {
    forall m, n: nat {:trigger scenes(m, n)} :: m in members && m in maps ==> SceneFits(l, maps[m], m, scenes(m, n), members, d)
  }

  lemma OutputsFit(a: OutputMap, c: Scene, members: seq<string>, d: F.Defs, o: F.Outputs)
    requires F.Fits(d, members, o) && Entered(a, c, members, o)
    requires forall x :: x in c.others && x !in members ==> x in d && Mem(d[x], c.others[x])
    ensures Mem(OutputsNode(a, d), VObj(Stored(c, members, o)))
  {
    hide Mem;
    var n, v := OutputsNode(a, d), Stored(c, members, o);
    forall x | x in v ensures x in PropsOf(n) && Mem(PropsOf(n)[x], v[x]) { }
    DeclaredFit(n, VObj(v));
  }

  lemma DeclaredFit(n: Node, v: Datum)
    requires v.VObj? && n.types == ["object"] && n.anyOf.NoVariants? && n.oneOf.NoVariants?
    requires forall x :: x in v.fields ==> x in PropsOf(n) && Mem(PropsOf(n)[x], v.fields[x])
    requires forall x :: x in PropsOf(n) && IsRequired(n, x) ==> x in v.fields
    ensures Mem(n, v)
  {
    assert "object" in n.types && OfType(v, "object");
    assert FieldsMem(n, v.fields);
  }

  lemma SelfFits(a: OutputMap, m: string, c: Scene, members: seq<string>, d: F.Defs, o: F.Outputs)
    requires F.Fits(d, members, o) && Mem(a.self, VObj(c.self)) && "previous" !in c.self && "previous" !in PropsOf(a.self)
    requires (a.loops ==> m in members && a.self.types == ["object"]) && Solid(SelfNode(a, m, d)) && !IsRequired(a.self, "previous")
    ensures Mem(SelfNode(a, m, d), SelfValue(a, m, c, o))
  {
    if a.loops {
      var n, v := SelfNode(a, m, d), SelfValue(a, m, c, o);
      SolidPlain(n);
      assert FieldsMem(a.self, c.self) by { PlainFields(a.self, c.self); }
      forall x | x in v.fields ensures x in PropsOf(n) && Mem(PropsOf(n)[x], v.fields[x]) {
        if x != "previous" { assert x in c.self; }
      }
      DeclaredFit(n, v);
    }
  }

  lemma SolidPlain(n: Node)
    requires Solid(n) && n.types == ["object"]
    ensures n.anyOf.NoVariants? && n.oneOf.NoVariants?
  {
  }

  lemma PlainFields(n: Node, fields: map<string, Datum>)
    requires n.types == ["object"] && n.anyOf.NoVariants? && n.oneOf.NoVariants? && Mem(n, VObj(fields))
    ensures FieldsMem(n, fields)
  {
  }

  lemma EnvironmentFits(l: Language, a: OutputMap, m: string, c: Scene, members: seq<string>, d: F.Defs, o: F.Outputs)
    requires SceneFits(l, a, m, c, members, d) && F.Fits(d, members, o) && Entered(a, c, members, o)
    ensures EnvFits(TaskContext(a, m, d), Environment(a, m, c, members, o))
  {
    hide Mem, Clean, Solid, Entered, OutputsNode, SelfNode, SelfValue, Stored, F.Fits;
    var root := TaskContext(a, m, d);
    OutputsFit(a, c, members, d, o);
    SolidPlain(root);
    assert Solid(SelfNode(a, m, d)) by { SolidProp(root, "self"); }
    SelfFits(a, m, c, members, d, o);
  }

  lemma SolidProp(n: Node, name: string)
    requires Solid(n) && n.types == ["object"] && name in PropsOf(n)
    ensures Solid(PropsOf(n)[name])
  {
    SolidPlain(n);
  }

  // Entered as the analysis says and over outputs that fit the definitions, a map evaluates to a
  // value of its inferred type, or one of its templates fails.
  lemma MapsAreSound(l: Language, maps: Maps, scenes: Scenes, members: seq<string>, d: F.Defs, o: F.Outputs, m: string, n: nat)
    requires WellTyped(l, maps, scenes, members, d) && F.Fits(d, members, o) && m in members && m in maps && InferOf(l, maps)(m, d).Ok?
    ensures EvalOf(l, maps, scenes, members)(m, o, n).Some? ==>
              Mem(InferOf(l, maps)(m, d).value, EvalOf(l, maps, scenes, members)(m, o, n).value)
    ensures EvalOf(l, maps, scenes, members)(m, o, n).None? && Entered(maps[m], scenes(m, n), members, o) ==>
              LeafFails(l, maps[m].shape, Environment(maps[m], m, scenes(m, n), members, o))
  {
    hide Mem, Clean, Solid, EnvFits, Entered, EvalShape, InferShape, LeafFails, Environment;
    var a, c := maps[m], scenes(m, n);
    if Entered(a, c, members, o) {
      EnvironmentFits(l, a, m, c, members, d, o);
      ShapesAreSound(l, a.shape, TaskContext(a, m, d), Environment(a, m, c, members, o));
    }
  }

  lemma InferenceIsSound(l: Language, maps: Maps, scenes: Scenes, members: seq<string>, d: F.Defs)
    requires WellTyped(l, maps, scenes, members, d)
    ensures F.SoundAt(InferOf(l, maps), EvalOf(l, maps, scenes, members), d, members)
  {
    hide Mem, WellTyped, F.Fits, Entered, EvalShape, InferShape, LeafFails, Environment;
    var infer, eval := InferOf(l, maps), EvalOf(l, maps, scenes, members);
    forall m, o, n: nat | m in members && F.Fits(d, members, o) && eval(m, o, n).Some? && infer(m, d).Ok?
      ensures Mem(infer(m, d).value, eval(m, o, n).value)
    {
      MapsAreSound(l, maps, scenes, members, d, o, m, n);
    }
  }

  // However often the loop goes round, and whatever its actions return, every output is in the type
  // the fixpoint accepted for it.
  lemma RecursiveOutputsStayTyped(less: C.Order, l: Language, maps: Maps, scenes: Scenes, members: seq<string>, d: F.Defs,
                                  outputs: seq<F.Outputs>, i: nat)
    requires StrictOrder(less) && F.Accepted(less, InferOf(l, maps), d, members)
    requires WellTyped(l, maps, scenes, members, F.Nullable(d, members))
    requires F.Iterates(EvalOf(l, maps, scenes, members), members, outputs) && i < |outputs|
    ensures forall m :: m in members && m in outputs[i] ==> Mem(d[m], outputs[i][m])
  {
    hide Mem, WellTyped, F.Accepted, F.Iterates, F.SoundAt, F.Nullable, StrictOrder;
    InferenceIsSound(l, maps, scenes, members, F.Nullable(d, members));
    F.AcceptedKnows(less, InferOf(l, maps), d, members);
    F.OutputsStayTyped(less, InferOf(l, maps), EvalOf(l, maps, scenes, members), d, members, outputs, i);
  }
}
