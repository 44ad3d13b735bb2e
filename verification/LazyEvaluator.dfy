/**
 The engine's evaluator: markers loaded once and remembered, the environment built for the
 roots a shape names, and templates scanned block by block. Evaluating a shape this way gives
 what evaluating it with every slot resolved would give.
 */
module LazyEvaluator {
  import opened Common
  import opened Expression
  import opened LazyContext

  // --- templates ---

  lemma RenderStep(l: Language, p: Piece, ps: seq<Piece>, env: Env)
    ensures var o := PieceText(l, p, env);
            Render(l, [p] + ps, env) == if o.Val? then Prepend(o.v.s, Render(l, ps, env)) else o
  {
    hide PieceText;
    assert ([p] + ps)[1..] == ps;
  }

  lemma TwoAndMore(a: Piece, b: Piece, more: seq<Piece>)
    ensures [a, b] + more == [a] + ([b] + more)
  {
  }

  lemma PiecesUnfold(s: string)
    ensures var start := Find(s, '{');
            start >= 0 ==>
              var tail := s[start + 2..];
              var end := Find(tail, '}');
              end >= 0 ==> Pieces(s) == [Lit(s[..start]), Block(tail[..end])] + Pieces(tail[end + 2..])
  {
    hide Find;
  }

  lemma PiecesBlock(s: string, start: nat, end: nat)
    requires start == Find(s, '{') && end == Find(s[start + 2..], '}')
    ensures var tail := s[start + 2..];
            Pieces(s) == [Lit(s[..start])] + ([Block(tail[..end])] + Pieces(tail[end + 2..]))
  {
    hide Find;
    var tail := s[start + 2..];
    var more := Pieces(tail[end + 2..]);
    PiecesUnfold(s);
    TwoAndMore(Lit(s[..start]), Block(tail[..end]), more);
  }

  lemma RenderBlock(l: Language, s: string, start: nat, end: nat, env: Env)
    requires start == Find(s, '{') && end == Find(s[start + 2..], '}')
    ensures var tail := s[start + 2..];
            Render(l, Pieces(s), env) == Prepend(s[..start], Render(l, [Block(tail[..end])] + Pieces(tail[end + 2..]), env))
  {
    hide Render, Pieces, BlockText, Find, Prepend;
    var tail := s[start + 2..];
    PiecesBlock(s, start, end);
    RenderStep(l, Lit(s[..start]), [Block(tail[..end])] + Pieces(tail[end + 2..]), env);
  }

  lemma PrependTwice(a: string, b: string, o: Outcome)
    ensures Prepend(a, Prepend(b, o)) == Prepend(a + b, o)
  {
    if o.Val? && o.v.VStr? { assert a + (b + o.v.s) == (a + b) + o.v.s; }
  }

  lemma PrependNothing(o: Outcome)
    ensures Prepend("", o) == o
  {
    if o.Val? && o.v.VStr? { assert "" + o.v.s == o.v.s; }
  }

  lemma RenderLast(l: Language, s: string, env: Env)
    requires Find(s, '{') < 0
    ensures Render(l, Pieces(s), env) == Val(VStr(s))
  {
    RenderStep(l, Lit(s), [], env);
    assert s + "" == s;
  }

  lemma RenderUnclosed(l: Language, s: string, start: nat, env: Env)
    requires start == Find(s, '{') && Find(s[start + 2..], '}') < 0
    ensures Render(l, Pieces(s), env) == Failed
  {
    assert Pieces(s) == [Lit(s[..start])] + [Unclosed];
    RenderStep(l, Lit(s[..start]), [Unclosed], env);
    RenderStep(l, Unclosed, [], env);
  }

  method EvalMixed(l: Language, s: string, env: Env) returns (r: Outcome)
    ensures r == Render(l, Pieces(s), env)
  {
    hide Render, Pieces;
    var result := "";
    var rest := s;
    PrependNothing(Render(l, Pieces(s), env));
    while true
      invariant Render(l, Pieces(s), env) == Prepend(result, Render(l, Pieces(rest), env))
      decreases |rest|
    {
      var start := Find(rest, '{');
      if start < 0 {
        RenderLast(l, rest, env);
        return Val(VStr(result + rest));
      }
      var tail := rest[start + 2..];
      var end := Find(tail, '}');
      if end < 0 {
        RenderUnclosed(l, rest, start, env);
        return Failed;
      }
      RenderBlock(l, rest, start, end, env);
      RenderStep(l, Block(tail[..end]), Pieces(tail[end + 2..]), env);
      var e := l.parse(tail[..end]);
      if e.None? { return Failed; }
      var v := Eval(e.value, env);
      if !v.Val? { return v; }
      var t := l.show(v.v);
      if t.None? { return Failed; }
      PrependTwice(rest[..start], t.value, Render(l, Pieces(tail[end + 2..]), env));
      PrependTwice(result, rest[..start] + t.value, Render(l, Pieces(tail[end + 2..]), env));
      result := result + (rest[..start] + t.value);
      rest := tail[end + 2..];
    }
  }

  method EvalAny(l: Language, s: string, env: Env) returns (r: Outcome)
    ensures r == EvalTemplate(l, s, env)
  {
    var single := Single(s);
    if single.Some? {
      var e := l.parse(single.value);
      if e.None? { return Failed; }
      return Eval(e.value, env);
    }
    if Find(s, '{') < 0 {
      RenderLast(l, s, env);
      return Val(VStr(s));
    }
    r := EvalMixed(l, s, env);
  }

  lemma RootsStep(l: Language, s: string, start: nat, end: nat)
    requires start == Find(s, '{') && end == Find(s[start + 2..], '}')
    ensures var tail := s[start + 2..];
            var e, rest := l.parse(tail[..end]), PieceRoots(l, Pieces(tail[end + 2..]));
            PieceRoots(l, Pieces(s)) == if e.None? || rest.None? then None else Some(Union(Collect(e.value), rest.value))
  {
    hide Collect, Find, Pieces;
    var tail := s[start + 2..];
    PiecesBlock(s, start, end);
    LitRoots(l, s[..start], [Block(tail[..end])] + Pieces(tail[end + 2..]));
    BlockRoots(l, tail[..end], Pieces(tail[end + 2..]));
  }

  lemma LitRoots(l: Language, text: string, more: seq<Piece>)
    ensures PieceRoots(l, [Lit(text)] + more) == PieceRoots(l, more)
  {
    assert ([Lit(text)] + more)[1..] == more;
  }

  lemma BlockRoots(l: Language, text: string, more: seq<Piece>)
    ensures var e, rest := l.parse(text), PieceRoots(l, more);
            PieceRoots(l, [Block(text)] + more) == if e.None? || rest.None? then None else Some(Union(Collect(e.value), rest.value))
  {
    hide Collect;
    assert ([Block(text)] + more)[1..] == more;
  }

  lemma RootsEnd(l: Language, s: string)
    requires Find(s, '{') < 0 || Find(s[Find(s, '{') + 2..], '}') < 0
    ensures PieceRoots(l, Pieces(s)) == Some(NO_ROOTS)
  {
    hide Collect;
    var ps := Pieces(s);
    if Find(s, '{') >= 0 {
      assert ps == [Lit(s[..Find(s, '{')]), Unclosed];
      assert ps[1..] == [Unclosed] && ps[1..][1..] == [];
      assert PieceRoots(l, ps[1..]) == Some(NO_ROOTS);
    } else {
      assert ps == [Lit(s)] && ps[1..] == [];
    }
  }

  lemma UnionNone(a: Roots)
    ensures Union(a, NO_ROOTS) == a && Union(NO_ROOTS, a) == a
  {
  }

  lemma UnionAssociates(a: Roots, b: Roots, c: Roots)
    ensures Union(Union(a, b), c) == Union(a, Union(b, c))
  {
  }

  method RootRefs(l: Language, s: string) returns (r: Option<Roots>)
    ensures r == TemplateRoots(l, s)
  {
    hide Collect, Union, Pieces, PieceRoots;
    var single := Single(s);
    if single.Some? {
      var e := l.parse(single.value);
      return if e.None? then None else Some(Collect(e.value));
    }
    var out := NO_ROOTS;
    var rest := s;
    if PieceRoots(l, Pieces(s)).Some? { UnionNone(PieceRoots(l, Pieces(s)).value); }
    while true
      invariant PieceRoots(l, Pieces(s)) ==
        if PieceRoots(l, Pieces(rest)).None? then None else Some(Union(out, PieceRoots(l, Pieces(rest)).value))
      decreases |rest|
    {
      var start := Find(rest, '{');
      if start < 0 { break; }
      var tail := rest[start + 2..];
      var end := Find(tail, '}');
      if end < 0 { break; }
      RootsStep(l, rest, start, end);
      var e := l.parse(tail[..end]);
      if e.None? { return None; }
      var more := PieceRoots(l, Pieces(tail[end + 2..]));
      if more.Some? { UnionAssociates(out, Collect(e.value), more.value); }
      out := Union(out, Collect(e.value));
      rest := tail[end + 2..];
    }
    RootsEnd(l, rest);
    UnionNone(out);
    return Some(out);
  }

  // --- shapes ---

  lemma CoversMore(a: Roots, b: Roots, c: Roots)
    requires Covers(a, b) && Covers(b, c)
    ensures Covers(a, c)
  {
  }

  lemma {:induction false} ShapeCoveredMore(l: Language, sh: Shape, a: Roots, b: Roots)
    requires ShapeCovered(l, sh, b) && Covers(a, b)
    ensures ShapeCovered(l, sh, a)
    decreases sh
  {
    hide TemplateRoots, Covers;
    match sh
    case Leaf(t) => CoversMore(a, b, TemplateRoots(l, t).value);
    case Object(fields) =>
      forall k | k in fields ensures ShapeCovered(l, fields[k], a) { ShapeCoveredMore(l, fields[k], a, b); }
  }

  lemma UnionCovers(a: Roots, b: Roots)
    ensures Covers(Union(a, b), a) && Covers(Union(a, b), b)
  {
  }

  // The roots of every leaf, or None when some leaf does not parse.
  method ShapeRoots(l: Language, sh: Shape) returns (r: Option<Roots>)
    ensures r.Some? <==> ShapeParses(l, sh)
    ensures r.Some? ==> ShapeCovered(l, sh, r.value)
    decreases sh
  {
    hide TemplateRoots, Covers, Union;
    match sh {
      case Leaf(t) =>
        r := RootRefs(l, t);
        if r.Some? { CoversSelf(r.value); }
      case Object(fields) =>
        var out := NO_ROOTS;
        var todo := fields.Keys;
        while todo != {}
          invariant todo <= fields.Keys
          invariant forall k :: k in fields && k !in todo ==> ShapeParses(l, fields[k]) && ShapeCovered(l, fields[k], out)
          decreases |todo|
        {
          var k :| k in todo;
          var one := ShapeRoots(l, fields[k]);
          if one.None? { return None; }
          todo := todo - {k};
          UnionCovers(out, one.value);
          forall j | j in fields && j !in todo ensures ShapeCovered(l, fields[j], Union(out, one.value)) {
            ShapeCoveredMore(l, fields[j], Union(out, one.value), if j == k then one.value else out);
          }
          out := Union(out, one.value);
        }
        return Some(out);
    }
  }

  lemma CoversSelf(a: Roots)
    ensures Covers(a, a)
  {
  }

  // --- one advance ---

  class Evaluator {
    const lang: Language
    const store: Store
    var resolved: map<string, Datum>

    ghost predicate Valid()
      reads this
    {
      forall h :: h in resolved ==> resolved[h] == store(h)
    }

    constructor (l: Language, s: Store)
      ensures Valid() && lang == l && store == s && resolved == map[]
    {
      lang, store, resolved := l, s, map[];
    }

    // A marker is loaded at most once in an advance.
    method ResolveValue(h: Held) returns (v: Datum)
      requires Valid()
      modifies this
      ensures Valid() && v == Load(store, h)
      ensures resolved == if h.Here? then old(resolved) else old(resolved)[h.hash := store(h.hash)]
    {
      match h {
        case Here(x) => return x;
        case Away(hash) =>
          if hash in resolved { return resolved[hash]; }
          v := store(hash);
          resolved := resolved[hash := v];
      }
    }

    method BuildSelf(c: Context, roots: Roots, marker: Datum) returns (v: Datum)
      requires Valid()
      modifies this
      ensures Valid() && v == SelfValue(c, roots, store, marker)
    {
      match c.self {
        case NoSelf => return VNull;
        case Self(fields, previous) =>
          if roots.selfPrevious {
            var prev := VNull;
            if previous.Some? { prev := ResolveValue(previous.value); }
            return VObj(fields["previous" := prev]);
          }
          if previous.Some? { return VObj(fields["previous" := Unloaded(previous.value, marker)]); }
          return VObj(fields);
      }
    }

    method Include(h: Held, referenced: bool) returns (v: Datum)
      requires Valid()
      modifies this
      ensures Valid() && v == Slot(h, referenced, store)
    {
      if h.Away? && !referenced { return VNull; }
      v := ResolveValue(h);
    }

    // marker is what an unloaded previous output is in the environment.
    method BuildEnv(c: Context, roots: Roots, marker: Datum) returns (env: Env)
      requires Valid()
      modifies this
      ensures Valid() && env == EnvFor(c, roots, store, marker)
    {
      hide SelfValue, Load, Slot;
      var self := BuildSelf(c, roots, marker);
      var input := Include(c.input, roots.input);
      var error := Include(c.error, roots.error);
      var outs: map<string, Datum> := map[];
      var todo := c.outputs.Keys;
      while todo != {}
        invariant Valid() && todo <= c.outputs.Keys
        invariant forall id :: id in outs <==> id in c.outputs && id !in todo && (c.outputs[id].Here? || roots.allOutputs || id in roots.outputs)
        invariant forall id :: id in outs ==> outs[id] == Load(store, c.outputs[id])
        decreases |todo|
      {
        var id :| id in todo;
        todo := todo - {id};
        if c.outputs[id].Here? || roots.allOutputs || id in roots.outputs {
          var v := ResolveValue(c.outputs[id]);
          outs := outs[id := v];
        }
      }
      assert outs == Outputs(c, roots, store);
      env := map["self" := self, "config" := VObj(c.config), "input" := input, "error" := error, "outputs" := VObj(outs)];
    }

    method EvalShapeNode(sh: Shape, env: Env) returns (r: Option<Datum>)
      ensures r == EvalShape(lang, sh, env)
      decreases sh
    {
      match sh {
        case Leaf(t) =>
          var o := EvalAny(lang, t, env);
          return if o.Val? then Some(o.v) else None;
        case Object(fields) =>
          hide EvalTemplate;
          var out: map<string, Datum> := map[];
          var todo := fields.Keys;
          while todo != {}
            invariant todo <= fields.Keys && out.Keys == fields.Keys - todo
            invariant forall k :: k in out ==> EvalShape(lang, fields[k], env) == Some(out[k])
            decreases |todo|
          {
            var k :| k in todo;
            var v := EvalShapeNode(fields[k], env);
            if v.None? { return None; }
            todo := todo - {k};
            out := out[k := v.value];
          }
          assert EvalShape(lang, sh, env).Some? && EvalShape(lang, sh, env).value.fields == out;
          return Some(VObj(out));
      }
    }

    // Lazily, but as if every slot had been loaded.
    method EvalShapeCtx(sh: Shape, c: Context, marker: Datum) returns (r: Option<Datum>)
      requires Valid() && PlainSelf(c) && ShapeByField(lang, sh)
      modifies this
      ensures Valid() && r == EvalShape(lang, sh, EnvFor(c, ALL_ROOTS, store, marker))
    {
      hide EnvFor, EvalShape, ShapeByField, ShapeCovered, ShapeParses;
      var roots := ShapeRoots(lang, sh);
      if roots.None? {
        UnparsedHasNoValue(lang, sh, EnvFor(c, ALL_ROOTS, store, marker));
        return None;
      }
      var env := BuildEnv(c, roots.value, marker);
      ShapeAgrees(lang, sh, c, roots.value, store, marker);
      r := EvalShapeNode(sh, env);
    }
  }
}
