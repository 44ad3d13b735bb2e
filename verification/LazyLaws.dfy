/** What is read, what is collected and how a template falls into pieces, without the evaluator. */
module LazyLaws {
  import opened Common
  import opened Expression
  import opened LazyContext

  // --- the whole context ---

  // With every root asked for, each name reads what its slot holds, loaded.
  lemma EagerReads(c: Context, store: Store, marker: Datum, id: string)
    ensures var env := EnvFor(c, ALL_ROOTS, store, marker);
            && env.Keys == {"self", "config", "input", "error", "outputs"}
            && env["input"] == Load(store, c.input) && env["error"] == Load(store, c.error) && env["config"] == VObj(c.config)
            && env["outputs"].VObj? && env["outputs"].fields.Keys == c.outputs.Keys
            && (id in c.outputs ==> env["outputs"].fields[id] == Load(store, c.outputs[id]))
            && (c.self.NoSelf? ==> env["self"] == VNull)
            && (c.self.Self? ==>
                  var previous := if c.self.previous.Some? then Load(store, c.self.previous.value) else VNull;
                  env["self"] == VObj(c.self.fields["previous" := previous]))
    ensures forall v :: Load(store, Here(v)) == v
    ensures forall h :: Load(store, Away(h)) == store(h)
  {
  }

  // Nothing is loaded that was not asked for: whatever the store would answer under any other hash,
  // the scope is the same.
  lemma LoadsOnlyAsked(c: Context, roots: Roots, store: Store, store': Store, marker: Datum)
    requires roots.input && c.input.Away? ==> store(c.input.hash) == store'(c.input.hash)
    requires roots.error && c.error.Away? ==> store(c.error.hash) == store'(c.error.hash)
    requires forall id :: id in c.outputs && c.outputs[id].Away? && (roots.allOutputs || id in roots.outputs) ==>
               store(c.outputs[id].hash) == store'(c.outputs[id].hash)
    requires roots.selfPrevious && c.self.Self? && c.self.previous.Some? && c.self.previous.value.Away? ==>
               store(c.self.previous.value.hash) == store'(c.self.previous.value.hash)
    ensures EnvFor(c, roots, store, marker) == EnvFor(c, roots, store', marker)
  {
    var a, b := Outputs(c, roots, store), Outputs(c, roots, store');
    assert a.Keys == b.Keys;
    assert forall id :: id in a ==> a[id] == b[id];
    assert a == b;
  }

  // --- what is collected ---

  // s stands somewhere in e; the name and the field of outputs.<id> or self.previous stand there as
  // one thing, not on their own.
  predicate Named(s: Expr, e: Expr) {
    || e == s
    || match e
       case Member(base, prop) => !IsOutputRef(e) && !IsSelfPrevious(e) && (Named(s, base) || Named(s, prop))
       case Binary(_, left, right) => Named(s, left) || Named(s, right)
       case Unary(_, operand) => Named(s, operand)
       case Cond(cond, yes, no) => Named(s, cond) || Named(s, yes) || Named(s, no)
       case _ => false
  }

  // A root is collected exactly when the expression names it.
  lemma {:induction false} CollectsExactly(e: Expr)
    ensures Collect(e).input <==> Named(Ident("input"), e)
    ensures Collect(e).error <==> Named(Ident("error"), e)
    ensures Collect(e).allOutputs <==> Named(Ident("outputs"), e)
    decreases e
  {
    match e
    case Member(base, prop) =>
      if !IsOutputRef(e) && !IsSelfPrevious(e) {
        CollectsExactly(base);
        CollectsExactly(prop);
      }
    case Binary(_, left, right) =>
      CollectsExactly(left);
      CollectsExactly(right);
    case Unary(_, operand) => CollectsExactly(operand);
    case Cond(cond, yes, no) =>
      CollectsExactly(cond);
      CollectsExactly(yes);
      CollectsExactly(no);
    case _ =>
  }

  lemma {:induction false} CollectsOutputs(e: Expr, id: string)
    requires id != ""
    ensures Collect(e).selfPrevious <==> Named(Member(Ident("self"), StrLit("previous")), e)
    ensures id in Collect(e).outputs <==> Named(Member(Ident("outputs"), StrLit(id)), e)
    decreases e
  {
    match e
    case Member(base, prop) =>
      if !IsOutputRef(e) && !IsSelfPrevious(e) {
        CollectsOutputs(base, id);
        CollectsOutputs(prop, id);
        NotNamed(e, id);
      }
    case Binary(_, left, right) =>
      CollectsOutputs(left, id);
      CollectsOutputs(right, id);
    case Unary(_, operand) => CollectsOutputs(operand, id);
    case Cond(cond, yes, no) =>
      CollectsOutputs(cond, id);
      CollectsOutputs(yes, id);
      CollectsOutputs(no, id);
    case _ =>
  }

  lemma NotNamed(e: Expr, id: string)
    requires id != "" && e.Member? && !IsOutputRef(e) && !IsSelfPrevious(e)
    ensures e != Member(Ident("outputs"), StrLit(id)) && e != Member(Ident("self"), StrLit("previous"))
  {
    assert IsOutputRef(Member(Ident("outputs"), StrLit(id)));
  }

  // --- templates ---

  predicate TwiceAt(s: string, c: char, i: int) {
    0 <= i && i + 2 <= |s| && s[i] == c && s[i + 1] == c
  }

  ghost predicate Free(s: string, c: char) {
    forall i :: !TwiceAt(s, c, i)
  }

  lemma {:induction false} FindsFirst(s: string, c: char)
    ensures Find(s, c) >= 0 ==> TwiceAt(s, c, Find(s, c)) && forall j :: 0 <= j < Find(s, c) ==> !TwiceAt(s, c, j)
    ensures Find(s, c) < 0 ==> Free(s, c)
  {
    if |s| >= 2 && !(s[0] == c && s[1] == c) {
      FindsFirst(s[1..], c);
      forall j | TwiceAt(s, c, j) ensures j > 0 && TwiceAt(s[1..], c, j - 1) { }
    }
  }

  // A template is one block exactly when it is a text between a pair of braces with no pair inside.
  lemma SingleIs(s: string, t: string)
    ensures Single(s) == Some(t) <==> s == "{{" + t + "}}" && Free(t, '{') && Free(t, '}')
  {
    if |s| >= 4 {
      var inner := s[2..|s| - 2];
      FindsFirst(inner, '{');
      FindsFirst(inner, '}');
      assert s == s[..2] + inner + s[|s| - 2..];
    }
    if s == "{{" + t + "}}" { assert s[2..|s| - 2] == t && s[..2] == "{{" && s[|s| - 2..] == "}}"; }
  }

  // The text the pieces came from.
  function Rejoin(ps: seq<Piece>): string {
    if ps == [] then ""
    else (match ps[0]
          case Lit(text) => text
          case Block(text) => "{{" + text + "}}"
          case Unclosed => "{{") + Rejoin(ps[1..])
  }

  ghost predicate WellCut(p: Piece) {
    match p
    case Lit(text) => Free(text, '{')
    case Block(text) => Free(text, '}')
    case Unclosed => true
  }

  // Cut at every first opening pair and the first closing pair after it, a template loses nothing: its
  // pieces make it up again, up to what follows a pair that is never closed.
  lemma {:induction false} PiecesRejoin(s: string) returns (rest: string)
    ensures s == Rejoin(Pieces(s)) + rest
    ensures rest != "" ==> Pieces(s)[|Pieces(s)| - 1].Unclosed? && Free(rest, '}')
    ensures Pieces(s) != [] && forall p :: p in Pieces(s) ==> WellCut(p)
    decreases |s|
  {
    hide Find, Free, Rejoin, Single;
    FindsFirst(s, '{');
    var start := Find(s, '{');
    if start < 0 {
      rest := "";
      OnePiece(Lit(s));
      assert s + "" == s;
    } else {
      var tail := s[start + 2..];
      FindsFirst(tail, '}');
      var end := Find(tail, '}');
      assert s == s[..start] + "{{" + tail;
      FreeBefore(s, '{', start);
      if end < 0 {
        rest := tail;
        OnePiece(Unclosed);
        FirstPiece(Lit(s[..start]), [Unclosed]);
        assert Pieces(s) == [Lit(s[..start])] + [Unclosed];
        OnePiece(Lit(s[..start]));
      } else {
        rest := PiecesRejoin(tail[end + 2..]);
        assert tail == tail[..end] + "}}" + tail[end + 2..];
        FreeBefore(tail, '}', end);
        var more := Pieces(tail[end + 2..]);
        FirstPiece(Block(tail[..end]), more);
        FirstPiece(Lit(s[..start]), [Block(tail[..end])] + more);
        assert Pieces(s) == [Lit(s[..start])] + ([Block(tail[..end])] + more);
        OnePiece(Lit(s[..start]));
        OnePiece(Block(tail[..end]));
        Rebuilt(s, s[..start], tail, tail[..end], tail[end + 2..], Rejoin(more), rest);
      }
    }
  }

  lemma Rebuilt(s: string, a: string, tail: string, b: string, last: string, more: string, rest: string)
    requires s == a + "{{" + tail && tail == b + "}}" + last && last == more + rest
    ensures s == (a + (("{{" + b + "}}") + more)) + rest
  {
  }

  lemma FreeBefore(s: string, c: char, i: nat)
    requires i <= |s| && forall j :: 0 <= j < i ==> !TwiceAt(s, c, j)
    ensures Free(s[..i], c)
  {
    forall j ensures !TwiceAt(s[..i], c, j) { assert TwiceAt(s[..i], c, j) ==> TwiceAt(s, c, j); }
  }

  lemma OnePiece(p: Piece)
    ensures Rejoin([p]) == match p case Lit(text) => text case Block(text) => "{{" + text + "}}" case Unclosed => "{{"
  {
    assert [p][1..] == [];
  }

  lemma FirstPiece(p: Piece, ps: seq<Piece>)
    ensures Rejoin([p] + ps) == Rejoin([p]) + Rejoin(ps)
  {
    OnePiece(p);
    assert ([p] + ps)[1..] == ps && ([p] + ps)[0] == p;
  }

  // Literal text renders as itself, a block as the text of its value; together, one after the other.
  lemma {:induction false} RenderJoins(l: Language, ps: seq<Piece>, qs: seq<Piece>, env: Env)
    ensures Render(l, ps, env).Val? ==> Render(l, ps + qs, env) == Prepend(Render(l, ps, env).v.s, Render(l, qs, env))
    ensures !Render(l, ps, env).Val? ==> Render(l, ps + qs, env) == Render(l, ps, env)
    decreases |ps|
  {
    hide Eval, PieceText;
    if ps == [] {
      assert ps + qs == qs;
    } else {
      assert (ps + qs)[0] == ps[0] && (ps + qs)[1..] == ps[1..] + qs;
      RenderJoins(l, ps[1..], qs, env);
    }
  }

  lemma PieceRenders(l: Language, text: string, e: Expr, v: Datum, shown: string, env: Env)
    requires l.parse(text) == Some(e) && Eval(e, env) == Val(v) && l.show(v) == Some(shown)
    ensures Render(l, [Lit(text)], env) == Val(VStr(text))
    ensures Render(l, [Block(text)], env) == Val(VStr(shown))
    ensures Render(l, [Unclosed], env) == Failed
  {
    hide Eval;
    assert [Lit(text)][1..] == [] && [Block(text)][1..] == [] && [Unclosed][1..] == [];
  }

  // A template that is one block has the value of its expression, of whatever type; one without a
  // block is its own text.
  lemma TemplateMeans(l: Language, s: string, t: string, e: Expr, env: Env)
    ensures s == "{{" + t + "}}" && Free(t, '{') && Free(t, '}') && l.parse(t) == Some(e) ==> EvalTemplate(l, s, env) == Eval(e, env)
    ensures Free(s, '{') ==> EvalTemplate(l, s, env) == Val(VStr(s))
  {
    hide Eval;
    SingleIs(s, t);
    if Free(s, '{') {
      FindsFirst(s, '{');
      assert Find(s, '{') < 0;
      assert !TwiceAt(s, '{', 0);
      if |s| >= 4 { assert s[..2][0] == s[0] && s[..2][1] == s[1]; }
      assert Single(s).None?;
      assert [Lit(s)][1..] == [] && s + "" == s;
      assert Pieces(s) == [Lit(s)];
      assert Render(l, [], env) == Val(VStr(""));
      assert Render(l, [Lit(s)], env) == Prepend(s, Render(l, [], env));
    }
  }
}
