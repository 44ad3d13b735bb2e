/**
 JSON values that are countable: a number is the literal it is written as. Marshalling them to text
 loses nothing, so a codec that reads back what it writes exists.
 */
module JsonText {
  import opened Common

  datatype Json = Null | Bool(b: bool) | Number(literal: string) | Str(s: string) | Arr(items: seq<Json>) | Obj(fields: map<string, Json>)

  // Every character is marked, so the end is where the mark is missing.
  function Quote(s: string): string {
    if s == "" then "." else "'" + [s[0]] + Quote(s[1..])
  }

  lemma {:induction false} QuoteUnique(a: string, b: string, x: string, y: string)
    requires Quote(a) + x == Quote(b) + y
    ensures a == b && x == y
  {
    var p, q := Quote(a) + x, Quote(b) + y;
    assert p[0] == Quote(a)[0] && q[0] == Quote(b)[0];
    if a == "" {
      assert p == "." + x && q == "." + y;
      assert p[1..] == x && q[1..] == y;
    } else {
      assert p == "'" + [a[0]] + (Quote(a[1..]) + x) && q == "'" + [b[0]] + (Quote(b[1..]) + y);
      assert p[1] == a[0] && q[1] == b[0];
      assert p[2..] == Quote(a[1..]) + x && q[2..] == Quote(b[1..]) + y;
      QuoteUnique(a[1..], b[1..], x, y);
      assert a == [a[0]] + a[1..] && b == [b[0]] + b[1..];
    }
  }

  // The keys of an object in some order, the same for the same keys.
  ghost function Listing(ks: set<string>): (r: seq<string>)
    ensures forall k :: k in r <==> k in ks
  {
    if ks == {} then [] else
      var k :| k in ks;
      [k] + Listing(ks - {k})
  }

  ghost predicate Among(v: Json, xs: seq<Json>) {
    forall x :: x in xs ==> x < v
  }

  ghost function Marshal(v: Json): (t: string)
    ensures t != "" && t[0] in "ntf#'[{"
    decreases v, 1
  {
    match v
    case Null => "n"
    case Bool(b) => if b then "t" else "f"
    case Number(literal) => "#" + Quote(literal)
    case Str(s) => "'" + Quote(s)
    case Arr(items) => "[" + Elements(v, items)
    case Obj(fields) => "{" + Members(v, Listing(fields.Keys))
  }

  ghost function Elements(v: Json, xs: seq<Json>): (t: string)
    requires Among(v, xs)
    ensures t != "" && (t[0] == ']' <==> xs == [])
    decreases v, 0, |xs|
  {
    if xs == [] then "]" else
      assert xs[0] in xs;
      assert Among(v, xs[1..]) by { forall x | x in xs[1..] ensures x < v { assert x in xs; } }
      Marshal(xs[0]) + Elements(v, xs[1..])
  }

  ghost function Members(v: Json, ks: seq<string>): (t: string)
    requires v.Obj? && forall k :: k in ks ==> k in v.fields
    ensures t != "" && (t[0] == '}' <==> ks == [])
    decreases v, 0, |ks|
  {
    if ks == [] then "}" else
      assert ks[0] in ks;
      "'" + Quote(ks[0]) + Marshal(v.fields[ks[0]]) + Members(v, ks[1..])
  }

  // A text says where it ends: whatever follows it, only one value starts that way.
  lemma {:induction false} MarshalUnique(v: Json, w: Json, x: string, y: string)
    requires Marshal(v) + x == Marshal(w) + y
    ensures v == w && x == y
    decreases v, 1
  {
    hide Quote, Elements, Members, Listing;
    var p, q := Marshal(v) + x, Marshal(w) + y;
    assert p[0] == Marshal(v)[0] && q[0] == Marshal(w)[0];
    assert p[1..] == Marshal(v)[1..] + x && q[1..] == Marshal(w)[1..] + y;
    match v
    case Null =>
    case Bool(_) =>
    case Number(literal) => QuoteUnique(literal, w.literal, x, y);
    case Str(s) => QuoteUnique(s, w.s, x, y);
    case Arr(items) => ElementsUnique(v, items, w, w.items, x, y);
    case Obj(fields) =>
      MembersUnique(v, Listing(fields.Keys), w, Listing(w.fields.Keys), x, y);
      assert fields == w.fields;
  }

  lemma {:induction false} ElementsUnique(v: Json, xs: seq<Json>, w: Json, ys: seq<Json>, x: string, y: string)
    requires Among(v, xs) && Among(w, ys) && Elements(v, xs) + x == Elements(w, ys) + y
    ensures xs == ys && x == y
    decreases v, 0, |xs|
  {
    hide Marshal;
    var p, q := Elements(v, xs) + x, Elements(w, ys) + y;
    assert p[0] == Elements(v, xs)[0] && q[0] == Elements(w, ys)[0];
    if xs == [] {
      assert p[1..] == x && q[1..] == y;
    } else {
      assert xs[0] in xs && ys[0] in ys;
      assert Among(v, xs[1..]) by { forall z | z in xs[1..] ensures z < v { assert z in xs; } }
      assert Among(w, ys[1..]) by { forall z | z in ys[1..] ensures z < w { assert z in ys; } }
      var r, s := Elements(v, xs[1..]) + x, Elements(w, ys[1..]) + y;
      assert p == Marshal(xs[0]) + r && q == Marshal(ys[0]) + s;
      MarshalUnique(xs[0], ys[0], r, s);
      ElementsUnique(v, xs[1..], w, ys[1..], x, y);
      assert xs == [xs[0]] + xs[1..] && ys == [ys[0]] + ys[1..];
    }
  }

  lemma {:induction false} MembersUnique(v: Json, ks: seq<string>, w: Json, ls: seq<string>, x: string, y: string)
    requires v.Obj? && w.Obj? && (forall k :: k in ks ==> k in v.fields) && forall k :: k in ls ==> k in w.fields
    requires Members(v, ks) + x == Members(w, ls) + y
    ensures ks == ls && x == y && forall k :: k in ks ==> v.fields[k] == w.fields[k]
    decreases v, 0, |ks|
  {
    hide Marshal, Quote;
    var p, q := Members(v, ks) + x, Members(w, ls) + y;
    assert p[0] == Members(v, ks)[0] && q[0] == Members(w, ls)[0];
    if ks == [] {
      assert p[1..] == x && q[1..] == y;
    } else {
      assert ks[0] in ks && ls[0] in ls;
      var r, s := Members(v, ks[1..]) + x, Members(w, ls[1..]) + y;
      var r', s' := Marshal(v.fields[ks[0]]) + r, Marshal(w.fields[ls[0]]) + s;
      assert p == "'" + (Quote(ks[0]) + r') && q == "'" + (Quote(ls[0]) + s');
      assert p[1..] == Quote(ks[0]) + r' && q[1..] == Quote(ls[0]) + s';
      QuoteUnique(ks[0], ls[0], r', s');
      MarshalUnique(v.fields[ks[0]], w.fields[ls[0]], r, s);
      MembersUnique(v, ks[1..], w, ls[1..], x, y);
      assert ks == [ks[0]] + ks[1..] && ls == [ls[0]] + ls[1..];
    }
  }

  ghost function Unmarshal(t: string): Option<Json> {
    if exists v :: Marshal(v) == t then
      var v :| Marshal(v) == t;
      Some(v)
    else None
  }

  lemma ReadsBack(v: Json)
    ensures Unmarshal(Marshal(v)) == Some(v)
  {
    forall w | Marshal(w) == Marshal(v) ensures w == v {
      assert Marshal(w) + "" == Marshal(v) + "";
      MarshalUnique(w, v, "", "");
    }
  }
}
