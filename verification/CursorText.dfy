/**
 The text of a pagination cursor: a JSON object in an opaque encoding, its numbers kept as the
 literals they are written as, read back value by value against the kinds of the key columns.
 */
module CursorText {
  import opened Common
  import opened Pagination
  import J = JsonText

  // --- decimal literals ---

  const DIGITS := "0123456789"

  function Digits(n: nat): (s: string)
    ensures s != "" && s[0] != '-' && forall c :: c in s ==> c in DIGITS
  {
    if n < 10 then [DIGITS[n]] else Digits(n / 10) + [DIGITS[n % 10]]
  }

  function Decimal(i: int): string {
    if i < 0 then "-" + Digits(-i) else Digits(i)
  }

  function DigitValue(c: char): Option<nat> {
    if '0' <= c <= '9' then Some((c as int) - ('0' as int)) else None
  }

  function NatOf(s: string): Option<nat> {
    if s == "" then None
    else
      var last := DigitValue(s[|s| - 1]);
      if last.None? then None
      else if |s| == 1 then last
      else match NatOf(s[..|s| - 1])
        case None => None
        case Some(n) => Some(10 * n + last.value)
  }

  const LIMIT := 0x8000_0000_0000_0000

  // A number literal read as an int64; fractions, exponents and overflow are refused.
  function Int64(literal: string): Option<int> {
    var negative := literal != "" && literal[0] == '-';
    match NatOf(if negative then literal[1..] else literal)
    case None => None
    case Some(n) =>
      var i: int := if negative then 0 - n else n;
      if -LIMIT <= i < LIMIT then Some(i) else None
  }

  lemma DigitReads(n: nat)
    requires n < 10
    ensures DigitValue(DIGITS[n]) == Some(n)
  {
  }

  lemma {:induction false} DigitsRead(n: nat)
    ensures NatOf(Digits(n)) == Some(n)
  {
    DigitReads(n % 10);
    if n >= 10 {
      var s := Digits(n);
      assert s[..|s| - 1] == Digits(n / 10) && s[|s| - 1] == DIGITS[n % 10];
      DigitsRead(n / 10);
    }
  }

  lemma DecimalReads(i: int)
    requires -LIMIT <= i < LIMIT
    ensures Int64(Decimal(i)) == Some(i)
  {
    DigitsRead(if i < 0 then -i else i);
    if i < 0 { assert Decimal(i)[1..] == Digits(-i); }
  }

  // --- the token as JSON ---

  datatype Codec = Codec(encode: J.Json -> string, decode: string -> Option<J.Json>)

  ghost predicate Lossless(c: Codec) {
    forall v {:trigger c.encode(v)} :: c.decode(c.encode(v)) == Some(v)
  }

  lemma SomeLossless() returns (c: Codec)
    ensures Lossless(c)
  {
    c := Codec(J.Marshal, J.Unmarshal);
    forall v ensures c.decode(c.encode(v)) == Some(v) { J.ReadsBack(v); }
  }

  function JsonVal(v: Val): J.Json {
    match v
    case Num(n) => J.Number(Decimal(n))
    case Text(s) => J.Str(s)
  }

  function EncodeCursor(c: Codec, t: Token): string {
    c.encode(J.Obj(map["k" := J.Str(t.sort), "d" := J.Bool(t.desc), "v" := J.Arr(seq(|t.vals|, i requires 0 <= i < |t.vals| => JsonVal(t.vals[i])))]))
  }

  // One column value against its kind.
  function Coerce(kind: Kind, j: J.Json): Option<Val> {
    match kind
    case KindInt =>
      if j.Number? then
        match Int64(j.literal)
        case Some(i) => Some(Num(i))
        case None => None
      else None
    case KindText => if j.Str? then Some(Text(j.s)) else None
  }

  function CoerceAll(mode: seq<Kind>, vs: seq<J.Json>): Option<Key>
    requires |vs| == |mode|
  {
    if mode == [] then Some([])
    else match Coerce(mode[0], vs[0])
      case None => None
      case Some(v) =>
        match CoerceAll(mode[1..], vs[1..])
        case None => None
        case Some(rest) => Some([v] + rest)
  }

  // An absent field, like null, reads as its zero value; a field of another type spoils the token.
  function Parts(j: J.Json): Option<(string, bool, seq<J.Json>)> {
    if !j.Obj? then None
    else
      var k := if "k" in j.fields && j.fields["k"] != J.Null then j.fields["k"] else J.Str("");
      var d := if "d" in j.fields && j.fields["d"] != J.Null then j.fields["d"] else J.Bool(false);
      var v := if "v" in j.fields && j.fields["v"] != J.Null then j.fields["v"] else J.Arr([]);
      if k.Str? && d.Bool? && v.Arr? then Some((k.s, d.b, v.items)) else None
  }

  function DecodeText(c: Codec, text: string, sort: string, desc: bool, mode: seq<Kind>): Result<Key> {
    match c.decode(text)
    case None => Err("invalid cursor")
    case Some(j) =>
      match Parts(j)
      case None => Err("invalid cursor")
      case Some((k, d, vs)) =>
        if k != sort || d != desc then Err("cursor does not match the requested sort")
        else if |vs| != |mode| then Err("invalid cursor")
        else match CoerceAll(mode, vs)
          case None => Err("invalid cursor")
          case Some(key) => Ok(key)
  }

  function Onto(key: Key, rest: Option<Key>): Option<Key> {
    if rest.None? then None else Some(key + rest.value)
  }

  // The loop of the decoder, column by column.
  method DecodeColumns(mode: seq<Kind>, vs: seq<J.Json>) returns (out: Option<Key>)
    requires |vs| == |mode|
    ensures out == CoerceAll(mode, vs)
  {
    var key: Key := [];
    assert mode[0..] == mode && vs[0..] == vs;
    assert Onto([], CoerceAll(mode, vs)) == CoerceAll(mode, vs) by {
      if CoerceAll(mode, vs).Some? { assert [] + CoerceAll(mode, vs).value == CoerceAll(mode, vs).value; }
    }
    for i := 0 to |mode|
      invariant CoerceAll(mode, vs) == Onto(key, CoerceAll(mode[i..], vs[i..]))
    {
      assert mode[i..][1..] == mode[i + 1..] && vs[i..][1..] == vs[i + 1..];
      var v := Coerce(mode[i], vs[i]);
      if v.None? { return None; }
      ghost var rest := CoerceAll(mode[i + 1..], vs[i + 1..]);
      if rest.Some? { assert key + ([v.value] + rest.value) == key + [v.value] + rest.value; }
      key := key + [v.value];
    }
    assert mode[|mode|..] == [];
    assert key + [] == key;
    return Some(key);
  }

  // --- reading back ---

  predicate Storable(v: Val) {
    v.Num? ==> -LIMIT <= v.n < LIMIT
  }

  lemma {:induction false} CoerceReads(mode: seq<Kind>, vals: Key, vs: seq<J.Json>)
    requires |mode| == |vals| == |vs| && forall i :: 0 <= i < |vals| ==> Storable(vals[i]) && vs[i] == JsonVal(vals[i])
    ensures CoerceAll(mode, vs) == if Keyed(mode, vals) then Some(vals) else None
  {
    if mode != [] {
      if vals[0].Num? { DecimalReads(vals[0].n); }
      CoerceReads(mode[1..], vals[1..], vs[1..]);
      assert vals == [vals[0]] + vals[1..];
      if Keyed(mode, vals) {
        assert Keyed(mode[1..], vals[1..]);
      } else if Keyed(mode[1..], vals[1..]) {
        assert forall i :: 1 <= i < |mode| ==> vals[i] == vals[1..][i - 1] && mode[i] == mode[1..][i - 1];
      }
    }
  }

  // A minted cursor is read back as the key it was minted from under its own sort and direction,
  // and refused under any other; read against other columns it is accepted only if they fit.
  lemma CursorReadsBack(c: Codec, t: Token, sort: string, desc: bool, mode: seq<Kind>)
    requires Lossless(c) && forall i :: 0 <= i < |t.vals| ==> Storable(t.vals[i])
    ensures DecodeText(c, EncodeCursor(c, t), sort, desc, mode) == DecodeCursor(t, sort, desc, mode)
    ensures Keyed(mode, t.vals) ==> (DecodeText(c, EncodeCursor(c, t), sort, desc, mode) == Ok(t.vals) <==> sort == t.sort && desc == t.desc)
  {
    var vs := seq(|t.vals|, i requires 0 <= i < |t.vals| => JsonVal(t.vals[i]));
    var j := J.Obj(map["k" := J.Str(t.sort), "d" := J.Bool(t.desc), "v" := J.Arr(vs)]);
    assert c.decode(EncodeCursor(c, t)) == Some(j);
    assert Parts(j) == Some((t.sort, t.desc, vs));
    if |mode| == |vs| { CoerceReads(mode, t.vals, vs); }
  }

  // Whatever text is presented, an accepted one gives a key for the columns.
  lemma {:induction false} CoercedIsKeyed(mode: seq<Kind>, vs: seq<J.Json>)
    requires |vs| == |mode| && CoerceAll(mode, vs).Some?
    ensures Keyed(mode, CoerceAll(mode, vs).value)
  {
    if mode != [] { CoercedIsKeyed(mode[1..], vs[1..]); }
  }

  lemma AcceptedIsKeyed(c: Codec, text: string, sort: string, desc: bool, mode: seq<Kind>)
    ensures DecodeText(c, text, sort, desc, mode).Ok? ==> Keyed(mode, DecodeText(c, text, sort, desc, mode).value)
  {
    if DecodeText(c, text, sort, desc, mode).Ok? { CoercedIsKeyed(mode, Parts(c.decode(text).value).value.2); }
  }
}
