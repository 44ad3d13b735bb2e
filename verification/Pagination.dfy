/** Bidirectional keyset pagination. A row is its sort key; the table is what the filters keep. */
module Pagination {
  import opened Common
  import opened Sorting

  // --- keys and their order ---

  datatype Kind = KindText | KindInt

  datatype Val = Num(n: int) | Text(s: string)

  type Key = seq<Val>

  predicate OfKind(v: Val, k: Kind) {
    if k.KindInt? then v.Num? else v.Text?
  }

  predicate Keyed(mode: seq<Kind>, key: Key) {
    |key| == |mode| && forall i :: 0 <= i < |mode| ==> OfKind(key[i], mode[i])
  }

  predicate Less(a: Val, b: Val) {
    match (a, b)
    case (Num(m), Num(n)) => m < n
    case (Text(s), Text(t)) => TextLess(s, t)
    case _ => false
  }

  // The order of the key columns, first column first.
  predicate KeyLess(a: Key, b: Key) {
    a != [] && b != [] && (Less(a[0], b[0]) || (a[0] == b[0] && KeyLess(a[1..], b[1..])))
  }

  // Display order.
  predicate Precedes(desc: bool, a: Key, b: Key) {
    if desc then KeyLess(b, a) else KeyLess(a, b)
  }

  lemma LessTotal(a: Val, b: Val, k: Kind)
    requires OfKind(a, k) && OfKind(b, k)
    ensures Less(a, b) || Less(b, a) || a == b
    ensures !(Less(a, b) && Less(b, a)) && !Less(a, a)
  {
    if k.KindText? { TextTotal(a.s, b.s); }
  }

  lemma LessTransitive(a: Val, b: Val, c: Val)
    requires Less(a, b) && Less(b, c)
    ensures Less(a, c)
  {
    if a.Text? { TextTransitive(a.s, b.s, c.s); }
  }

  lemma {:induction false} KeyTotal(mode: seq<Kind>, a: Key, b: Key)
    requires Keyed(mode, a) && Keyed(mode, b)
    ensures KeyLess(a, b) || KeyLess(b, a) || a == b
    ensures !(KeyLess(a, b) && KeyLess(b, a)) && !KeyLess(a, a)
  {
    if mode != [] {
      LessTotal(a[0], b[0], mode[0]);
      KeyTotal(mode[1..], a[1..], b[1..]);
      if a != b { KeyTotal(mode[1..], a[1..], a[1..]); }
      assert a == [a[0]] + a[1..] && b == [b[0]] + b[1..];
    }
  }

  lemma {:induction false} KeyTransitive(a: Key, b: Key, c: Key)
    requires KeyLess(a, b) && KeyLess(b, c)
    ensures KeyLess(a, c)
  {
    if Less(a[0], b[0]) && Less(b[0], c[0]) {
      LessTransitive(a[0], b[0], c[0]);
    } else if a[0] == b[0] == c[0] {
      KeyTransitive(a[1..], b[1..], c[1..]);
    }
  }

  lemma PrecedesTotal(mode: seq<Kind>, desc: bool, a: Key, b: Key)
    requires Keyed(mode, a) && Keyed(mode, b)
    ensures Precedes(desc, a, b) || Precedes(desc, b, a) || a == b
    ensures !(Precedes(desc, a, b) && Precedes(desc, b, a)) && !Precedes(desc, a, a)
  {
    KeyTotal(mode, a, b);
  }

  lemma PrecedesTransitive(desc: bool, a: Key, b: Key, c: Key)
    requires Precedes(desc, a, b) && Precedes(desc, b, c)
    ensures Precedes(desc, a, c)
  {
    if desc { KeyTransitive(c, b, a); } else { KeyTransitive(a, b, c); }
  }

  // --- the cursor predicate ---

  datatype Op = Equals | LessThan | GreaterThan

  datatype Cond = Cond(col: nat, op: Op, value: Val)

  predicate CondHolds(c: Cond, row: Key) {
    && c.col < |row|
    && match c.op
       case Equals => row[c.col] == c.value
       case LessThan => Less(row[c.col], c.value)
       case GreaterThan => Less(c.value, row[c.col])
  }

  predicate AllHold(terms: seq<Cond>, row: Key) {
    forall j :: 0 <= j < |terms| ==> CondHolds(terms[j], row)
  }

  // An OR of ANDs.
  predicate Holds(ors: seq<seq<Cond>>, row: Key) {
    exists i :: 0 <= i < |ors| && AllHold(ors[i], row)
  }

  // Equal on the first i columns and past vals on the next.
  predicate Diverges(cmp: Op, vals: Key, row: Key, i: nat) {
    && i < |vals| && i < |row| && row[..i] == vals[..i]
    && (if cmp == GreaterThan then Less(vals[i], row[i]) else Less(row[i], vals[i]))
  }

  lemma {:induction false} KeyLessDiverges(a: Key, b: Key)
    requires |a| == |b|
    ensures KeyLess(a, b) <==> exists i: nat :: Diverges(GreaterThan, a, b, i)
    ensures KeyLess(a, b) <==> exists i: nat :: Diverges(LessThan, b, a, i)
  {
    if a != [] {
      KeyLessDiverges(a[1..], b[1..]);
      if i: nat :| Diverges(GreaterThan, a, b, i) {
        assert Diverges(LessThan, b, a, i);
        if i > 0 {
          assert a[0] == a[..i][0] && b[0] == b[..i][0];
          assert a[1..][..i - 1] == a[..i][1..] && b[1..][..i - 1] == b[..i][1..];
          assert Diverges(GreaterThan, a[1..], b[1..], i - 1);
        }
      }
      if i: nat :| Diverges(LessThan, b, a, i) { assert Diverges(GreaterThan, a, b, i); }
      if KeyLess(a, b) {
        if Less(a[0], b[0]) {
          assert Diverges(GreaterThan, a, b, 0) && Diverges(LessThan, b, a, 0);
        } else {
          var i: nat :| Diverges(GreaterThan, a[1..], b[1..], i);
          assert a[..i + 1] == [a[0]] + a[1..][..i] && b[..i + 1] == [b[0]] + b[1..][..i];
          assert Diverges(GreaterThan, a, b, i + 1) && Diverges(LessThan, b, a, i + 1);
        }
      }
    }
  }

  // Rows are shown by the first column in which they differ, numbers by size and text by its first
  // differing character, ascending or descending throughout.
  ghost predicate Smaller(a: Val, b: Val) {
    (a.Num? && b.Num? && a.n < b.n) || (a.Text? && b.Text? && exists k: nat :: FirstLower(a.s, b.s, k))
  }

  lemma DisplayOrder(mode: seq<Kind>, desc: bool, a: Key, b: Key)
    requires Keyed(mode, a) && Keyed(mode, b)
    ensures Precedes(desc, a, b) <==>
              exists i :: 0 <= i < |mode| && a[..i] == b[..i] && if desc then Smaller(b[i], a[i]) else Smaller(a[i], b[i])
  {
    forall x: Val, y: Val ensures Less(x, y) <==> Smaller(x, y) {
      if x.Text? && y.Text? { TextLessAt(x.s, y.s); }
    }
    var lo, hi := if desc then b else a, if desc then a else b;
    KeyLessDiverges(lo, hi);
    if i :| 0 <= i < |mode| && a[..i] == b[..i] && if desc then Smaller(b[i], a[i]) else Smaller(a[i], b[i]) {
      assert Diverges(GreaterThan, lo, hi, i);
    }
  }

  // The OR-chain selects exactly the rows past the cursor.
  method KeysetPredicate(mode: seq<Kind>, cmp: Op, vals: Key) returns (ors: seq<seq<Cond>>)
    requires Keyed(mode, vals) && cmp != Equals
    ensures forall row :: Keyed(mode, row) ==>
      (Holds(ors, row) <==> if cmp == GreaterThan then KeyLess(vals, row) else KeyLess(row, vals))
  {
    ors := [];
    for i := 0 to |mode|
      invariant |ors| == i
      invariant forall k, row :: 0 <= k < i && |row| == |vals| ==> (AllHold(ors[k], row) <==> Diverges(cmp, vals, row, k))
    {
      var terms: seq<Cond> := [];
      for j := 0 to i
        invariant |terms| == j
        invariant forall k :: 0 <= k < j ==> terms[k] == Cond(k, Equals, vals[k])
      {
        terms := terms + [Cond(j, Equals, vals[j])];
      }
      terms := terms + [Cond(i, cmp, vals[i])];
      forall row: Key | |row| == |vals| ensures AllHold(terms, row) <==> Diverges(cmp, vals, row, i) {
        TermsDiverge(terms, cmp, vals, row, i);
      }
      ors := ors + [terms];
    }
    forall row | Keyed(mode, row)
      ensures Holds(ors, row) <==> if cmp == GreaterThan then KeyLess(vals, row) else KeyLess(row, vals)
    {
      KeyLessDiverges(vals, row);
      KeyLessDiverges(row, vals);
    }
  }

  lemma TermsDiverge(terms: seq<Cond>, cmp: Op, vals: Key, row: Key, i: nat)
    requires cmp != Equals && i < |vals| == |row| && |terms| == i + 1 && terms[i] == Cond(i, cmp, vals[i])
    requires forall k :: 0 <= k < i ==> terms[k] == Cond(k, Equals, vals[k])
    ensures AllHold(terms, row) <==> Diverges(cmp, vals, row, i)
  {
    if AllHold(terms, row) {
      assert CondHolds(terms[i], row);
      forall k | 0 <= k < i ensures row[k] == vals[k] { assert CondHolds(terms[k], row); }
      assert row[..i] == vals[..i];
    }
    if Diverges(cmp, vals, row, i) {
      forall k | 0 <= k <= i ensures CondHolds(terms[k], row) {
        if k < i { assert row[..i][k] == vals[..i][k]; }
      }
    }
  }

  // --- cursors ---

  // A cursor as it is read; CursorText is about its text.
  datatype Token = Token(sort: string, desc: bool, vals: Key)

  function DecodeCursor(tok: Token, sort: string, desc: bool, mode: seq<Kind>): Result<Key> {
    if tok.sort != sort || tok.desc != desc then Err("cursor does not match the requested sort")
    else if !Keyed(mode, tok.vals) then Err("invalid cursor")
    else Ok(tok.vals)
  }

  // --- plans ---

  datatype Paginator = Paginator(sorts: map<string, seq<Kind>>, defSort: string, defDesc: bool, defLimit: nat, maxLimit: nat)

  datatype PageReq = PageReq(sort: string, desc: Option<bool>, limit: int, after: Option<Token>, before: Option<Token>)

  // The statement to run: cursor predicate, scan direction and limit; and what the page needs
  // afterwards.
  datatype Plan = Plan(cursor: Option<seq<seq<Cond>>>, scanAsc: bool, limit: nat, mode: seq<Kind>, sort: string, desc: bool, backward: bool)

  predicate Configured(pg: Paginator) {
    0 < pg.defLimit <= pg.maxLimit
  }

  function SortOf(pg: Paginator, req: PageReq): string {
    if req.sort == "" then pg.defSort else req.sort
  }

  function DescOf(pg: Paginator, req: PageReq): bool {
    if req.desc.Some? then req.desc.value else pg.defDesc
  }

  function CursorOf(req: PageReq): Option<Token> {
    if req.before.Some? then req.before else req.after
  }

  predicate GoodRequest(pg: Paginator, req: PageReq) {
    && SortOf(pg, req) in pg.sorts
    && (CursorOf(req).Some? ==> DecodeCursor(CursorOf(req).value, SortOf(pg, req), DescOf(pg, req), pg.sorts[SortOf(pg, req)]).Ok?)
  }

  // Before pages are scanned away from the cursor, so both kinds select what lies past it in
  // scan order.
  method BuildSource(pg: Paginator, req: PageReq) returns (r: Result<Plan>)
    requires Configured(pg)
    ensures r.Ok? <==> GoodRequest(pg, req)
    ensures r.Ok? ==>
      var p := r.value;
      && p.sort == SortOf(pg, req) && p.desc == DescOf(pg, req) && p.mode == pg.sorts[p.sort]
      && (req.sort != "" ==> p.sort == req.sort) && (req.sort == "" ==> p.sort == pg.defSort)
      && (req.desc == Some(true) ==> p.desc) && (req.desc == Some(false) ==> !p.desc) && (req.desc == None ==> p.desc == pg.defDesc)
      && p.backward == req.before.Some? && p.scanAsc == (p.desc == p.backward)
      && p.limit == (if req.limit <= 0 then pg.defLimit else if req.limit > pg.maxLimit then pg.maxLimit else req.limit)
      && (p.cursor.Some? <==> CursorOf(req).Some?)
      && (p.cursor.Some? ==> forall row :: Keyed(p.mode, row) ==>
            (Holds(p.cursor.value, row) <==> Precedes(!p.scanAsc, CursorOf(req).value.vals, row)))
  {
    var key := if req.sort == "" then pg.defSort else req.sort;
    if key !in pg.sorts { return Err("unknown sort"); }
    var mode := pg.sorts[key];
    var desc := pg.defDesc;
    if req.desc.Some? { desc := req.desc.value; }
    var limit := req.limit;
    if limit <= 0 { limit := pg.defLimit; }
    if limit > pg.maxLimit { limit := pg.maxLimit; }
    var backward := req.before.Some?;
    var tok := if backward then req.before else req.after;
    var scanAsc := !desc;
    if backward { scanAsc := !scanAsc; }
    var cmp := if scanAsc then GreaterThan else LessThan;
    var cursor: Option<seq<seq<Cond>>> := None;
    if tok.Some? {
      var vals := DecodeCursor(tok.value, key, desc, mode);
      if vals.Err? { return Err(vals.error); }
      var pred := KeysetPredicate(mode, cmp, vals.value);
      cursor := Some(pred);
    }
    return Ok(Plan(cursor, scanAsc, limit, mode, key, desc, backward));
  }

  // --- pages ---

  ghost predicate Table(mode: seq<Kind>, rows: set<Key>) {
    forall r :: r in rows ==> Keyed(mode, r)
  }

  ghost predicate Ordered(desc: bool, rows: seq<Key>) {
    forall i, j :: 0 <= i < j < |rows| ==> Precedes(desc, rows[i], rows[j])
  }

  // ORDER BY … LIMIT over the pool: ordered, as many as the limit lets, and what is left out
  // comes after everything that is in.
  ghost predicate Firsts(desc: bool, pool: set<Key>, limit: nat, page: seq<Key>) {
    && Ordered(desc, page) && |page| <= limit
    && (forall i :: 0 <= i < |page| ==> page[i] in pool)
    && forall r :: r in pool && r !in page ==> |page| == limit && forall i :: 0 <= i < |page| ==> Precedes(desc, page[i], r)
  }

  // The last rows of the pool, in display order.
  ghost predicate Lasts(desc: bool, pool: set<Key>, limit: nat, page: seq<Key>) {
    && Ordered(desc, page) && |page| <= limit
    && (forall i :: 0 <= i < |page| ==> page[i] in pool)
    && forall r :: r in pool && r !in page ==> |page| == limit && forall i :: 0 <= i < |page| ==> Precedes(desc, r, page[i])
  }

  ghost function After(table: set<Key>, desc: bool, key: Key): set<Key> {
    set r | r in table && Precedes(desc, key, r)
  }

  ghost function Before(table: set<Key>, desc: bool, key: Key): set<Key> {
    set r | r in table && Precedes(desc, r, key)
  }

  // What the database returns for a plan.
  ghost predicate Executes(p: Plan, table: set<Key>, rows: seq<Key>) {
    Firsts(!p.scanAsc, (set r | r in table && (p.cursor.Some? ==> Holds(p.cursor.value, r))), p.limit, rows)
  }

  function Reversed(rows: seq<Key>): (r: seq<Key>)
    ensures |r| == |rows| && forall i :: 0 <= i < |rows| ==> r[i] == rows[|rows| - 1 - i]
  {
    seq(|rows|, i requires 0 <= i < |rows| => rows[|rows| - 1 - i])
  }

  // A backward page is flipped in place; the boundary keys are those of the page as shown.
  method Orient(p: Plan, rows: array<Key>) returns (first: Option<Key>, last: Option<Key>)
    modifies rows
    ensures rows[..] == if p.backward then Reversed(old(rows[..])) else old(rows[..])
    ensures first == if rows.Length == 0 then None else Some(rows[0])
    ensures last == if rows.Length == 0 then None else Some(rows[rows.Length - 1])
  {
    if p.backward {
      var n, i := rows.Length, 0;
      while i < n - 1 - i
        invariant 0 <= i <= n && i <= n - i
        invariant forall k :: 0 <= k < i ==> rows[k] == old(rows[n - 1 - k]) && rows[n - 1 - k] == old(rows[k])
        invariant forall k :: i <= k < n - i ==> rows[k] == old(rows[k])
      {
        rows[i], rows[n - 1 - i] := rows[n - 1 - i], rows[i];
        i := i + 1;
      }
      assert rows[..] == Reversed(old(rows[..]));
    }
    if rows.Length == 0 { return None, None; }
    return Some(rows[0]), Some(rows[rows.Length - 1]);
  }

  lemma FlippedLasts(desc: bool, pool: set<Key>, limit: nat, rows: seq<Key>)
    requires Firsts(!desc, pool, limit, rows)
    ensures Lasts(desc, pool, limit, Reversed(rows))
  {
    var page := Reversed(rows);
    forall r ensures r in page <==> r in rows {
      if r in rows {
        var i :| 0 <= i < |rows| && rows[i] == r;
        assert page[|rows| - 1 - i] == r;
      }
    }
  }

  // Forward, the rows right after the cursor; backward, the rows right before it; both in
  // display order.
  lemma PageIsAdjacent(p: Plan, table: set<Key>, rows: seq<Key>, key: Key)
    requires Table(p.mode, table) && p.scanAsc == (p.desc == p.backward) && Executes(p, table, rows)
    requires p.cursor.Some? && forall row :: Keyed(p.mode, row) ==> (Holds(p.cursor.value, row) <==> Precedes(!p.scanAsc, key, row))
    ensures !p.backward ==> Firsts(p.desc, After(table, p.desc, key), p.limit, rows)
    ensures p.backward ==> Lasts(p.desc, Before(table, p.desc, key), p.limit, Reversed(rows))
  {
    var pool := set r | r in table && (p.cursor.Some? ==> Holds(p.cursor.value, r));
    if p.backward {
      assert pool == Before(table, p.desc, key);
      FlippedLasts(p.desc, pool, p.limit, rows);
    } else {
      assert pool == After(table, p.desc, key);
    }
  }

  // --- page info ---

  const COUNT_CAP: nat := 1000

  // COUNT(*) over a subquery limited to one more than the cap.
  function Capped(n: nat): nat {
    if n <= COUNT_CAP then n else COUNT_CAP + 1
  }

  // The number itself up to a cap, and one more than the cap for everything beyond.
  predicate CountsUpTo(cap: nat, n: nat, shown: nat) {
    (n <= cap ==> shown == n) && (n > cap ==> shown == cap + 1)
  }

  datatype PageInfo = PageInfo(itemsBefore: nat, itemsAfter: nat, before: Option<Token>, after: Option<Token>)

  // The rows on one side of a key, by the comparison the count statement uses.
  ghost function Side(table: set<Key>, cmp: Op, key: Key): set<Key> {
    set r | r in table && if cmp == GreaterThan then KeyLess(key, r) else KeyLess(r, key)
  }

  lemma Sides(table: set<Key>, desc: bool, key: Key)
    ensures Side(table, if desc then GreaterThan else LessThan, key) == Before(table, desc, key)
    ensures Side(table, if desc then LessThan else GreaterThan, key) == After(table, desc, key)
  {
  }

  method CountSide(p: Plan, table: set<Key>, key: Option<Key>, cmp: Op) returns (n: nat)
    requires cmp != Equals && (key.Some? ==> Keyed(p.mode, key.value)) && Table(p.mode, table)
    ensures n == if key.None? then 0 else Capped(|Side(table, cmp, key.value)|)
  {
    if key.None? { return 0; }
    var ors := KeysetPredicate(p.mode, cmp, key.value);
    var side := set r | r in table && Holds(ors, r);
    assert side == Side(table, cmp, key.value);
    return Capped(|side|);
  }

  // Counts and cursors of a page with these boundary rows, over the table the count sees.
  method Info(p: Plan, table: set<Key>, first: Option<Key>, last: Option<Key>) returns (info: PageInfo)
    requires Table(p.mode, table) && (first.Some? <==> last.Some?)
    requires first.Some? ==> Keyed(p.mode, first.value) && Keyed(p.mode, last.value)
    ensures first.None? ==> info == PageInfo(0, 0, None, None)
    ensures first.Some? ==>
      && CountsUpTo(1000, |Before(table, p.desc, first.value)|, info.itemsBefore)
      && CountsUpTo(1000, |After(table, p.desc, last.value)|, info.itemsAfter)
      && info.before == (if Before(table, p.desc, first.value) == {} then None else Some(Token(p.sort, p.desc, first.value)))
      && info.after == (if After(table, p.desc, last.value) == {} then None else Some(Token(p.sort, p.desc, last.value)))
  {
    var beforeCmp, afterCmp := LessThan, GreaterThan;
    if p.desc { beforeCmp, afterCmp := GreaterThan, LessThan; }
    var before := CountSide(p, table, first, beforeCmp);
    var after := CountSide(p, table, last, afterCmp);
    info := PageInfo(before, after, None, None);
    if first.Some? {
      Sides(table, p.desc, first.value);
      Sides(table, p.desc, last.value);
    }
    if before > 0 { info := info.(before := Some(Token(p.sort, p.desc, first.value))); }
    if after > 0 { info := info.(after := Some(Token(p.sort, p.desc, last.value))); }
  }

  // An empty page reports no cursor at all, whatever lies around it.
  lemma EmptyPageHidesRows(mode: seq<Kind>, key: Key)
    requires mode == [KindInt] && key == [Num(5)]
    ensures var table := {[Num(1)]};
            Table(mode, table) && Firsts(false, After(table, false, key), 20, []) && Before(table, false, key) != {}
  {
    var row := [Num(1)];
    assert KeyLess(row, key) && !KeyLess(key, row);
    assert row in Before({row}, false, key);
    assert After({row}, false, key) == {};
  }

  // --- there and back ---

  lemma HeadLeast(desc: bool, s: seq<Key>, r: Key)
    requires Ordered(desc, s) && r in s
    ensures r == s[0] || Precedes(desc, s[0], r)
  {
    var i :| 0 <= i < |s| && s[i] == r;
    assert i > 0 ==> Precedes(desc, s[0], s[i]);
  }

  lemma TailApart(mode: seq<Kind>, desc: bool, s: seq<Key>, r: Key)
    requires Ordered(desc, s) && s != [] && forall x :: x in s ==> Keyed(mode, x)
    ensures r in s[1..] <==> r in s && r != s[0]
  {
    assert s == [s[0]] + s[1..] && s[0] in s;
    PrecedesTotal(mode, desc, s[0], s[0]);
    assert forall i :: 0 < i < |s| ==> Precedes(desc, s[0], s[i]);
  }

  // Two lists of the same rows in order are the same list.
  lemma {:induction false} OrderedUnique(mode: seq<Kind>, desc: bool, a: seq<Key>, b: seq<Key>)
    requires Ordered(desc, a) && Ordered(desc, b) && forall r :: r in a <==> r in b
    requires forall r :: r in a ==> Keyed(mode, r)
    ensures a == b
    decreases |a|
  {
    hide Precedes;
    assert a == [] <==> b == [] by {
      assert a != [] ==> a[0] in a;
      assert b != [] ==> b[0] in b;
    }
    if a != [] {
      assert a[0] in a && b[0] in b;
      HeadLeast(desc, a, b[0]);
      HeadLeast(desc, b, a[0]);
      PrecedesTotal(mode, desc, a[0], b[0]);
      forall r ensures r in a[1..] <==> r in b[1..] {
        TailApart(mode, desc, a, r);
        TailApart(mode, desc, b, r);
      }
      OrderedUnique(mode, desc, a[1..], b[1..]);
      assert a == [a[0]] + a[1..] && b == [b[0]] + b[1..];
    }
  }

  lemma {:induction false} SetOfOrdered(mode: seq<Kind>, desc: bool, rows: seq<Key>)
    requires Ordered(desc, rows) && forall r :: r in rows ==> Keyed(mode, r)
    ensures |set r | r in rows| == |rows|
    decreases |rows|
  {
    hide Precedes;
    var all := set r | r in rows;
    if rows == [] {
      assert all == {};
    } else {
      var tail := set r | r in rows[1..];
      SetOfOrdered(mode, desc, rows[1..]);
      TailApart(mode, desc, rows, rows[0]);
      assert all == tail + {rows[0]};
    }
  }

  lemma SubsetSize<T>(a: set<T>, b: set<T>)
    requires a <= b && |b| <= |a|
    ensures a == b
  {
    assert b == a + (b - a);
  }

  // A list inside another of at most its size has all of its rows.
  lemma SameRows(mode: seq<Kind>, desc: bool, inner: seq<Key>, outer: seq<Key>)
    requires Ordered(desc, inner) && Ordered(desc, outer) && |outer| <= |inner|
    requires (forall r :: r in inner ==> r in outer) && forall r :: r in outer ==> Keyed(mode, r)
    ensures forall r :: r in outer ==> r in inner
  {
    SetOfOrdered(mode, desc, inner);
    SetOfOrdered(mode, desc, outer);
    var a, b := set r | r in inner, set r | r in outer;
    SubsetSize(a, b);
    forall r | r in outer ensures r in inner { assert r in b; }
  }

  // The rows a page may show: the whole table, or what lies past a cursor.
  ghost predicate Pool(mode: seq<Kind>, desc: bool, table: set<Key>, pool: set<Key>) {
    pool == table || exists c :: Keyed(mode, c) && pool == After(table, desc, c)
  }

  lemma PoolIsUpward(mode: seq<Kind>, desc: bool, table: set<Key>, pool: set<Key>, h: Key, r: Key)
    requires Table(mode, table) && Pool(mode, desc, table, pool) && h in pool && r in table
    ensures r in pool || Precedes(desc, r, h)
    ensures Precedes(desc, h, r) ==> r in pool
  {
    if pool != table {
      var c :| Keyed(mode, c) && pool == After(table, desc, c);
      PrecedesTotal(mode, desc, c, r);
      if Precedes(desc, r, c) { PrecedesTransitive(desc, r, c, h); }
      if Precedes(desc, h, r) { PrecedesTransitive(desc, c, h, r); }
    }
  }

  // Nothing lies between a page and the next.
  lemma NothingBetween(mode: seq<Kind>, desc: bool, table: set<Key>, limit: nat, last: Key, next: seq<Key>, r: Key)
    requires Table(mode, table) && limit > 0 && last in table && r in table
    requires Firsts(desc, After(table, desc, last), limit, next) && next != []
    ensures !(Precedes(desc, last, r) && Precedes(desc, r, next[0]))
  {
    hide Precedes;
    assert next[0] in After(table, desc, last);
    PrecedesTotal(mode, desc, next[0], r);
    if r in next { HeadLeast(desc, next, r); }
    assert Precedes(desc, last, r) ==> r in After(table, desc, last);
  }

  // Rows of the page, between a row of the backward page and the next page, are in the
  // backward page too.
  lemma BackReaches(mode: seq<Kind>, desc: bool, pool: set<Key>, limit: nat, back: seq<Key>, r: Key, h: Key)
    requires Table(mode, pool) && Lasts(desc, pool, limit, back) && r in back && h in pool && Precedes(desc, r, h)
    ensures h in back
  {
    hide Precedes;
    var i :| 0 <= i < |back| && back[i] == r;
    assert h !in back ==> Precedes(desc, h, back[i]);
    PrecedesTotal(mode, desc, h, r);
  }

  lemma HereLast(desc: bool, pool: set<Key>, limit: nat, here: seq<Key>, r: Key)
    requires Firsts(desc, pool, limit, here) && here != [] && r in pool
    ensures r in here || (Precedes(desc, here[|here| - 1], r) && |here| == limit)
    ensures r in here && r != here[|here| - 1] ==> Precedes(desc, r, here[|here| - 1])
  {
    if r in here { var i :| 0 <= i < |here| && here[i] == r; }
  }

  lemma BackIsHere(mode: seq<Kind>, desc: bool, table: set<Key>, pool: set<Key>, limit: nat, here: seq<Key>, next: seq<Key>, back: seq<Key>, r: Key)
    requires Table(mode, table) && Pool(mode, desc, table, pool) && pool <= table && limit > 0
    requires Firsts(desc, pool, limit, here) && here != [] && |here| == limit
    requires Firsts(desc, After(table, desc, here[|here| - 1]), limit, next) && next != []
    requires Lasts(desc, Before(table, desc, next[0]), limit, back) && r in back
    requires forall h :: h in here ==> h in Before(table, desc, next[0])
    ensures r in here
  {
    hide Precedes, Pool;
    var last := here[|here| - 1];
    assert last in here && here[0] in here && here[0] in pool;
    assert r in Before(table, desc, next[0]) by { var i :| 0 <= i < |back| && back[i] == r; }
    NothingBetween(mode, desc, table, limit, last, next, r);
    PoolIsUpward(mode, desc, table, pool, here[0], r);
    if r in pool {
      HereLast(desc, pool, limit, here, r);
    } else {
      forall h | h in here ensures h in back {
        var k :| 0 <= k < |here| && here[k] == h;
        PoolIsUpward(mode, desc, table, pool, h, r);
        BackReaches(mode, desc, Before(table, desc, next[0]), limit, back, r, h);
      }
      BackKeyed(mode, desc, table, next[0], limit, back);
      SameRows(mode, desc, here, back);
    }
  }

  lemma BackKeyed(mode: seq<Kind>, desc: bool, table: set<Key>, key: Key, limit: nat, back: seq<Key>)
    requires Table(mode, table) && Lasts(desc, Before(table, desc, key), limit, back)
    ensures forall r :: r in back ==> Keyed(mode, r)
  {
  }

  // On a fixed table, Before of a page gives back the page that led to it.
  lemma BackIsInverse(mode: seq<Kind>, desc: bool, table: set<Key>, pool: set<Key>, limit: nat, here: seq<Key>, next: seq<Key>, back: seq<Key>)
    requires Table(mode, table) && limit > 0 && Pool(mode, desc, table, pool)
    requires Firsts(desc, pool, limit, here) && here != []
    requires Firsts(desc, After(table, desc, here[|here| - 1]), limit, next) && next != []
    requires Lasts(desc, Before(table, desc, next[0]), limit, back)
    ensures back == here
  {
    hide Precedes;
    var last := here[|here| - 1];
    assert pool <= table;
    assert last in pool && next[0] in After(table, desc, last);
    PoolIsUpward(mode, desc, table, pool, last, next[0]);
    HereLast(desc, pool, limit, here, next[0]);
    PrecedesTotal(mode, desc, last, next[0]);
    assert |here| == limit;
    forall r | r in here ensures r in Before(table, desc, next[0]) && Keyed(mode, r) {
      var i :| 0 <= i < |here| && here[i] == r;
      HereLast(desc, pool, limit, here, r);
      if r != last { PrecedesTransitive(desc, r, last, next[0]); }
    }
    forall r | r in back ensures r in here { BackIsHere(mode, desc, table, pool, limit, here, next, back, r); }
    forall r | r in here ensures r in back { AllBack(mode, desc, table, limit, here, next[0], back, r); }
    OrderedUnique(mode, desc, back, here);
  }

  lemma AllBack(mode: seq<Kind>, desc: bool, table: set<Key>, limit: nat, here: seq<Key>, key: Key, back: seq<Key>, r: Key)
    requires Table(mode, table) && Lasts(desc, Before(table, desc, key), limit, back)
    requires Ordered(desc, here) && |here| == limit && r in here && r in Before(table, desc, key)
    requires (forall h :: h in back ==> h in here) && forall h :: h in here ==> Keyed(mode, h)
    ensures r in back
  {
    hide Precedes;
    if |back| == limit { SameRows(mode, desc, back, here); }
  }

  // --- a whole walk ---

  // One page of a walk: the table the page read, the table its counts saw, the rows.
  datatype Visit = Visit(read: set<Key>, counted: set<Key>, page: seq<Key>)

  ghost predicate Continues(desc: bool, v: Visit) {
    v.page != [] && After(v.counted, desc, v.page[|v.page| - 1]) != {}
  }

  ghost function PoolOf(desc: bool, visits: seq<Visit>, i: nat): set<Key>
    requires i < |visits|
  {
    if i == 0 || visits[i - 1].page == [] then visits[i].read
    else After(visits[i].read, desc, visits[i - 1].page[|visits[i - 1].page| - 1])
  }

  // From the first page, following After while it is reported; rows come and go in between.
  ghost predicate Walk(mode: seq<Kind>, desc: bool, limit: nat, visits: seq<Visit>) {
    && limit > 0
    && (forall i :: 0 <= i < |visits| ==> Table(mode, visits[i].read) && Table(mode, visits[i].counted))
    && (forall i :: 0 <= i < |visits| ==> Firsts(desc, PoolOf(desc, visits, i), limit, visits[i].page))
    && (forall i :: 0 <= i < |visits| - 1 ==> Continues(desc, visits[i]))
  }

  ghost function Shown(visits: seq<Visit>): seq<Key> {
    if visits == [] then [] else Shown(visits[..|visits| - 1]) + visits[|visits| - 1].page
  }

  lemma WalkPrefix(mode: seq<Kind>, desc: bool, limit: nat, visits: seq<Visit>)
    requires Walk(mode, desc, limit, visits) && visits != []
    ensures Walk(mode, desc, limit, visits[..|visits| - 1])
  {
    hide Precedes, Ordered, Firsts, Continues;
    var front := visits[..|visits| - 1];
    forall i | 0 <= i < |front| ensures Firsts(desc, PoolOf(desc, front, i), limit, front[i].page) {
      assert PoolOf(desc, front, i) == PoolOf(desc, visits, i);
    }
  }

  lemma OrderedJoin(desc: bool, a: seq<Key>, b: seq<Key>)
    requires Ordered(desc, a) && Ordered(desc, b)
    requires a != [] && b != [] ==> Precedes(desc, a[|a| - 1], b[0])
    ensures Ordered(desc, a + b)
  {
    hide Precedes;
    if a != [] && b != [] {
      forall i, j | 0 <= i < |a| && 0 <= j < |b| ensures Precedes(desc, a[i], b[j]) {
        if i < |a| - 1 { PrecedesTransitive(desc, a[i], a[|a| - 1], b[0]); }
        if j > 0 { PrecedesTransitive(desc, a[i], b[0], b[j]); }
      }
    }
  }

  ghost function LastShown(visits: seq<Visit>): Key
    requires visits != [] && visits[|visits| - 1].page != []
  {
    var page := visits[|visits| - 1].page;
    page[|page| - 1]
  }

  // Everything shown so far is in order and ends with the last row of the last page.
  lemma {:induction false} ShownInOrder(mode: seq<Kind>, desc: bool, limit: nat, visits: seq<Visit>)
    requires Walk(mode, desc, limit, visits)
    ensures Ordered(desc, Shown(visits))
    ensures visits != [] && visits[|visits| - 1].page != [] ==>
              Shown(visits) != [] && Shown(visits)[|Shown(visits)| - 1] == LastShown(visits)
    decreases |visits|
  {
    hide Precedes, Ordered, Walk, Firsts, PoolOf, Continues;
    EmptyOrdered(desc);
    if visits != [] {
      var n := |visits| - 1;
      var front := visits[..n];
      WalkPrefix(mode, desc, limit, visits);
      ShownInOrder(mode, desc, limit, front);
      LastPage(mode, desc, limit, visits);
      OrderedJoin(desc, Shown(front), visits[n].page);
    }
  }

  // The last page is in order, after the page before it, which was not empty.
  lemma LastPage(mode: seq<Kind>, desc: bool, limit: nat, visits: seq<Visit>)
    requires Walk(mode, desc, limit, visits) && visits != []
    ensures var n := |visits| - 1;
            var page := visits[n].page;
            && Ordered(desc, page)
            && (n > 0 ==> visits[n - 1].page != [])
            && (n > 0 && page != [] ==> Precedes(desc, LastShown(visits[..n]), page[0]))
  {
    hide Walk, Precedes, Ordered;
    var n := |visits| - 1;
    var page := visits[n].page;
    PageOfWalk(mode, desc, limit, visits, n);
    if n > 0 {
      assert visits[..n][n - 1] == visits[n - 1];
      if page != [] { assert page[0] in PoolOf(desc, visits, n); }
    }
  }

  lemma PageOfWalk(mode: seq<Kind>, desc: bool, limit: nat, visits: seq<Visit>, i: nat)
    requires Walk(mode, desc, limit, visits) && i < |visits|
    ensures Firsts(desc, PoolOf(desc, visits, i), limit, visits[i].page)
    ensures i > 0 ==> Continues(desc, visits[i - 1])
  {
    hide Precedes, Ordered, Firsts, PoolOf, Continues;
  }

  lemma EmptyOrdered(desc: bool)
    ensures Ordered(desc, [])
  {
  }

  // A row that stays is shown, or still lies ahead.
  lemma {:induction false} ShownOrAhead(mode: seq<Kind>, desc: bool, limit: nat, visits: seq<Visit>, r: Key)
    requires Walk(mode, desc, limit, visits) && visits != []
    requires forall i :: 0 <= i < |visits| ==> r in visits[i].read
    ensures r in Shown(visits) || (visits[|visits| - 1].page != [] && Precedes(desc, LastShown(visits), r))
    decreases |visits|
  {
    hide Precedes, Ordered;
    var n := |visits| - 1;
    var front := visits[..n];
    if n > 0 {
      WalkPrefix(mode, desc, limit, visits);
      ShownOrAhead(mode, desc, limit, front, r);
      assert front[n - 1] == visits[n - 1];
    }
    assert r in visits[n].read;
    assert Firsts(desc, PoolOf(desc, visits, n), limit, visits[n].page);
    if r !in Shown(front) {
      assert r in PoolOf(desc, visits, n);
    }
  }

  lemma MoreAhead(desc: bool, v: Visit, r: Key)
    requires v.page != [] && Precedes(desc, v.page[|v.page| - 1], r) && r in v.counted
    ensures Continues(desc, v)
  {
    assert r in After(v.counted, desc, v.page[|v.page| - 1]);
  }

  lemma OrderedOnce(mode: seq<Kind>, desc: bool, rows: seq<Key>, r: Key)
    requires Ordered(desc, rows) && Keyed(mode, r)
    ensures forall i, j :: 0 <= i < |rows| && 0 <= j < |rows| && rows[i] == r && rows[j] == r ==> i == j
  {
    PrecedesTotal(mode, desc, r, r);
  }

  // Following After to the end shows every row that stays exactly once, in order.
  lemma StableWalk(mode: seq<Kind>, desc: bool, limit: nat, visits: seq<Visit>, r: Key)
    requires Walk(mode, desc, limit, visits) && visits != [] && !Continues(desc, visits[|visits| - 1])
    requires forall i :: 0 <= i < |visits| ==> r in visits[i].read && r in visits[i].counted
    ensures Ordered(desc, Shown(visits))
    ensures r in Shown(visits)
    ensures forall i, j :: 0 <= i < |Shown(visits)| && 0 <= j < |Shown(visits)| && Shown(visits)[i] == r && Shown(visits)[j] == r ==> i == j
  {
    hide *;
    ShownInOrder(mode, desc, limit, visits);
    ShownOrAhead(mode, desc, limit, visits, r);
    var last := visits[|visits| - 1];
    if last.page != [] && Precedes(desc, LastShown(visits), r) {
      assert LastShown(visits) == last.page[|last.page| - 1] by { LastShownIs(visits); }
      MoreAhead(desc, last, r);
    }
    WalkKeyed(mode, desc, limit, visits, r);
    OrderedOnce(mode, desc, Shown(visits), r);
  }

  lemma LastShownIs(visits: seq<Visit>)
    requires visits != [] && visits[|visits| - 1].page != []
    ensures LastShown(visits) == visits[|visits| - 1].page[|visits[|visits| - 1].page| - 1]
  {
  }

  lemma WalkKeyed(mode: seq<Kind>, desc: bool, limit: nat, visits: seq<Visit>, r: Key)
    requires Walk(mode, desc, limit, visits) && visits != [] && r in visits[|visits| - 1].read
    ensures Keyed(mode, r)
  {
    assert Table(mode, visits[|visits| - 1].read);
  }
}
