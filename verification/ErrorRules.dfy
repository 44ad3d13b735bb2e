/**
 on_error rules: LIKE patterns over error codes, the validation of rules, and which errors a
 task may be retried on.
 */
module ErrorRules {
  import opened Common

  // --- what a pattern means ---

  // '%' stands for any string, '_' for any one character, any other character for itself; a
  // character here is a byte of the text.
  predicate Stands(p: char, seg: string) {
    match p
    case '%' => true
    case '_' => |seg| == 1
    case _ => seg == [p]
  }

  function Joined(segs: seq<string>): string {
    if segs == [] then "" else segs[0] + Joined(segs[1..])
  }

  ghost predicate Splits(p: string, segs: seq<string>, s: string) {
    && |segs| == |p|
    && (forall i :: 0 <= i < |p| ==> Stands(p[i], segs[i]))
    && Joined(segs) == s
  }

  ghost predicate Matches(p: string, s: string) {
    exists segs :: Splits(p, segs, s)
  }

  lemma SplitFirst(p: string, segs: seq<string>, s: string)
    requires p != "" && Splits(p, segs, s)
    ensures |segs[0]| <= |s| && segs[0] == s[..|segs[0]|]
    ensures Splits(p[1..], segs[1..], s[|segs[0]|..]) && Stands(p[0], segs[0])
  {
    assert s == segs[0] + Joined(segs[1..]);
    assert s[|segs[0]|..] == Joined(segs[1..]);
  }

  lemma SplitMore(p: string, k: nat, s: string)
    requires p != "" && k <= |s| && Stands(p[0], s[..k]) && Matches(p[1..], s[k..])
    ensures Matches(p, s)
  {
    var rest :| Splits(p[1..], rest, s[k..]);
    var segs := [s[..k]] + rest;
    assert segs[1..] == rest;
    assert Joined(segs) == s[..k] + s[k..] == s;
    forall i | 0 <= i < |p| ensures Stands(p[i], segs[i]) {
      if i > 0 { assert p[i] == p[1..][i - 1] && segs[i] == rest[i - 1]; }
    }
    assert Splits(p, segs, s);
  }

  // A pattern matches when its first character takes a prefix and the rest matches the rest.
  lemma MatchStep(p: string, s: string)
    requires p != ""
    ensures Matches(p, s) <==> exists k: nat :: k <= |s| && Stands(p[0], s[..k]) && Matches(p[1..], s[k..])
  {
    if Matches(p, s) {
      var segs :| Splits(p, segs, s);
      SplitFirst(p, segs, s);
      var k := |segs[0]|;
      assert Stands(p[0], s[..k]) && Matches(p[1..], s[k..]);
    }
    if k: nat :| k <= |s| && Stands(p[0], s[..k]) && Matches(p[1..], s[k..]) {
      SplitMore(p, k, s);
    }
  }

  lemma MatchEmpty(s: string)
    ensures Matches("", s) <==> s == ""
  {
    assert Splits("", [], "");
    if Matches("", s) {
      var segs :| Splits("", segs, s);
      assert segs == [];
    }
  }

  lemma MatchOne(p: string, s: string)
    requires p != "" && p[0] != '%'
    ensures Matches(p, s) <==> s != "" && (p[0] == '_' || p[0] == s[0]) && Matches(p[1..], s[1..])
  {
    MatchStep(p, s);
    if s != "" { assert s[..1] == [s[0]]; }
    if Matches(p, s) {
      var k: nat :| k <= |s| && Stands(p[0], s[..k]) && Matches(p[1..], s[k..]);
      assert |s[..k]| == 1;
    }
    assert s != "" && (p[0] == '_' || p[0] == s[0]) ==> Stands(p[0], s[..1]);
  }

  lemma TailOfAny(p: string, s: string, k: nat)
    requires p != "" && p[0] == '%' && k <= |s| && Matches(p[1..], s[k..])
    ensures Matches(p, s)
  {
    SplitMore(p, k, s);
  }

  // Exactly the meaning of the pattern, on every pattern and string.
  method SqlLikeMatch(pattern: string, str: string) returns (r: bool)
    ensures r <==> Matches(pattern, str)
    decreases |pattern|
  {
    var p, s := pattern, str;
    while |p| > 0
      invariant |p| <= |pattern|
      invariant Matches(pattern, str) <==> Matches(p, s)
      decreases |p|
    {
      if p[0] == '%' {
        ghost var whole := p;
        MatchStep(whole, s);
        p := p[1..];
        if |p| == 0 {
          MatchEmpty(s[|s|..]);
          TailOfAny(whole, s, |s|);
          return true;
        }
        for i := 0 to |s| + 1
          invariant forall k :: 0 <= k < i ==> !Matches(p, s[k..])
        {
          var m := SqlLikeMatch(p, s[i..]);
          if m {
            TailOfAny(whole, s, i);
            return true;
          }
        }
        return false;
      } else {
        MatchOne(p, s);
        if |s| == 0 || (p[0] != '_' && p[0] != s[0]) { return false; }
        p, s := p[1..], s[1..];
      }
    }
    MatchEmpty(s);
    return |s| == 0;
  }

  // --- the pre namespace ---

  const PRE := "pre."

  predicate Wild(c: char) {
    c == '%' || c == '_'
  }

  predicate PreOnly(p: string) {
    |p| >= 4 && p[..4] == PRE
  }

  // One string the pattern matches: every wildcard filled with an x.
  function Filled(p: string): string {
    seq(|p|, i requires 0 <= i < |p| => if Wild(p[i]) then 'x' else p[i])
  }

  lemma {:induction false} FilledMatches(p: string)
    ensures Matches(p, Filled(p))
    decreases |p|
  {
    if p == "" {
      MatchEmpty("");
    } else {
      FilledMatches(p[1..]);
      var s := Filled(p);
      assert s[1..] == Filled(p[1..]);
      assert s[..1] == [s[0]];
      SplitMore(p, 1, s);
    }
  }

  lemma {:induction false} ConstantPrefix(p: string, k: nat, s: string)
    requires k <= |p| && Matches(p, s) && forall i :: 0 <= i < k ==> !Wild(p[i])
    ensures k <= |s| && s[..k] == p[..k]
    decreases k
  {
    if k > 0 {
      MatchOne(p, s);
      ConstantPrefix(p[1..], k - 1, s[1..]);
      assert s[..k] == [s[0]] + s[1..][..k - 1] && p[..k] == [p[0]] + p[1..][..k - 1];
    }
  }

  // The test on the constant prefix is exact: it holds when every matched code is in pre.
  method PatternOnlyMatchesPre(p: string) returns (r: bool)
    ensures r <==> forall s :: Matches(p, s) ==> PreOnly(s)
  {
    FilledMatches(p);
    for i := 0 to |p|
      invariant forall k :: 0 <= k < i ==> !Wild(p[k])
    {
      if Wild(p[i]) {
        r := |p[..i]| >= 4 && p[..i][..4] == PRE;
        ConstantDecides(p, i);
        return;
      }
    }
    r := |p| >= 4 && p[..4] == PRE;
    assert p[..|p|] == p;
    ConstantDecides(p, |p|);
  }

  // k: where the constant prefix ends.
  lemma ConstantDecides(p: string, k: nat)
    requires k <= |p| && (forall i :: 0 <= i < k ==> !Wild(p[i])) && (k == |p| || Wild(p[k]))
    ensures (k >= 4 && p[..k][..4] == PRE) <==> forall s :: Matches(p, s) ==> PreOnly(s)
  {
    if k >= 4 && p[..k][..4] == PRE {
      forall s | Matches(p, s) ensures PreOnly(s) {
        ConstantPrefix(p, k, s);
        assert s[..4] == s[..k][..4];
      }
    } else {
      var s := Filled(p);
      FilledMatches(p);
      assert k >= 4 ==> p[..k][..4] == s[..4];
      assert k < 4 && |s| >= 4 ==> s[..4][k] == s[k] == 'x' && PRE[k] != 'x';
      assert !PreOnly(s);
    }
  }

  // --- rules ---

  datatype ErrorCase = ErrorCase(code: seq<string>, retries: nat, goto: string, notReached: bool)

  // What a rule catches: anything when it lists no pattern.
  ghost predicate Catches(c: ErrorCase, errCode: string) {
    c.code == [] || exists pat :: pat in c.code && Matches(pat, errCode)
  }

  ghost predicate FirstCatch(rules: seq<ErrorCase>, errCode: string, i: nat) {
    i < |rules| && Catches(rules[i], errCode) && forall j :: 0 <= j < i ==> !Catches(rules[j], errCode)
  }

  // The rule that is found: the first that catches the code.
  ghost function Found(rules: seq<ErrorCase>, errCode: string): (m: Option<ErrorCase>)
    ensures m.Some? <==> exists c :: c in rules && Catches(c, errCode)
    ensures m.Some? ==> exists i: nat :: FirstCatch(rules, errCode, i) && m.value == rules[i]
  {
    if i: nat :| FirstCatch(rules, errCode, i) then Some(rules[i])
    else
      NoneCatches(rules, errCode);
      None
  }

  lemma {:induction false} NoneCatches(rules: seq<ErrorCase>, errCode: string)
    requires !exists i: nat :: FirstCatch(rules, errCode, i)
    ensures forall c :: c in rules ==> !Catches(c, errCode)
  {
    hide Catches;
    var i: nat := 0;
    while i < |rules|
      invariant i <= |rules|
      invariant forall j :: 0 <= j < i ==> !Catches(rules[j], errCode)
    {
      assert !FirstCatch(rules, errCode, i);
      i := i + 1;
    }
  }

  lemma FirstIsFound(rules: seq<ErrorCase>, errCode: string, i: nat)
    requires FirstCatch(rules, errCode, i)
    ensures Found(rules, errCode) == Some(rules[i])
  {
    assert rules[i] in rules;
    var j: nat :| FirstCatch(rules, errCode, j) && Found(rules, errCode) == Some(rules[j]);
  }

  method MatchOnError(rules: seq<ErrorCase>, errCode: string) returns (m: Option<ErrorCase>)
    ensures m == Found(rules, errCode)
  {
    for i := 0 to |rules|
      invariant forall j :: 0 <= j < i ==> !Catches(rules[j], errCode)
    {
      var c := rules[i];
      if |c.code| == 0 {
        FirstIsFound(rules, errCode, i);
        return Some(c);
      }
      for j := 0 to |c.code|
        invariant forall k :: 0 <= k < j ==> !Matches(c.code[k], errCode)
      {
        var hit := SqlLikeMatch(c.code[j], errCode);
        if hit {
          assert c.code[j] in c.code;
          FirstIsFound(rules, errCode, i);
          return Some(c);
        }
      }
    }
    return None;
  }

  predicate IsRetryAllowed(onlyOnce: bool, errCode: string, matched: Option<ErrorCase>) {
    !onlyOnce || (matched.Some? && matched.value.notReached) || PreOnly(errCode)
  }

  predicate Blank(p: string) {
    forall i :: 0 <= i < |p| ==> p[i] in " \t\n\r"
  }

  // What validation wants of the rule at position i of n.
  ghost predicate RuleOk(c: ErrorCase, i: nat, n: nat, onlyOnce: bool, known: set<string>) {
    && (forall pat :: pat in c.code ==> !Blank(pat) && !Matches(pat, "child.failed"))
    && (c.code == [] ==> i == n - 1)
    && (c.goto != "" && c.goto != "end" ==> c.goto in known)
    && (onlyOnce && c.retries > 0 ==> forall errCode :: Catches(c, errCode) ==> IsRetryAllowed(true, errCode, Some(c)))
  }

  lemma PatternsDecide(c: ErrorCase)
    requires !c.notReached
    ensures (c.code != [] && forall pat :: pat in c.code ==> forall s :: Matches(pat, s) ==> PreOnly(s)) <==>
            (forall errCode :: Catches(c, errCode) ==> IsRetryAllowed(true, errCode, Some(c)))
  {
    if c.code == [] {
      assert Catches(c, "x") && !IsRetryAllowed(true, "x", Some(c));
    }
    if pat, s :| pat in c.code && Matches(pat, s) && !PreOnly(s) {
      assert Catches(c, s) && !IsRetryAllowed(true, s, Some(c));
    }
  }

  // The on_error part of validateTask: accepted when every rule catches only errors it may
  // retry, whatever the codes.
  method ValidateOnError(rules: seq<ErrorCase>, onlyOnce: bool, known: set<string>) returns (ok: bool)
    ensures ok <==> forall i: nat :: i < |rules| ==> RuleOk(rules[i], i, |rules|, onlyOnce, known)
  {
    for i := 0 to |rules|
      invariant forall j: nat :: j < i ==> RuleOk(rules[j], j, |rules|, onlyOnce, known)
    {
      var one := ValidateRule(rules[i], i, |rules|, onlyOnce, known);
      if !one { return false; }
    }
    return true;
  }

  method ValidateRule(c: ErrorCase, i: nat, n: nat, onlyOnce: bool, known: set<string>) returns (ok: bool)
    requires i < n
    ensures ok <==> RuleOk(c, i, n, onlyOnce, known)
  {
    for j := 0 to |c.code|
      invariant forall k :: 0 <= k < j ==> !Blank(c.code[k]) && !Matches(c.code[k], "child.failed")
    {
      assert c.code[j] in c.code;
      if Blank(c.code[j]) { return false; }
      var child := SqlLikeMatch(c.code[j], "child.failed");
      if child { return false; }
    }
    if |c.code| == 0 && i != n - 1 { return false; }
    if c.goto != "" && c.goto != "end" && c.goto !in known { return false; }
    if onlyOnce && c.retries > 0 && !c.notReached {
      PatternsDecide(c);
      if |c.code| == 0 { return false; }
      for j := 0 to |c.code|
        invariant forall k :: 0 <= k < j ==> forall s :: Matches(c.code[k], s) ==> PreOnly(s)
      {
        var only := PatternOnlyMatchesPre(c.code[j]);
        if !only {
          assert c.code[j] in c.code;
          return false;
        }
      }
    }
    return true;
  }

  // On a validated only_once task, the rule that is found never withholds its retries.
  lemma RetriesAreAllowed(rules: seq<ErrorCase>, onlyOnce: bool, known: set<string>, errCode: string)
    requires forall j: nat :: j < |rules| ==> RuleOk(rules[j], j, |rules|, onlyOnce, known)
    requires Found(rules, errCode).Some? && Found(rules, errCode).value.retries > 0
    ensures IsRetryAllowed(onlyOnce, errCode, Found(rules, errCode))
  {
    var i: nat :| FirstCatch(rules, errCode, i) && Found(rules, errCode) == Some(rules[i]);
    assert RuleOk(rules[i], i, |rules|, onlyOnce, known);
  }
}
