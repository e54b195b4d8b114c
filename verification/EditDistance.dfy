/** The edit distance behind the typosquatting check: the table the script fills in, the shortest
    edit script it stands for, and the laws of a metric. */
module EditDistance {

  const MAX_EDIT_DISTANCE: nat := 2

  function Min(a: nat, b: nat): nat {
    if a <= b then a else b
  }

  function Init(s: string): string
    requires s != []
  {
    s[..|s| - 1]
  }

  function Last(s: string): char
    requires s != []
  {
    s[|s| - 1]
  }

  function Cheapest(x: nat, y: nat, z: nat): nat {
    Min(Min(x + 1, y + 1), z)
  }

  /** The recurrence of the table, on prefixes. */
  function Dist(a: string, b: string): nat
    decreases |a| + |b|
  {
    if a == [] then |b|
    else if b == [] then |a|
    else Cheapest(Dist(Init(a), b), Dist(a, Init(b)), Dist(Init(a), Init(b)) + if Last(a) != Last(b) then 1 else 0)
  }

  // ----- The table -----

  ghost predicate Shaped(dp: array2<nat>, a: string, b: string) {
    dp.Length0 == |a| + 1 && dp.Length1 == |b| + 1
  }

  /** The first `width` cells of row `i` are filled in. */
  ghost predicate RowDone(dp: array2<nat>, a: string, b: string, i: nat, width: nat)
    requires Shaped(dp, a, b) && i <= |a| && width <= |b| + 1
    reads dp
  {
    forall j | 0 <= j < width :: dp[i, j] == Dist(a[..i], b[..j])
  }

  lemma {:induction false} Recurrence(s: string, t: string, s': string, t': string, x: nat, y: nat, z: nat)
    requires s != [] && t != [] && s' == Init(s) && t' == Init(t)
    requires x == Dist(s', t) && y == Dist(s, t') && z == Dist(s', t')
    ensures Dist(s, t) == Cheapest(x, y, z + if Last(s) != Last(t) then 1 else 0)
  {
  }

  method FirstRowAndColumn(dp: array2<nat>, a: string, b: string)
    requires Shaped(dp, a, b)
    modifies dp
    ensures RowDone(dp, a, b, 0, |b| + 1)
    ensures forall i | 0 <= i <= |a| :: dp[i, 0] == i
  {
    for i := 0 to |a| + 1
      invariant forall k | 0 <= k < i :: dp[k, 0] == k
    {
      dp[i, 0] := i;
    }
    for j := 0 to |b| + 1
      invariant forall k | 0 <= k <= |a| :: dp[k, 0] == k
      invariant forall k | 0 <= k < j :: dp[0, k] == k
    {
      dp[0, j] := j;
    }
  }

  method FillRow(dp: array2<nat>, a: string, b: string, i: nat)
    requires Shaped(dp, a, b) && 1 <= i <= |a|
    requires RowDone(dp, a, b, i - 1, |b| + 1) && dp[i, 0] == i
    modifies dp
    ensures RowDone(dp, a, b, i, |b| + 1)
    ensures forall k | i < k <= |a| :: dp[k, 0] == old(dp[k, 0])
  {
    for j := 1 to |b| + 1
      invariant RowDone(dp, a, b, i - 1, |b| + 1)
      invariant RowDone(dp, a, b, i, j)
      invariant forall k | i < k <= |a| :: dp[k, 0] == old(dp[k, 0])
    {
      var cell := NextCell(dp, a, b, i, j);
      dp[i, j] := cell;
    }
  }

  method NextCell(dp: array2<nat>, a: string, b: string, i: nat, j: nat) returns (cell: nat)
    requires Shaped(dp, a, b) && 1 <= i <= |a| && 1 <= j <= |b|
    requires RowDone(dp, a, b, i - 1, |b| + 1) && RowDone(dp, a, b, i, j)
    ensures cell == Dist(a[..i], b[..j])
  {
    Recurrence(a[..i], b[..j], a[..i - 1], b[..j - 1], dp[i - 1, j], dp[i, j - 1], dp[i - 1, j - 1]);
    cell := Min(Min(dp[i - 1, j] + 1, dp[i, j - 1] + 1),
                dp[i - 1, j - 1] + if a[i - 1] != b[j - 1] then 1 else 0);
  }

  method Levenshtein(a: string, b: string) returns (distance: nat)
    ensures distance == Dist(a, b)
  {
    var m, n := |a|, |b|;
    var dp := new nat[m + 1, n + 1]((_, _) => 0);
    FirstRowAndColumn(dp, a, b);
    for i := 1 to m + 1
      invariant forall k | i <= k <= m :: dp[k, 0] == k
      invariant RowDone(dp, a, b, i - 1, n + 1)
    {
      FillRow(dp, a, b, i);
    }
    assert a[..m] == a && b[..n] == b;
    distance := dp[m, n];
  }

  // ----- Metric laws -----

  lemma {:induction false} Bounds(a: string, b: string)
    ensures |a| - |b| <= Dist(a, b) && |b| - |a| <= Dist(a, b)
    ensures Dist(a, b) <= if |a| <= |b| then |b| else |a|
    decreases |a| + |b|
  {
    if a != [] && b != [] {
      Bounds(Init(a), b);
      Bounds(a, Init(b));
      Bounds(Init(a), Init(b));
    }
  }

  lemma {:induction false} Symmetric(a: string, b: string)
    ensures Dist(a, b) == Dist(b, a)
    decreases |a| + |b|
  {
    if a != [] && b != [] {
      Symmetric(Init(a), b);
      Symmetric(a, Init(b));
      Symmetric(Init(a), Init(b));
    }
  }

  lemma {:induction false} ZeroIffEqual(a: string, b: string)
    ensures Dist(a, b) == 0 <==> a == b
    decreases |a| + |b|
  {
    if a != [] && b != [] {
      ZeroIffEqual(Init(a), Init(b));
      assert a == Init(a) + [Last(a)] && b == Init(b) + [Last(b)];
      if a == b {
        assert Init(a) == Init(b);
      }
    }
  }

  lemma {:induction false} DropLast(a: string, b: string)
    requires a != []
    ensures Dist(a, b) <= Dist(Init(a), b) + 1
    ensures Dist(b, a) <= Dist(b, Init(a)) + 1
  {
    if Init(a) == [] {
      Bounds(a, b);
      Bounds(b, a);
    }
  }

  lemma {:induction false} Triangle(a: string, b: string, c: string)
    ensures Dist(a, c) <= Dist(a, b) + Dist(b, c)
    decreases |a| + |b| + |c|
  {
    if a == [] {
      Bounds(b, c);
    } else if c == [] {
      Bounds(a, b);
    } else if b == [] {
      Bounds(a, c);
    } else {
      DropLast(a, c);
      DropLast(c, a);
      Triangle(Init(a), b, c);
      Triangle(a, b, Init(c));
      Triangle(a, Init(b), c);
      Triangle(a, Init(b), Init(c));
      Triangle(Init(a), Init(b), c);
      Triangle(Init(a), Init(b), Init(c));
    }
  }

  /** The distance is a metric, at least the difference of the lengths and at most the longer one. */
  lemma {:induction false} Metric(a: string, b: string, c: string)
    ensures Dist(a, b) == 0 <==> a == b
    ensures Dist(a, b) == Dist(b, a)
    ensures Dist(a, c) <= Dist(a, b) + Dist(b, c)
    ensures |a| - |b| <= Dist(a, b) <= if |a| <= |b| then |b| else |a|
  {
    ZeroIffEqual(a, b);
    Symmetric(a, b);
    Triangle(a, b, c);
    Bounds(a, b);
  }

  // ----- Shortest edit scripts -----

  datatype Edit = Insert(at: nat, c: char) | Delete(at: nat) | Substitute(at: nat, c: char)

  predicate Applicable(s: string, e: Edit) {
    if e.Insert? then e.at <= |s| else e.at < |s|
  }

  function Apply(s: string, e: Edit): string
    requires Applicable(s, e)
  {
    match e
    case Insert(at, c) => s[..at] + [c] + s[at..]
    case Delete(at) => s[..at] + s[at + 1..]
    case Substitute(at, c) => s[..at] + [c] + s[at + 1..]
  }

  predicate Transforms(a: string, script: seq<Edit>, b: string)
    decreases |script|
  {
    if script == [] then a == b
    else Applicable(a, script[0]) && Transforms(Apply(a, script[0]), script[1..], b)
  }

  lemma {:induction false} SameSuffix(a: string, b: string, q: string)
    ensures Dist(a + q, b + q) <= Dist(a, b)
    decreases |q|
  {
    if q == [] {
      assert a + q == a && b + q == b;
    } else {
      SameSuffix(a, b, Init(q));
      assert Init(a + q) == a + Init(q) && Init(b + q) == b + Init(q);
      AlikeAtEnd(a + q, b + q, Dist(a + Init(q), b + Init(q)));
    }
  }

  lemma {:induction false} AlikeAtEnd(s: string, t: string, z: nat)
    requires s != [] && t != [] && Last(s) == Last(t) && z == Dist(Init(s), Init(t))
    ensures Dist(s, t) <= z
  {
  }

  lemma {:induction false} OneMore(p: string, c: char, q: string)
    ensures Dist(p + [c] + q, p + q) <= 1 && Dist(p + q, p + [c] + q) <= 1
  {
    ZeroIffEqual(p, p);
    DropLast(p + [c], p);
    assert Init(p + [c]) == p;
    SameSuffix(p, p + [c], q);
    SameSuffix(p + [c], p, q);
  }

  lemma {:induction false} OneOther(p: string, c: char, d: char, q: string)
    ensures Dist(p + [c] + q, p + [d] + q) <= 1
  {
    ZeroIffEqual(p, p);
    assert Init(p + [c]) == p && Init(p + [d]) == p;
    SameSuffix(p + [c], p + [d], q);
  }

  lemma {:induction false} OneEdit(s: string, e: Edit)
    requires Applicable(s, e)
    ensures Dist(s, Apply(s, e)) <= 1
  {
    match e
    case Insert(at, c) =>
      assert s == s[..at] + s[at..];
      OneMore(s[..at], c, s[at..]);
    case Delete(at) =>
      assert s == s[..at] + [s[at]] + s[at + 1..];
      OneMore(s[..at], s[at], s[at + 1..]);
    case Substitute(at, c) =>
      assert s == s[..at] + [s[at]] + s[at + 1..];
      OneOther(s[..at], s[at], c, s[at + 1..]);
  }

  lemma {:induction false} NoScriptShorter(a: string, script: seq<Edit>, b: string)
    requires Transforms(a, script, b)
    ensures Dist(a, b) <= |script|
    decreases |script|
  {
    if script == [] {
      ZeroIffEqual(a, b);
    } else {
      var s := Apply(a, script[0]);
      OneEdit(a, script[0]);
      NoScriptShorter(s, script[1..], b);
      Triangle(a, s, b);
    }
  }

  lemma ApplyLift(s: string, e: Edit, x: char)
    requires Applicable(s, e)
    ensures Applicable(s + [x], e) && Apply(s + [x], e) == Apply(s, e) + [x]
  {
  }

  lemma {:induction false} LiftScript(a: string, script: seq<Edit>, b: string, x: char)
    requires Transforms(a, script, b)
    ensures Transforms(a + [x], script, b + [x])
    decreases |script|
  {
    if script != [] {
      ApplyLift(a, script[0], x);
      LiftScript(Apply(a, script[0]), script[1..], b, x);
    }
  }

  lemma {:induction false} AppendEdit(a: string, script: seq<Edit>, b: string, e: Edit)
    requires Transforms(a, script, b) && Applicable(b, e)
    ensures Transforms(a, script + [e], Apply(b, e))
    decreases |script|
  {
    var all := script + [e];
    if script != [] {
      AppendEdit(Apply(a, script[0]), script[1..], b, e);
      assert all[0] == script[0] && all[1..] == script[1..] + [e];
    } else {
      assert all[1..] == [];
    }
  }

  lemma {:induction false} PrependEdit(a: string, e: Edit, script: seq<Edit>, b: string)
    requires Applicable(a, e) && Transforms(Apply(a, e), script, b)
    ensures Transforms(a, [e] + script, b)
  {
    assert ([e] + script)[1..] == script;
  }

  lemma {:induction false} DeleteLast(a: string, b: string, rest: seq<Edit>) returns (script: seq<Edit>)
    requires a != [] && Transforms(Init(a), rest, b)
    ensures Transforms(a, script, b) && |script| == |rest| + 1
  {
    script := [Delete(|a| - 1)] + rest;
    assert Apply(a, Delete(|a| - 1)) == Init(a);
    PrependEdit(a, Delete(|a| - 1), rest, b);
  }

  lemma {:induction false} InsertLast(a: string, b: string, rest: seq<Edit>) returns (script: seq<Edit>)
    requires b != [] && Transforms(a, rest, Init(b))
    ensures Transforms(a, script, b) && |script| == |rest| + 1
  {
    script := rest + [Insert(|b| - 1, Last(b))];
    assert Apply(Init(b), Insert(|b| - 1, Last(b))) == b;
    AppendEdit(a, rest, Init(b), Insert(|b| - 1, Last(b)));
  }

  lemma {:induction false} KeepLast(a: string, q: string, rest: seq<Edit>, b: string)
    requires a != [] && Transforms(Init(a), rest, q) && b == q + [Last(a)]
    ensures Transforms(a, rest, b)
  {
    assert a == Init(a) + [Last(a)];
    LiftScript(Init(a), rest, q, Last(a));
  }

  lemma {:induction false} SubstituteLast(b: string, x: char)
    requires b != []
    ensures var mid, e := Init(b) + [x], Substitute(|b| - 1, Last(b)); Applicable(mid, e) && Apply(mid, e) == b
  {
    var mid, e := Init(b) + [x], Substitute(|b| - 1, Last(b));
    assert mid[..|b| - 1] == Init(b) && mid[|b|..] == [];
    assert b == Init(b) + [Last(b)];
  }

  lemma {:induction false} ReplaceLast(a: string, b: string, rest: seq<Edit>) returns (script: seq<Edit>)
    requires a != [] && b != [] && Transforms(Init(a), rest, Init(b))
    ensures Transforms(a, script, b) && |script| == |rest| + 1
  {
    var mid := Init(b) + [Last(a)];
    KeepLast(a, Init(b), rest, mid);
    script := rest + [Substitute(|b| - 1, Last(b))];
    SubstituteLast(b, Last(a));
    AppendEdit(a, rest, mid, Substitute(|b| - 1, Last(b)));
  }

  /** Which edit a shortest script ends or begins with. */
  lemma {:induction false} LastChoice(a: string, b: string) returns (d: nat, x: nat, y: nat, z: nat)
    requires a != [] && b != []
    ensures d == Dist(a, b) && x == Dist(Init(a), b) && y == Dist(a, Init(b)) && z == Dist(Init(a), Init(b))
    ensures d == x + 1 || d == y + 1 || d == z + if Last(a) != Last(b) then 1 else 0
  {
    d, x, y, z := Dist(a, b), Dist(Init(a), b), Dist(a, Init(b)), Dist(Init(a), Init(b));
    Recurrence(a, b, Init(a), Init(b), x, y, z);
  }

  lemma {:induction false} SomeScriptAsShort(a: string, b: string) returns (script: seq<Edit>)
    ensures Transforms(a, script, b) && |script| == Dist(a, b)
    decreases |a| + |b|
  {
    if a == [] && b == [] {
      script := [];
    } else if b == [] {
      var rest := SomeScriptAsShort(Init(a), b);
      script := DeleteLast(a, b, rest);
    } else if a == [] {
      var rest := SomeScriptAsShort(a, Init(b));
      script := InsertLast(a, b, rest);
    } else {
      script := ScriptByChoice(a, b);
    }
  }

  lemma {:induction false} ScriptByChoice(a: string, b: string) returns (script: seq<Edit>)
    requires a != [] && b != []
    ensures Transforms(a, script, b) && |script| == Dist(a, b)
    decreases |a| + |b|, 0
  {
    var d, x, y, z := LastChoice(a, b);
    if d == x + 1 {
      var rest := SomeScriptAsShort(Init(a), b);
      script := DeleteLast(a, b, rest);
    } else if d == y + 1 {
      var rest := SomeScriptAsShort(a, Init(b));
      script := InsertLast(a, b, rest);
    } else {
      var rest := SomeScriptAsShort(Init(a), Init(b));
      script := LastKeptOrReplaced(a, b, rest);
    }
  }

  lemma {:induction false} LastKeptOrReplaced(a: string, b: string, rest: seq<Edit>) returns (script: seq<Edit>)
    requires a != [] && b != [] && Transforms(Init(a), rest, Init(b))
    ensures Transforms(a, script, b) && |script| == |rest| + if Last(a) != Last(b) then 1 else 0
  {
    if Last(a) == Last(b) {
      script := rest;
      assert b == Init(b) + [Last(a)];
      KeepLast(a, Init(b), rest, b);
    } else {
      script := ReplaceLast(a, b, rest);
    }
  }

  /** `n` is the length of a shortest edit script from `a` to `b`. */
  ghost predicate Shortest(a: string, b: string, n: nat) {
    && (exists script :: Transforms(a, script, b) && |script| == n)
    && (forall script | Transforms(a, script, b) :: n <= |script|)
  }

  /** The table's answer is the length of a shortest script, and the only such length. */
  lemma {:induction false} DistanceIsShortest(a: string, b: string, n: nat)
    ensures n == Dist(a, b) <==> Shortest(a, b, n)
  {
    var best := SomeScriptAsShort(a, b);
    forall script | Transforms(a, script, b) ensures Dist(a, b) <= |script| {
      NoScriptShorter(a, script, b);
    }
  }

  // ----- Reporting -----

  datatype Suspect = Suspect(dep: string, known: string, distance: nat)

  predicate Eligible(dep: string, known: string) {
    dep != known && |dep| > 3 && |known| > 3
  }

  /** The reports for one dependency, in the order the known names are visited. */
  function SuspectsOf(dep: string, known: seq<string>, lower: string -> string): seq<Suspect> {
    if known == [] then []
    else
      var rest := SuspectsOf(dep, known[..|known| - 1], lower);
      var k := known[|known| - 1];
      var d := Dist(lower(dep), lower(k));
      if Eligible(dep, k) && 0 < d <= MAX_EDIT_DISTANCE then rest + [Suspect(dep, k, d)] else rest
  }

  function Suspects(deps: seq<string>, known: seq<string>, lower: string -> string): seq<Suspect> {
    if deps == [] then []
    else Suspects(deps[..|deps| - 1], known, lower) + SuspectsOf(deps[|deps| - 1], known, lower)
  }

  /** `deps` are the new dependencies in sorted order, `known` the curated names in whatever order
      the set yields them, `lower` the lower-casing of a name. */
  method FindSuspicious(deps: seq<string>, known: seq<string>, lower: string -> string)
    returns (suspicious: seq<Suspect>)
    ensures suspicious == Suspects(deps, known, lower)
  {
    suspicious := [];
    for i := 0 to |deps|
      invariant suspicious == Suspects(deps[..i], known, lower)
    {
      ghost var before := suspicious;
      for j := 0 to |known|
        invariant suspicious == before + SuspectsOf(deps[i], known[..j], lower)
      {
        assert known[..j + 1][..j] == known[..j];
        if deps[i] == known[j] {
          continue;
        }
        if |deps[i]| > 3 && |known[j]| > 3 {
          var distance := Levenshtein(lower(deps[i]), lower(known[j]));
          if 0 < distance <= MAX_EDIT_DISTANCE {
            suspicious := suspicious + [Suspect(deps[i], known[j], distance)];
          }
        }
      }
      assert known[..|known|] == known && deps[..i + 1][..i] == deps[..i];
    }
    assert deps[..|deps|] == deps;
  }

  lemma {:induction false} SuspectsOfMember(dep: string, known: seq<string>, lower: string -> string, s: Suspect)
    ensures s in SuspectsOf(dep, known, lower) <==>
      && s.dep == dep && s.known in known && Eligible(s.dep, s.known)
      && s.distance == Dist(lower(s.dep), lower(s.known)) && 0 < s.distance <= MAX_EDIT_DISTANCE
  {
    if known != [] {
      SuspectsOfMember(dep, known[..|known| - 1], lower, s);
      assert known == known[..|known| - 1] + [known[|known| - 1]];
    }
  }

  lemma {:induction false} SuspectsMember(deps: seq<string>, known: seq<string>, lower: string -> string, s: Suspect)
    ensures s in Suspects(deps, known, lower) <==>
      && s.dep in deps && s.known in known && Eligible(s.dep, s.known)
      && s.distance == Dist(lower(s.dep), lower(s.known)) && 0 < s.distance <= MAX_EDIT_DISTANCE
  {
    if deps != [] {
      SuspectsMember(deps[..|deps| - 1], known, lower, s);
      SuspectsOfMember(deps[|deps| - 1], known, lower, s);
      assert deps == deps[..|deps| - 1] + [deps[|deps| - 1]];
    }
  }

  /** Exactly the pairs of different names longer than three characters whose lower-cased forms differ
      and are at most two edits apart are reported, each with the length of a shortest script. */
  lemma {:induction false} ReportsExactly(deps: seq<string>, known: seq<string>, lower: string -> string, s: Suspect)
    ensures s in Suspects(deps, known, lower) <==>
      && s.dep in deps && s.known in known && s.dep != s.known && |s.dep| > 3 && |s.known| > 3
      && lower(s.dep) != lower(s.known)
      && Shortest(lower(s.dep), lower(s.known), s.distance) && s.distance <= 2
  {
    SuspectsMember(deps, known, lower, s);
    DistanceIsShortest(lower(s.dep), lower(s.known), s.distance);
    ZeroIffEqual(lower(s.dep), lower(s.known));
  }

  // ----- Order of the reports -----

  ghost predicate Distinct(names: seq<string>) {
    forall i, j | 0 <= i < j < |names| :: names[i] != names[j]
  }

  /** `x` comes before `y` in the list. */
  ghost predicate Before(names: seq<string>, x: string, y: string) {
    exists i, j :: 0 <= i < j < |names| && names[i] == x && names[j] == y
  }

  /** Ordered by dependency and then by known name; no pair twice. */
  ghost predicate InOrder(deps: seq<string>, known: seq<string>, rs: seq<Suspect>) {
    forall a, b | 0 <= a < b < |rs| ::
      Before(deps, rs[a].dep, rs[b].dep) || (rs[a].dep == rs[b].dep && Before(known, rs[a].known, rs[b].known))
  }

  lemma BeforeLonger(names: seq<string>, n: nat, x: string, y: string)
    requires n <= |names| && Before(names[..n], x, y)
    ensures Before(names, x, y)
  {
    var i, j :| 0 <= i < j < n && names[..n][i] == x && names[..n][j] == y;
    assert names[i] == x && names[j] == y;
  }

  lemma BeforeLast(names: seq<string>, x: string)
    requires names != [] && x in names[..|names| - 1]
    ensures Before(names, x, names[|names| - 1])
  {
    var i :| 0 <= i < |names| - 1 && names[..|names| - 1][i] == x;
    assert names[i] == x && i < |names| - 1;
  }

  lemma {:induction false} SuspectsOfOrdered(dep: string, known: seq<string>, lower: string -> string)
    ensures var rs := SuspectsOf(dep, known, lower);
            forall a, b | 0 <= a < b < |rs| :: rs[a].dep == rs[b].dep && Before(known, rs[a].known, rs[b].known)
  {
    if known != [] {
      var n := |known| - 1;
      var before, rs := SuspectsOf(dep, known[..n], lower), SuspectsOf(dep, known, lower);
      SuspectsOfOrdered(dep, known[..n], lower);
      forall a, b | 0 <= a < b < |rs| ensures rs[a].dep == rs[b].dep && Before(known, rs[a].known, rs[b].known) {
        SuspectsOfMember(dep, known[..n], lower, rs[a]);
        SuspectsOfMember(dep, known, lower, rs[b]);
        if b < |before| {
          BeforeLonger(known, n, rs[a].known, rs[b].known);
        } else {
          BeforeLast(known, rs[a].known);
        }
      }
    }
  }

  /** The reports come in the order of the dependencies, and for one dependency in the order of the
      known names. */
  lemma {:induction false} ReportsOrdered(deps: seq<string>, known: seq<string>, lower: string -> string)
    ensures InOrder(deps, known, Suspects(deps, known, lower))
  {
    if deps != [] {
      var n := |deps| - 1;
      var before, more, rs := Suspects(deps[..n], known, lower), SuspectsOf(deps[n], known, lower), Suspects(deps, known, lower);
      ReportsOrdered(deps[..n], known, lower);
      SuspectsOfOrdered(deps[n], known, lower);
      forall a, b | 0 <= a < b < |rs|
        ensures Before(deps, rs[a].dep, rs[b].dep) || (rs[a].dep == rs[b].dep && Before(known, rs[a].known, rs[b].known))
      {
        if b < |before| {
          assert before[a] == rs[a] && before[b] == rs[b];
          if Before(deps[..n], rs[a].dep, rs[b].dep) {
            BeforeLonger(deps, n, rs[a].dep, rs[b].dep);
          }
        } else if a < |before| {
          SuspectsMember(deps[..n], known, lower, rs[a]);
          SuspectsOfMember(deps[n], known, lower, rs[b]);
          BeforeLast(deps, rs[a].dep);
        } else {
          assert more[a - |before|] == rs[a] && more[b - |before|] == rs[b];
        }
      }
    }
  }

  /** So without repeated names every pair is reported at most once. */
  lemma ReportedOnce(deps: seq<string>, known: seq<string>, lower: string -> string, a: nat, b: nat)
    requires Distinct(deps) && Distinct(known) && a < b < |Suspects(deps, known, lower)|
    ensures var rs := Suspects(deps, known, lower); !(rs[a].dep == rs[b].dep && rs[a].known == rs[b].known)
  {
    ReportsOrdered(deps, known, lower);
  }
}
