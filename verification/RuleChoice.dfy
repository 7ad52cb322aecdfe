/** How a winning permission rule is chosen among those that apply.

    `EndpointRules` is the evaluator of `permissions.rs` (filter, stable sort, tie group, most
    restrictive), `PathRules` the one inside the credential manager (a single scan). Both choose a
    lexicographic maximum; among equals the first keeps the last rule and the second the first. */
module RuleChoice {
  import opened Wrappers
  import PathGlob
  import SegmentGlob

  type Uuid = nat

  datatype Level = Allow | AllowHil | AllowHil2fa | Deny

  datatype HttpMethod = Get | Post | Put | Delete | Patch | Head | Options

  datatype Decision = Decision(level: Level, matchedRule: Option<Uuid>)

  function Restriction(level: Level): (r: nat)
  {
    match level
    case Allow => 0
    case AllowHil => 1
    case AllowHil2fa => 2
    case Deny => 3
  }

  // ---- rules of an endpoint ----

  datatype Permission = Permission(
    id: Uuid, endpointId: Uuid, pathPattern: string, method_: Option<HttpMethod>, level: Level)

  datatype Score = Score(isExact: bool, patternLength: nat, hasMethod: bool)

  function ScoreOf(p: Permission): Score {
    Score('*' !in p.pathPattern && '?' !in p.pathPattern, |p.pathPattern|, p.method_.Some?)
  }

  predicate LessSpecific(a: Score, b: Score) {
    if a.isExact != b.isExact then b.isExact
    else if a.patternLength != b.patternLength then a.patternLength < b.patternLength
    else !a.hasMethod && b.hasMethod
  }

  ghost predicate Applies(p: Permission, verb: HttpMethod, path: string) {
    && (p.method_ == None || p.method_ == Some(verb))
    && PathGlob.Denotes(PathGlob.Tokens(p.pathPattern), path)
  }

  /** The rule `p` is beaten by `q`: less specific, or as specific and less restrictive. */
  predicate Beaten(p: Permission, q: Permission) {
    || LessSpecific(ScoreOf(p), ScoreOf(q))
    || (ScoreOf(p) == ScoreOf(q) && Restriction(p.level) < Restriction(q.level))
  }

  /** Rule `i` applies, nothing that applies beats it, and every later equal has been preferred. */
  ghost predicate LastBest(rules: seq<Permission>, verb: HttpMethod, path: string, i: nat) {
    && i < |rules| && Applies(rules[i], verb, path)
    && (forall j | 0 <= j < |rules| && Applies(rules[j], verb, path) :: !Beaten(rules[i], rules[j]))
    && (forall j | i < j < |rules| && Applies(rules[j], verb, path) :: Beaten(rules[j], rules[i]))
  }

  ghost predicate Decides(rules: seq<Permission>, verb: HttpMethod, path: string, d: Decision) {
    if exists i | 0 <= i < |rules| :: Applies(rules[i], verb, path)
    then exists i: nat :: LastBest(rules, verb, path, i) && d == Decision(rules[i].level, Some(rules[i].id))
    else d == Decision(Deny, None)
  }

  lemma SameMembers<T>(xs: seq<T>, ys: seq<T>)
    requires multiset(xs) == multiset(ys)
    ensures forall x :: x in xs <==> x in ys
  {
    forall x ensures x in xs <==> x in ys {
      assert x in xs <==> x in multiset(xs);
      assert x in ys <==> x in multiset(ys);
    }
  }

  lemma Elsewhere<T>(xs: seq<T>, ys: seq<T>, i: nat) returns (j: nat)
    requires multiset(xs) == multiset(ys) && i < |xs|
    ensures j < |ys| && ys[j] == xs[i]
  {
    SameMembers(xs, ys);
    assert xs[i] in xs;
    j :| 0 <= j < |ys| && ys[j] == xs[i];
  }

  lemma BestInBoth(rules: seq<Permission>, rules': seq<Permission>, verb: HttpMethod, path: string, a: nat, b: nat)
    requires multiset(rules) == multiset(rules')
    requires LastBest(rules, verb, path, a) && LastBest(rules', verb, path, b)
    ensures rules[a].level == rules'[b].level
  {
    var i := Elsewhere(rules, rules', a);
    var j := Elsewhere(rules', rules, b);
    assert !Beaten(rules[a], rules[j]) && !Beaten(rules'[b], rules'[i]);
  }

  /** The order of the rules can change which rule is reported, never the level. */
  lemma LevelIgnoresOrder(rules: seq<Permission>, rules': seq<Permission>, verb: HttpMethod, path: string,
                          d: Decision, d': Decision)
    requires multiset(rules) == multiset(rules')
    requires Decides(rules, verb, path, d) && Decides(rules', verb, path, d')
    ensures d.level == d'.level
  {
    if i: nat :| i < |rules| && Applies(rules[i], verb, path) {
      var i' := Elsewhere(rules, rules', i);
      assert Applies(rules'[i'], verb, path);
      var a: nat :| LastBest(rules, verb, path, a) && d == Decision(rules[a].level, Some(rules[a].id));
      var b: nat :| LastBest(rules', verb, path, b) && d' == Decision(rules'[b].level, Some(rules'[b].id));
      BestInBoth(rules, rules', verb, path, a, b);
    } else {
      forall j: nat | j < |rules'| ensures !Applies(rules'[j], verb, path) {
        var j' := Elsewhere(rules', rules, j);
      }
    }
  }

  /** Which levels are at least as strict: Allow, AllowHil, AllowHil2fa, Deny, from the mildest on. */
  predicate AsStrict(a: Level, b: Level) {
    match b
    case Allow => true
    case AllowHil => a != Allow
    case AllowHil2fa => a == AllowHil2fa || a == Deny
    case Deny => a == Deny
  }

  predicate WithoutWildcards(pattern: string) {
    '*' !in pattern && '?' !in pattern
  }

  /** A pattern without wildcards comes before one with, then the longer pattern, then a rule for one
      method before a rule for all. */
  predicate AsSpecific(p: Permission, q: Permission) {
    if WithoutWildcards(p.pathPattern) != WithoutWildcards(q.pathPattern) then WithoutWildcards(p.pathPattern)
    else if |p.pathPattern| != |q.pathPattern| then |p.pathPattern| > |q.pathPattern|
    else p.method_.Some? || q.method_.None?
  }

  predicate Preferred(p: Permission, q: Permission) {
    AsSpecific(p, q) && (AsSpecific(q, p) ==> AsStrict(p.level, q.level))
  }

  /** The decision comes from a rule preferred to every rule that applies, the last of its equals. */
  lemma DecisionPrefers(rules: seq<Permission>, verb: HttpMethod, path: string, d: Decision) returns (i: nat)
    requires Decides(rules, verb, path, d) && exists k | 0 <= k < |rules| :: Applies(rules[k], verb, path)
    ensures i < |rules| && Applies(rules[i], verb, path) && d == Decision(rules[i].level, Some(rules[i].id))
    ensures forall j | 0 <= j < |rules| && Applies(rules[j], verb, path) ::
      Preferred(rules[i], rules[j]) && (i < j ==> !Preferred(rules[j], rules[i]))
  {
    i :| LastBest(rules, verb, path, i) && d == Decision(rules[i].level, Some(rules[i].id));
    forall j | 0 <= j < |rules| && Applies(rules[j], verb, path)
      ensures Preferred(rules[i], rules[j]) && (i < j ==> !Preferred(rules[j], rules[i]))
    {
      BeatenOrPreferred(rules[i], rules[j]);
      BeatenOrPreferred(rules[j], rules[i]);
    }
  }

  lemma BeatenOrPreferred(p: Permission, q: Permission)
    ensures Beaten(p, q) <==> !Preferred(p, q)
  {
  }

  /** A rule as specific as any other that applies sets a lower bound: if it denies, access is denied. */
  lemma StrictestDecides(rules: seq<Permission>, verb: HttpMethod, path: string, d: Decision, j: nat)
    requires Decides(rules, verb, path, d) && j < |rules| && Applies(rules[j], verb, path)
    requires forall k | 0 <= k < |rules| && Applies(rules[k], verb, path) :: AsSpecific(rules[j], rules[k])
    ensures AsStrict(d.level, rules[j].level)
  {
    var i := DecisionPrefers(rules, verb, path, d);
  }

  /** The decision is a function of the rules and the request. */
  lemma DecisionUnique(rules: seq<Permission>, verb: HttpMethod, path: string, d: Decision, d': Decision)
    requires Decides(rules, verb, path, d) && Decides(rules, verb, path, d')
    ensures d == d'
  {
    if k :| 0 <= k < |rules| && Applies(rules[k], verb, path) {
      var i := DecisionPrefers(rules, verb, path, d);
      var i' := DecisionPrefers(rules, verb, path, d');
      assert i == i';
    }
  }

  /** When a rule for exactly this path applies, the winner is a rule for exactly this path. */
  lemma ExactRuleWins(rules: seq<Permission>, verb: HttpMethod, path: string, exact: nat, winner: nat)
    requires LastBest(rules, verb, path, winner)
    requires exact < |rules| && Applies(rules[exact], verb, path) && ScoreOf(rules[exact]).isExact
    ensures rules[winner].pathPattern == path
  {
    assert !Beaten(rules[winner], rules[exact]);
    PathGlob.PlainPatternIsItself(rules[winner].pathPattern, path);
  }

  class PermissionEvaluator {
    var permissions: map<Uuid, seq<Permission>>

    constructor ()
      ensures permissions == map[]
    {
      permissions := map[];
    }

    method AddPermission(p: Permission)
      modifies this
      ensures permissions == old(permissions)[
          p.endpointId := (if p.endpointId in old(permissions) then old(permissions)[p.endpointId] else []) + [p]]
    {
      var existing := if p.endpointId in permissions then permissions[p.endpointId] else [];
      permissions := permissions[p.endpointId := existing + [p]];
    }

    /** Drops the first rule with this id from the list of one endpoint, in whatever order the
        endpoints are visited. */
    method RemovePermission(id: Uuid) returns (removed: bool)
      modifies this
      ensures removed <==> exists e | e in old(permissions) :: HasId(old(permissions)[e], id)
      ensures !removed ==> permissions == old(permissions)
      ensures removed ==> exists e | e in old(permissions) ::
        HasId(old(permissions)[e], id) && permissions
        == old(permissions)[e := WithoutFirst(old(permissions)[e], id, IdOf)]
    {
      var left := permissions.Keys;
      while left != {}
        invariant left <= permissions.Keys && permissions == old(permissions)
        invariant forall e | e in permissions && e !in left :: !HasId(permissions[e], id)
        decreases |left|
      {
        var e :| e in left;
        var pos := 0;
        var rules := permissions[e];
        while pos < |rules| && rules[pos].id != id
          invariant 0 <= pos <= |rules|
          invariant forall k | 0 <= k < pos :: rules[k].id != id
        {
          pos := pos + 1;
        }
        if pos < |rules| {
          WithoutFirstAt(rules, id, IdOf, pos);
          permissions := permissions[e := rules[..pos] + rules[pos + 1..]];
          return true;
        }
        left := left - {e};
      }
      return false;
    }

    method Evaluate(endpointId: Uuid, verb: HttpMethod, path: string) returns (d: Decision)
      ensures Decides(if endpointId in permissions then permissions[endpointId] else [], verb, path, d)
    {
      if endpointId !in permissions {
        return Decision(Deny, None);
      }
      d := Choose(permissions[endpointId], verb, path);
    }
  }

  predicate HasId(rules: seq<Permission>, id: Uuid) {
    exists k | 0 <= k < |rules| :: rules[k].id == id
  }

  function IdOf(p: Permission): Uuid {
    p.id
  }

  function WithoutAt<T>(xs: seq<T>, pos: nat): seq<T> {
    if pos < |xs| then xs[..pos] + xs[pos + 1..] else xs
  }

  /** The list without the first element that carries the id, if there is one. */
  function WithoutFirst<T>(xs: seq<T>, id: Uuid, idOf: T -> Uuid): seq<T> {
    if xs == [] then []
    else if idOf(xs[0]) == id then xs[1..]
    else [xs[0]] + WithoutFirst(xs[1..], id, idOf)
  }

  lemma WithoutLater<T>(xs: seq<T>, pos: nat)
    requires 0 < pos <= |xs|
    ensures WithoutAt(xs, pos) == [xs[0]] + WithoutAt(xs[1..], pos - 1)
  {
    if pos < |xs| {
      assert xs[..pos] == [xs[0]] + xs[1..][..pos - 1] && xs[1..][pos..] == xs[pos + 1..];
    }
  }

  lemma {:induction false} WithoutFirstAt<T>(xs: seq<T>, id: Uuid, idOf: T -> Uuid, pos: nat)
    requires pos <= |xs| && forall k | 0 <= k < pos :: idOf(xs[k]) != id
    requires pos < |xs| ==> idOf(xs[pos]) == id
    ensures WithoutFirst(xs, id, idOf) == WithoutAt(xs, pos)
  {
    if pos > 0 {
      forall k | 0 <= k < pos - 1 ensures idOf(xs[1..][k]) != id {
        assert xs[1..][k] == xs[k + 1];
      }
      WithoutFirstAt(xs[1..], id, idOf, pos - 1);
      WithoutLater(xs, pos);
    }
  }

  /** Taking a fresh rule out again restores the list it was added to. */
  lemma {:induction false} RemoveUndoesAdd(rules: seq<Permission>, p: Permission)
    requires !HasId(rules, p.id)
    ensures WithoutFirst(rules + [p], p.id, IdOf) == rules
  {
    WithoutFirstAt(rules + [p], p.id, IdOf, |rules|);
  }

  // ---- the sorted choice ----

  /** The order a stable sort by descending score puts rule indices in. */
  predicate Before(rules: seq<Permission>, i: nat, j: nat)
    requires i < |rules| && j < |rules|
  {
    || LessSpecific(ScoreOf(rules[j]), ScoreOf(rules[i]))
    || (ScoreOf(rules[i]) == ScoreOf(rules[j]) && i < j)
  }

  predicate Indices(rules: seq<Permission>, xs: seq<nat>) {
    forall k | 0 <= k < |xs| :: xs[k] < |rules|
  }

  predicate SortedByScore(rules: seq<Permission>, xs: seq<nat>)
    requires Indices(rules, xs)
  {
    forall a, b | 0 <= a < b < |xs| :: Before(rules, xs[a], xs[b])
  }

  method InsertByScore(rules: seq<Permission>, sorted: seq<nat>, x: nat) returns (longer: seq<nat>)
    requires Indices(rules, sorted) && SortedByScore(rules, sorted)
    requires x < |rules| && forall k | 0 <= k < |sorted| :: sorted[k] < x
    ensures multiset(longer) == multiset(sorted) + multiset{x}
    ensures Indices(rules, longer) && SortedByScore(rules, longer)
  {
    var at := |sorted|;
    while at > 0 && LessSpecific(ScoreOf(rules[sorted[at - 1]]), ScoreOf(rules[x]))
      invariant 0 <= at <= |sorted|
      invariant forall k | at <= k < |sorted| :: LessSpecific(ScoreOf(rules[sorted[k]]), ScoreOf(rules[x]))
    {
      at := at - 1;
    }
    assert at > 0 ==> Before(rules, sorted[at - 1], x);
    assert sorted == sorted[..at] + sorted[at..];
    longer := sorted[..at] + [x] + sorted[at..];
    Inserted(rules, sorted, at, x);
  }

  lemma Inserted(rules: seq<Permission>, sorted: seq<nat>, at: nat, x: nat)
    requires Indices(rules, sorted) && SortedByScore(rules, sorted) && at <= |sorted| && x < |rules|
    requires at > 0 ==> Before(rules, sorted[at - 1], x)
    requires forall k | at <= k < |sorted| :: Before(rules, x, sorted[k])
    ensures Indices(rules, sorted[..at] + [x] + sorted[at..])
    ensures SortedByScore(rules, sorted[..at] + [x] + sorted[at..])
  {
    var longer := sorted[..at] + [x] + sorted[at..];
    forall k | 0 <= k < at ensures Before(rules, sorted[k], x) {
      if k < at - 1 { assert Before(rules, sorted[k], sorted[at - 1]); }
    }
    forall a, b | 0 <= a < b < |longer| ensures Before(rules, longer[a], longer[b]) {
      var a' := if a < at then a else a - 1;
      var b' := if b < at then b else b - 1;
      if a != at && b != at { assert longer[a] == sorted[a'] && longer[b] == sorted[b']; }
    }
  }

  /** A stable sort by descending score. */
  method SortByScore(rules: seq<Permission>, xs: seq<nat>) returns (sorted: seq<nat>)
    requires Indices(rules, xs) && forall a, b | 0 <= a < b < |xs| :: xs[a] < xs[b]
    ensures multiset(sorted) == multiset(xs)
    ensures Indices(rules, sorted) && SortedByScore(rules, sorted)
  {
    sorted := [];
    for n := 0 to |xs|
      invariant Indices(rules, sorted) && SortedByScore(rules, sorted)
      invariant multiset(sorted) == multiset(xs[..n])
    {
      SameMembers(sorted, xs[..n]);
      forall k | 0 <= k < |sorted| ensures sorted[k] < xs[n] {
        assert sorted[k] in xs[..n];
      }
      assert xs[..n + 1] == xs[..n] + [xs[n]];
      sorted := InsertByScore(rules, sorted, xs[n]);
    }
    assert xs[..|xs|] == xs;
  }

  method FindMatches(rules: seq<Permission>, verb: HttpMethod, path: string) returns (matches: seq<nat>)
    ensures Indices(rules, matches) && forall a, b | 0 <= a < b < |matches| :: matches[a] < matches[b]
    ensures forall k | 0 <= k < |rules| :: k in matches <==> Applies(rules[k], verb, path)
  {
    matches := [];
    for i := 0 to |rules|
      invariant Indices(rules, matches) && forall a, b | 0 <= a < b < |matches| :: matches[a] < matches[b]
      invariant forall k | 0 <= k < |matches| :: matches[k] < i
      invariant forall k | 0 <= k < i :: k in matches <==> Applies(rules[k], verb, path)
    {
      var hit := rules[i].method_ == None || rules[i].method_ == Some(verb);
      if hit {
        hit := PathGlob.MatchesPattern(rules[i].pathPattern, path);
      }
      assert i !in matches;
      if hit {
        matches := matches + [i];
      }
    }
  }

  /** The last of the most restrictive rules in the leading tie group. */
  method MostRestrictiveTied(rules: seq<Permission>, sorted: seq<nat>) returns (best: nat)
    requires Indices(rules, sorted) && SortedByScore(rules, sorted) && sorted != []
    ensures best in sorted
    ensures forall j | j in sorted :: !Beaten(rules[best], rules[j])
    ensures forall j | j in sorted && best < j :: Beaten(rules[j], rules[best])
  {
    var score := ScoreOf(rules[sorted[0]]);
    var chosen, n := 0, 1;
    while n < |sorted| && ScoreOf(rules[sorted[n]]) == score
      invariant 0 <= chosen < n <= |sorted|
      invariant forall k | 0 <= k < n :: ScoreOf(rules[sorted[k]]) == score
      invariant forall k | 0 <= k < n :: Restriction(rules[sorted[k]].level) <= Restriction(rules[sorted[chosen]].level)
      invariant forall k | chosen < k < n ::
        Restriction(rules[sorted[k]].level) < Restriction(rules[sorted[chosen]].level)
    {
      if Restriction(rules[sorted[chosen]].level) <= Restriction(rules[sorted[n]].level) {
        chosen := n;
      }
      n := n + 1;
    }
    TieGroup(rules, sorted, chosen, n);
    best := sorted[chosen];
  }

  method Choose(rules: seq<Permission>, verb: HttpMethod, path: string) returns (d: Decision)
    ensures Decides(rules, verb, path, d)
  {
    var matches := FindMatches(rules, verb, path);
    if matches == [] {
      return Decision(Deny, None);
    }
    assert Applies(rules[matches[0]], verb, path);
    var sorted := SortByScore(rules, matches);
    assert |sorted| == |multiset(sorted)| == |matches|;
    var i := MostRestrictiveTied(rules, sorted);
    SameMembers(sorted, matches);
    assert LastBest(rules, verb, path, i);
    d := Decision(rules[i].level, Some(rules[i].id));
  }

  /** The choice within the leading tie group is the choice among all sorted rules. */
  lemma TieGroup(rules: seq<Permission>, sorted: seq<nat>, chosen: nat, n: nat)
    requires Indices(rules, sorted) && SortedByScore(rules, sorted)
    requires chosen < n <= |sorted|
    requires n < |sorted| ==> ScoreOf(rules[sorted[n]]) != ScoreOf(rules[sorted[0]])
    requires forall k | 0 <= k < n :: ScoreOf(rules[sorted[k]]) == ScoreOf(rules[sorted[0]])
    requires forall k | 0 <= k < n :: Restriction(rules[sorted[k]].level) <= Restriction(rules[sorted[chosen]].level)
    requires forall k | chosen < k < n :: Restriction(rules[sorted[k]].level) < Restriction(rules[sorted[chosen]].level)
    ensures forall j | j in sorted :: !Beaten(rules[sorted[chosen]], rules[j])
    ensures forall j | j in sorted && sorted[chosen] < j :: Beaten(rules[j], rules[sorted[chosen]])
  {
    forall j | j in sorted
      ensures !Beaten(rules[sorted[chosen]], rules[j])
      ensures sorted[chosen] < j ==> Beaten(rules[j], rules[sorted[chosen]])
    {
      var k :| 0 <= k < |sorted| && sorted[k] == j;
      if k >= n {
        assert Before(rules, sorted[0], sorted[n]);
        assert k > n ==> Before(rules, sorted[n], sorted[k]);
      }
    }
  }

  // ---- rules of the credential manager ----

  datatype PathPermission = PathPermission(id: Uuid, pathPattern: string, level: Level)

  function PathIdOf(p: PathPermission): Uuid {
    p.id
  }

  predicate PathBeaten(p: PathPermission, q: PathPermission) {
    || |p.pathPattern| < |q.pathPattern|
    || (|p.pathPattern| == |q.pathPattern| && Restriction(p.level) < Restriction(q.level))
  }

  ghost predicate FirstBest(rules: seq<PathPermission>, path: string, i: nat) {
    && i < |rules| && SegmentGlob.PathFits(rules[i].pathPattern, path)
    && (forall j | 0 <= j < |rules| && SegmentGlob.PathFits(rules[j].pathPattern, path) ::
          !PathBeaten(rules[i], rules[j]))
    && (forall j | 0 <= j < i && SegmentGlob.PathFits(rules[j].pathPattern, path) :: PathBeaten(rules[j], rules[i]))
  }

  ghost predicate PathDecides(rules: seq<PathPermission>, path: string, d: Decision) {
    if exists i | 0 <= i < |rules| :: SegmentGlob.PathFits(rules[i].pathPattern, path)
    then exists i: nat :: FirstBest(rules, path, i) && d == Decision(rules[i].level, Some(rules[i].id))
    else d == Decision(Deny, None)
  }

  method EvaluatePath(rules: seq<PathPermission>, path: string) returns (d: Decision)
    ensures PathDecides(rules, path, d)
  {
    var best: Option<nat> := None;
    for i := 0 to |rules|
      invariant best.None? ==> forall j | 0 <= j < i :: !SegmentGlob.PathFits(rules[j].pathPattern, path)
      invariant best.Some? ==> best.value < i && FirstBest(rules[..i], path, best.value)
    {
      var fits := SegmentGlob.PatternMatches(rules[i].pathPattern, path);
      assert rules[..i + 1] == rules[..i] + [rules[i]];
      if fits {
        if best.None? {
          best := Some(i);
        } else {
          var p, q := rules[best.value], rules[i];
          if |q.pathPattern| > |p.pathPattern|
             || (|q.pathPattern| == |p.pathPattern| && Restriction(q.level) > Restriction(p.level)) {
            best := Some(i);
          }
        }
      }
    }
    assert rules[..|rules|] == rules;
    if best.Some? {
      d := Decision(rules[best.value].level, Some(rules[best.value].id));
    } else {
      d := Decision(Deny, None);
    }
  }

  lemma PathLevelIgnoresOrder(rules: seq<PathPermission>, rules': seq<PathPermission>, path: string,
                              d: Decision, d': Decision)
    requires multiset(rules) == multiset(rules')
    requires PathDecides(rules, path, d) && PathDecides(rules', path, d')
    ensures d.level == d'.level
  {
    if i: nat :| i < |rules| && SegmentGlob.PathFits(rules[i].pathPattern, path) {
      var i' := Elsewhere(rules, rules', i);
      assert SegmentGlob.PathFits(rules'[i'].pathPattern, path);
      var a: nat :| FirstBest(rules, path, a) && d == Decision(rules[a].level, Some(rules[a].id));
      var b: nat :| FirstBest(rules', path, b) && d' == Decision(rules'[b].level, Some(rules'[b].id));
      var a' := Elsewhere(rules, rules', a);
      var b' := Elsewhere(rules', rules, b);
      assert !PathBeaten(rules[a], rules[b']) && !PathBeaten(rules'[b], rules'[a']);
    } else {
      forall j: nat | j < |rules'| ensures !SegmentGlob.PathFits(rules'[j].pathPattern, path) {
        var j' := Elsewhere(rules', rules, j);
      }
    }
  }

  predicate PathPreferred(p: PathPermission, q: PathPermission) {
    if |p.pathPattern| != |q.pathPattern| then |p.pathPattern| > |q.pathPattern| else AsStrict(p.level, q.level)
  }

  /** The decision comes from a longest rule that applies, a strictest of these, and the first such. */
  lemma PathDecisionPrefers(rules: seq<PathPermission>, path: string, d: Decision) returns (i: nat)
    requires PathDecides(rules, path, d)
    requires exists k | 0 <= k < |rules| :: SegmentGlob.PathFits(rules[k].pathPattern, path)
    ensures i < |rules| && SegmentGlob.PathFits(rules[i].pathPattern, path)
    ensures d == Decision(rules[i].level, Some(rules[i].id))
    ensures forall j | 0 <= j < |rules| && SegmentGlob.PathFits(rules[j].pathPattern, path) ::
      PathPreferred(rules[i], rules[j]) && (j < i ==> !PathPreferred(rules[j], rules[i]))
  {
    i :| FirstBest(rules, path, i) && d == Decision(rules[i].level, Some(rules[i].id));
    forall j | 0 <= j < |rules| && SegmentGlob.PathFits(rules[j].pathPattern, path)
      ensures PathPreferred(rules[i], rules[j]) && (j < i ==> !PathPreferred(rules[j], rules[i]))
    {
      PathBeatenOrPreferred(rules[i], rules[j]);
      PathBeatenOrPreferred(rules[j], rules[i]);
    }
  }

  lemma PathBeatenOrPreferred(p: PathPermission, q: PathPermission)
    ensures PathBeaten(p, q) <==> !PathPreferred(p, q)
  {
  }

  /** The decision is a function of the rules and the path. */
  lemma PathDecisionUnique(rules: seq<PathPermission>, path: string, d: Decision, d': Decision)
    requires PathDecides(rules, path, d) && PathDecides(rules, path, d')
    ensures d == d'
  {
    if i :| 0 <= i < |rules| && SegmentGlob.PathFits(rules[i].pathPattern, path) {
      var a: nat :| FirstBest(rules, path, a) && d == Decision(rules[a].level, Some(rules[a].id));
      var b: nat :| FirstBest(rules, path, b) && d' == Decision(rules[b].level, Some(rules[b].id));
      assert !PathBeaten(rules[a], rules[b]) && !PathBeaten(rules[b], rules[a]);
    }
  }

  /** The two evaluators read the same pattern differently: a final `**` may cover no segment at
      all, so a rule for everything under `a` also covers `a` itself in one and not in the other. */
  lemma EvaluatorsDisagree()
    ensures SegmentGlob.PathFits("a/**", "a")
    ensures !PathGlob.Denotes(PathGlob.Tokens("a/**"), "a")
  {
    SplitExample();
    var parts, path := ["a", "**"], ["a"];
    var pieces: seq<seq<string>> := [["a"], []];
    assert SegmentGlob.CoversPieces(SegmentGlob.PartCovers, parts, pieces);
    FlattenExample(pieces);
    TokensExample();
  }

  lemma SplitExample()
    ensures SegmentGlob.Split("a/**") == ["a", "**"] && SegmentGlob.Split("a") == ["a"]
  {
    assert "a/**" == "a" + "/" + "**";
    SegmentGlob.SplitFirst("a", "**");
    SegmentGlob.SplitOne("**");
    SegmentGlob.SplitOne("a");
  }

  lemma FlattenExample(pieces: seq<seq<string>>)
    requires pieces == [["a"], []]
    ensures SegmentGlob.Flatten(pieces) == ["a"]
  {
    assert pieces[1..] == [[]] && pieces[1..][1..] == [];
    assert SegmentGlob.Flatten(pieces[1..]) == [];
  }

  lemma TokensExample()
    ensures !PathGlob.Denotes(PathGlob.Tokens("a/**"), "a")
  {
    var p := "a/**";
    assert p[1..] == "/**" && "/**"[1..] == "**" && "a"[1..] == "";
    var tokens := PathGlob.Tokens(p);
    assert tokens[1..] == PathGlob.Tokens("/**") && tokens[1..] != [] && tokens[1..][0] == PathGlob.Literal('/');
  }
}
