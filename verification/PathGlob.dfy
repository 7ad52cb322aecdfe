/** The character glob of `permissions.rs`.

    `*` stands for characters other than `/`, `?` for one such character, `**` for anything.
    The matcher is a loop that remembers only its last single star; `Denotes` is the meaning of
    a pattern, stated over its tokens with no backtracking in it. */
module PathGlob {
  import opened Wrappers

  /** `Deep(true)` is a `**` whose following `/` is swallowed with it. */
  datatype Token = Literal(c: char) | AnyOne | Star | Deep(swallowsSlash: bool)

  function Tokens(pattern: string): seq<Token>
  {
    if pattern == "" then []
    else if "**/" <= pattern then [Deep(true)] + Tokens(pattern[3..])
    else if "**" <= pattern then [Deep(false)] + Tokens(pattern[2..])
    else if pattern[0] == '*' then [Star] + Tokens(pattern[1..])
    else if pattern[0] == '?' then [AnyOne] + Tokens(pattern[1..])
    else [Literal(pattern[0])] + Tokens(pattern[1..])
  }

  /** The paths a token list stands for. A swallowed slash asks that some path remain. */
  ghost predicate Denotes(tokens: seq<Token>, path: string)
    decreases |tokens|
  {
    if tokens == [] then path == ""
    else
      var rest := tokens[1..];
      match tokens[0]
      case Literal(c) => path != "" && path[0] == c && Denotes(rest, path[1..])
      case AnyOne => path != "" && path[0] != '/' && Denotes(rest, path[1..])
      case Star => exists k | 0 <= k <= |path| :: '/' !in path[..k] && Denotes(rest, path[k..])
      case Deep(swallows) =>
        (swallows ==> path != "") && exists k | 0 <= k <= |path| :: Denotes(rest, path[k..])
  }

  // ---- runs of one-character tokens ----

  predicate Fits(token: Token, c: char) {
    token == Literal(c) || (token == AnyOne && c != '/')
  }

  predicate OneCharEach(tokens: seq<Token>) {
    forall i | 0 <= i < |tokens| :: tokens[i].Literal? || tokens[i].AnyOne?
  }

  ghost predicate FitsPrefix(tokens: seq<Token>, path: string) {
    |tokens| <= |path| && forall i | 0 <= i < |tokens| :: Fits(tokens[i], path[i])
  }

  lemma {:induction false} DenotesAfterPrefix(fixed: seq<Token>, rest: seq<Token>, path: string)
    requires OneCharEach(fixed)
    ensures Denotes(fixed + rest, path)
       <==> FitsPrefix(fixed, path) && Denotes(rest, path[|fixed|..])
  {
    if fixed == [] {
      assert fixed + rest == rest && path[0..] == path;
    } else {
      assert (fixed + rest)[1..] == fixed[1..] + rest;
      if path != "" && Fits(fixed[0], path[0]) {
        DenotesAfterPrefix(fixed[1..], rest, path[1..]);
        assert FitsPrefix(fixed, path) ==> path[1..][|fixed[1..]|..] == path[|fixed|..];
        assert FitsPrefix(fixed, path) <==> FitsPrefix(fixed[1..], path[1..]) by {
          if FitsPrefix(fixed[1..], path[1..]) {
            forall i | 0 <= i < |fixed| ensures Fits(fixed[i], path[i]) {
              if i > 0 { assert Fits(fixed[1..][i - 1], path[1..][i - 1]); }
            }
          }
        }
      }
    }
  }

  // ---- stars ----

  ghost predicate StarTakes(rest: seq<Token>, path: string, k: nat) {
    k <= |path| && '/' !in path[..k] && Denotes(rest, path[k..])
  }

  lemma StarMeaning(rest: seq<Token>, path: string)
    ensures Denotes([Star] + rest, path) <==> exists k: nat :: StarTakes(rest, path, k)
  {
    assert ([Star] + rest)[1..] == rest;
    if Denotes([Star] + rest, path) {
      var k :| 0 <= k <= |path| && '/' !in path[..k] && Denotes(rest, path[k..]);
      assert StarTakes(rest, path, k);
    }
  }

  /** A star is left alone, or takes one more character that is not a slash. */
  lemma StarTakesOneMore(rest: seq<Token>, path: string)
    requires path != ""
    ensures Denotes([Star] + rest, path)
       <==> Denotes(rest, path) || (path[0] != '/' && Denotes([Star] + rest, path[1..]))
  {
    StarMeaning(rest, path);
    StarMeaning(rest, path[1..]);
    forall k: nat
      ensures StarTakes(rest, path, k)
         <==> if k == 0 then Denotes(rest, path)
              else path[0] != '/' && StarTakes(rest, path[1..], k - 1)
    {
      StarTakesFromNext(rest, path, k);
    }
    if k: nat :| StarTakes(rest, path[1..], k) {
      assert path[0] != '/' ==> StarTakes(rest, path, k + 1);
    }
    assert Denotes(rest, path) ==> StarTakes(rest, path, 0);
  }

  lemma StarTakesFromNext(rest: seq<Token>, path: string, k: nat)
    requires path != ""
    ensures StarTakes(rest, path, k)
       <==> if k == 0 then Denotes(rest, path)
            else path[0] != '/' && StarTakes(rest, path[1..], k - 1)
  {
    if k == 0 {
      assert path[..0] == "" && path[0..] == path;
    } else if k <= |path| {
      assert path[..k] == [path[0]] + path[1..][..k - 1] && path[k..] == path[1..][k - 1..];
    }
  }

  /** If the same one-character tokens fit at 0 and at `k`, and no slash lies before `k`, then no
      slash lies before the end of the second occurrence: a slash there would repeat `k` earlier. */
  lemma {:induction false} NoSlashReached(fixed: seq<Token>, path: string, k: nat, i: nat)
    requires OneCharEach(fixed) && FitsPrefix(fixed, path)
    requires 0 < k <= |path| && '/' !in path[..k] && FitsPrefix(fixed, path[k..])
    requires i < k + |fixed|
    ensures i < |path| && path[i] != '/'
  {
    if i < k {
      assert path[i] == path[..k][i];
    } else {
      NoSlashReached(fixed, path, k, i - k);
      assert path[k..][i - k] == path[i];
      assert Fits(fixed[i - k], path[k..][i - k]) && Fits(fixed[i - k], path[i - k]);
    }
  }

  predicate Wild(token: Token) {
    token.Star? || token.Deep?
  }

  /** What a wildcard accepts after skipping `k` characters it also accepts without skipping them. */
  lemma WildSkips(wild: Token, rest: seq<Token>, path: string, k: nat)
    requires Wild(wild) && k <= |path|
    requires wild.Star? ==> '/' !in path[..k]
    requires Denotes([wild] + rest, path[k..])
    ensures Denotes([wild] + rest, path)
  {
    assert ([wild] + rest)[1..] == rest;
    var j :| 0 <= j <= |path| - k && (wild.Star? ==> '/' !in path[k..][..j])
             && Denotes(rest, path[k..][j..]);
    assert path[k..][j..] == path[k + j..];
    assert path[..k + j] == path[..k] + path[k..][..j];
  }

  /** The step that makes one remembered star enough: once the tokens since the last star have
      fitted and another wildcard is reached, giving the earlier star more can gain nothing. */
  lemma EarlierStarForgotten(fixed: seq<Token>, wild: Token, rest: seq<Token>, path: string)
    requires OneCharEach(fixed) && FitsPrefix(fixed, path) && Wild(wild)
    ensures Denotes([Star] + (fixed + ([wild] + rest)), path)
       <==> Denotes([wild] + rest, path[|fixed|..])
  {
    var tail := fixed + ([wild] + rest);
    assert ([Star] + tail)[1..] == tail;
    DenotesAfterPrefix(fixed, [wild] + rest, path);
    if Denotes([wild] + rest, path[|fixed|..]) {
      assert path[..0] == "" && path[0..] == path;
      assert Denotes([Star] + tail, path);
    }
    if Denotes([Star] + tail, path) {
      var k :| 0 <= k <= |path| && '/' !in path[..k] && Denotes(tail, path[k..]);
      DenotesAfterPrefix(fixed, [wild] + rest, path[k..]);
      var n := |fixed|;
      assert path[k..][n..] == path[n..][k..];
      if k == 0 {
        assert path[0..] == path;
      } else {
        forall i | 0 <= i < k ensures path[n..][..k][i] != '/' {
          NoSlashReached(fixed, path, k, n + i);
        }
        WildSkips(wild, rest, path[n..], k);
      }
    }
  }

  predicate OnlyStars(pattern: string) {
    pattern == "" || (pattern[0] == '*' && OnlyStars(pattern[1..]))
  }

  /** On an exhausted path exactly the patterns made of `*` match. */
  lemma {:induction false} OnlyStarsDenoteEmpty(pattern: string)
    ensures Denotes(Tokens(pattern), "") <==> OnlyStars(pattern)
  {
    if pattern == "" {
    } else {
      var width := if "**/" <= pattern then 3 else if "**" <= pattern then 2 else 1;
      var rest := Tokens(pattern[width..]);
      OnlyStarsDenoteEmpty(pattern[width..]);
      assert Tokens(pattern)[1..] == rest;
      var empty := "";
      assert empty[..0] == empty && empty[0..] == empty;
      if "**" <= pattern {
        assert pattern[1..][1..] == pattern[2..];
        assert OnlyStars(pattern) <==> OnlyStars(pattern[2..]);
      }
      if Denotes(rest, empty) && Wild(Tokens(pattern)[0]) {
        assert '/' !in empty[..0] && Denotes(rest, empty[0..]);
      }
    }
  }

  // ---- what the matcher remembers ----

  /** Since the star (with `starPattern` after it, met at `starPath`) the tokens `fixed` have been
      matched one character each, and `pattern` and `path` are what is left. */
  ghost predicate Remembers(starPattern: string, starPath: string, fixed: seq<Token>, pattern: string, path: string) {
    && OneCharEach(fixed) && FitsPrefix(fixed, starPath)
    && path == starPath[|fixed|..]
    && Tokens(starPattern) == fixed + Tokens(pattern)
    && |pattern| <= |starPattern|
  }

  lemma Advance(starPattern: string, starPath: string, fixed: seq<Token>, pattern: string, path: string, token: Token)
    requires Remembers(starPattern, starPath, fixed, pattern, path)
    requires pattern != "" && Tokens(pattern) == [token] + Tokens(pattern[1..])
    requires path != "" && (token.Literal? || token.AnyOne?) && Fits(token, path[0])
    ensures Remembers(starPattern, starPath, fixed + [token], pattern[1..], path[1..])
  {
    Regrouped(fixed, token, Tokens(pattern[1..]));
    NextChar(starPath, |fixed|);
    FitsOneMore(fixed, token, starPath);
  }

  lemma Regrouped(fixed: seq<Token>, token: Token, rest: seq<Token>)
    ensures fixed + ([token] + rest) == (fixed + [token]) + rest
  {
  }

  lemma NextChar(path: string, n: nat)
    requires n < |path|
    ensures path[n..][0] == path[n] && path[n..][1..] == path[n + 1..]
  {
  }

  lemma FitsOneMore(fixed: seq<Token>, token: Token, path: string)
    requires FitsPrefix(fixed, path) && |fixed| < |path| && Fits(token, path[|fixed|])
    ensures FitsPrefix(fixed + [token], path)
  {
  }

  /** When what is left fails, only a longer star can succeed, and not across a slash. */
  lemma Retry(starPattern: string, starPath: string, fixed: seq<Token>, pattern: string, path: string)
    requires Remembers(starPattern, starPath, fixed, pattern, path)
    requires path != "" && !Denotes(Tokens(pattern), path)
    ensures starPath != ""
    ensures Denotes([Star] + Tokens(starPattern), starPath)
       <==> starPath[0] != '/' && Denotes([Star] + Tokens(starPattern), starPath[1..])
  {
    DenotesAfterPrefix(fixed, Tokens(pattern), starPath);
    StarTakesOneMore(Tokens(starPattern), starPath);
  }

  /** With the path used up, the star can only have been empty. */
  lemma Exhausted(starPattern: string, starPath: string, fixed: seq<Token>, pattern: string)
    requires Remembers(starPattern, starPath, fixed, pattern, "")
    ensures Denotes([Star] + Tokens(starPattern), starPath) <==> Denotes(Tokens(pattern), "")
  {
    var rest := Tokens(pattern);
    StarMeaning(fixed + rest, starPath);
    assert |starPath[|fixed|..]| == 0;
    forall k: nat | k <= |starPath|
      ensures StarTakes(fixed + rest, starPath, k) <==> k == 0 && Denotes(rest, "")
    {
      DenotesAfterPrefix(fixed, rest, starPath[k..]);
      if k == 0 {
        assert starPath[..0] == "" && starPath[0..] == starPath;
      }
    }
    assert Denotes(rest, "") ==> StarTakes(fixed + rest, starPath, 0);
  }

  /** Whatever the matcher was asked (`goal`) is still the question: about the pattern and path that
      are left while no star is remembered, and else about the remembered star. */
  ghost predicate Tracking(goal: bool, starPattern: Option<string>, starPath: Option<string>,
                           fixed: seq<Token>, pattern: string, path: string)
  {
    if starPattern.None? || starPath.None? then
      starPattern.None? && starPath.None? && goal == Denotes(Tokens(pattern), path)
    else
      && Remembers(starPattern.value, starPath.value, fixed, pattern, path)
      && goal == Denotes([Star] + Tokens(starPattern.value), starPath.value)
  }

  /** At a wildcard the remembered star no longer matters. */
  lemma AtWildcard(goal: bool, starPattern: Option<string>, starPath: Option<string>,
                   fixed: seq<Token>, pattern: string, path: string, wild: Token, rest: seq<Token>)
    requires Tracking(goal, starPattern, starPath, fixed, pattern, path)
    requires Tokens(pattern) == [wild] + rest && Wild(wild)
    ensures goal == Denotes(Tokens(pattern), path)
  {
    if starPattern.Some? {
      EarlierStarForgotten(fixed, wild, rest, starPath.value);
    }
  }

  lemma StarReached(goal: bool, starPattern: Option<string>, starPath: Option<string>,
                    fixed: seq<Token>, pattern: string, path: string)
    requires Tracking(goal, starPattern, starPath, fixed, pattern, path)
    requires pattern != "" && pattern[0] == '*' && !("**" <= pattern)
    ensures Tracking(goal, Some(pattern[1..]), Some(path), [], pattern[1..], path)
  {
    AtWildcard(goal, starPattern, starPath, fixed, pattern, path, Star, Tokens(pattern[1..]));
    assert path[0..] == path;
  }

  lemma OneCharTaken(goal: bool, starPattern: Option<string>, starPath: Option<string>,
                     fixed: seq<Token>, pattern: string, path: string, token: Token)
    requires Tracking(goal, starPattern, starPath, fixed, pattern, path)
    requires pattern != "" && Tokens(pattern) == [token] + Tokens(pattern[1..])
    requires path != "" && (token.Literal? || token.AnyOne?) && Fits(token, path[0])
    ensures Tracking(goal, starPattern, starPath, fixed + [token], pattern[1..], path[1..])
  {
    if starPattern.Some? {
      Advance(starPattern.value, starPath.value, fixed, pattern, path, token);
    } else {
      assert Tokens(pattern)[1..] == Tokens(pattern[1..]);
    }
  }

  lemma StarTakesNext(goal: bool, starPattern: string, starPath: string,
                      fixed: seq<Token>, pattern: string, path: string)
    requires Tracking(goal, Some(starPattern), Some(starPath), fixed, pattern, path)
    requires path != "" && !Denotes(Tokens(pattern), path)
    ensures starPath != ""
    ensures if starPath[0] == '/' then !goal
            else Tracking(goal, Some(starPattern), Some(starPath[1..]), [], starPattern, starPath[1..])
  {
    Retry(starPattern, starPath, fixed, pattern, path);
    assert starPath[1..][0..] == starPath[1..];
  }

  ghost predicate DenotesSomeSuffix(tokens: seq<Token>, path: string) {
    exists k | 0 <= k <= |path| :: Denotes(tokens, path[k..])
  }

  /** At a `**` only the suffixes of what is left of the path matter. */
  lemma AtDeep(goal: bool, starPattern: Option<string>, starPath: Option<string>,
               fixed: seq<Token>, pattern: string, path: string, rest: string)
    requires Tracking(goal, starPattern, starPath, fixed, pattern, path) && path != ""
    requires "**" <= pattern && rest == if "**/" <= pattern then pattern[3..] else pattern[2..]
    ensures goal == DenotesSomeSuffix(Tokens(rest), path)
    ensures rest == "" ==> goal
  {
    assert Tokens(pattern)[1..] == Tokens(rest);
    AtWildcard(goal, starPattern, starPath, fixed, pattern, path, Deep("**/" <= pattern), Tokens(rest));
    if rest == "" {
      assert Denotes(Tokens(rest), path[|path|..]);
    }
  }

  // ---- the matcher ----

  method MatchesSomeSuffix(pattern: string, path: string) returns (matched: bool)
    ensures matched <==> DenotesSomeSuffix(Tokens(pattern), path)
    decreases |pattern|, 1
  {
    for i := 0 to |path| + 1
      invariant forall k | 0 <= k < i :: !Denotes(Tokens(pattern), path[k..])
    {
      var found := MatchesPattern(pattern, path[i..]);
      if found {
        return true;
      }
    }
    return false;
  }

  method MatchesPattern(pattern0: string, path0: string) returns (matched: bool)
    ensures matched <==> Denotes(Tokens(pattern0), path0)
    decreases |pattern0|, 0
  {
    var pattern, path := pattern0, path0;
    var starPattern: Option<string>, starPath: Option<string> := None, None;
    ghost var goal := Denotes(Tokens(pattern0), path0);
    ghost var fixed: seq<Token> := [];  // the tokens passed since the remembered star
    while path != ""
      invariant Tracking(goal, starPattern, starPath, fixed, pattern, path)
      invariant |pattern| <= |pattern0| && (starPattern.Some? ==> |starPattern.value| < |pattern0|)
      decreases if starPattern.None? then |pattern0| + 1 else |starPattern.value|,
                if starPath.None? then 0 else |starPath.value|,
                |pattern|
    {
      if "**" <= pattern {
        ghost var before := pattern;
        pattern := pattern[2..];
        if "/" <= pattern {
          pattern := pattern[1..];
        }
        AtDeep(goal, starPattern, starPath, fixed, before, path, pattern);
        if pattern == "" {
          return true;
        }
        matched := MatchesSomeSuffix(pattern, path);
        return;
      } else if pattern != "" {
        if pattern[0] == '?' && path[0] != '/' {
          OneCharTaken(goal, starPattern, starPath, fixed, pattern, path, AnyOne);
          fixed := fixed + [AnyOne];
          pattern, path := pattern[1..], path[1..];
        } else if pattern[0] == '*' {
          StarReached(goal, starPattern, starPath, fixed, pattern, path);
          starPattern, starPath := Some(pattern[1..]), Some(path);
          pattern, fixed := pattern[1..], [];
        } else if pattern[0] == path[0] {
          OneCharTaken(goal, starPattern, starPath, fixed, pattern, path, Literal(path[0]));
          fixed := fixed + [Literal(path[0])];
          pattern, path := pattern[1..], path[1..];
        } else if starPattern.Some? {
          StarTakesNext(goal, starPattern.value, starPath.value, fixed, pattern, path);
          if starPath.value[0] == '/' {
            return false;
          }
          starPath := Some(starPath.value[1..]);
          path, pattern, fixed := starPath.value, starPattern.value, [];
        } else {
          return false;
        }
      } else if starPattern.Some? {
        StarTakesNext(goal, starPattern.value, starPath.value, fixed, pattern, path);
        if starPath.value[0] == '/' {
          return false;
        }
        starPath := Some(starPath.value[1..]);
        path, pattern, fixed := starPath.value, starPattern.value, [];
      } else {
        return false;
      }
    }

    OnlyStarsDenoteEmpty(pattern);
    if starPattern.Some? {
      Exhausted(starPattern.value, starPath.value, fixed, pattern);
    }
    while "*" <= pattern
      invariant goal == OnlyStars(pattern)
      decreases |pattern|
    {
      pattern := pattern[1..];
    }
    matched := pattern == "";
  }

  // ---- the documented meaning ----

  /** The documentation gives `**` no special treatment of the slash after it: it stays a literal. */
  function Documented(tokens: seq<Token>): seq<Token> {
    if tokens == [] then []
    else (if tokens[0] == Deep(true) then [Deep(false), Literal('/')] else [tokens[0]]) + Documented(tokens[1..])
  }

  function Slashes(path: string): nat {
    if path == "" then 0 else (if path[0] == '/' then 1 else 0) + Slashes(path[1..])
  }

  function LiteralSlashes(tokens: seq<Token>): nat {
    if tokens == [] then 0 else (if tokens[0] == Literal('/') then 1 else 0) + LiteralSlashes(tokens[1..])
  }

  lemma {:induction false} SlashesInSuffix(path: string, k: nat)
    requires k <= |path|
    ensures Slashes(path[k..]) <= Slashes(path)
  {
    if k == 0 {
      assert path[0..] == path;
    } else {
      SlashesInSuffix(path[1..], k - 1);
      assert path[1..][k - 1..] == path[k..];
    }
  }

  lemma {:induction false} DenotedSlashes(tokens: seq<Token>, path: string)
    requires Denotes(tokens, path)
    ensures Slashes(path) >= LiteralSlashes(tokens)
    decreases |tokens|
  {
    if tokens != [] {
      match tokens[0]
      case Literal(_) => DenotedSlashes(tokens[1..], path[1..]);
      case AnyOne => DenotedSlashes(tokens[1..], path[1..]);
      case _ =>
        var k :| 0 <= k <= |path| && Denotes(tokens[1..], path[k..]);
        DenotedSlashes(tokens[1..], path[k..]);
        SlashesInSuffix(path, k);
    }
  }

  /** A path with as few slashes as the tokens can do with. */
  function Sparse(tokens: seq<Token>): (path: string) {
    if tokens == [] then ""
    else
      var rest := Sparse(tokens[1..]);
      match tokens[0]
      case Literal(c) => [c] + rest
      case AnyOne => "x" + rest
      case Star => rest
      case Deep(swallows) => if swallows then "x" + rest else rest
  }

  lemma {:induction false} SparseIsDenoted(tokens: seq<Token>)
    ensures Denotes(tokens, Sparse(tokens)) && Slashes(Sparse(tokens)) == LiteralSlashes(tokens)
  {
    if tokens != [] {
      SparseIsDenoted(tokens[1..]);
      var path, rest := Sparse(tokens), Sparse(tokens[1..]);
      if path == rest {
        assert path[..0] == "" && path[0..] == rest;
      } else {
        assert path[1..] == rest;
      }
    }
  }

  lemma {:induction false} DocumentedSlashes(tokens: seq<Token>)
    ensures LiteralSlashes(Documented(tokens)) >= LiteralSlashes(tokens)
    ensures Deep(true) in tokens ==> LiteralSlashes(Documented(tokens)) > LiteralSlashes(tokens)
    ensures Deep(true) !in tokens ==> Documented(tokens) == tokens
  {
    if tokens != [] {
      DocumentedSlashes(tokens[1..]);
      assert tokens == [tokens[0]] + tokens[1..];
      if tokens[0] == Deep(true) {
        assert Documented(tokens)[1..] == [Literal('/')] + Documented(tokens[1..]);
        assert Documented(tokens)[1..][1..] == Documented(tokens[1..]);
      } else {
        assert Documented(tokens)[1..] == Documented(tokens[1..]);
      }
    }
  }

  /** Swallowing the slash only ever accepts more. */
  lemma {:induction false} SwallowingAcceptsMore(tokens: seq<Token>, path: string)
    requires Denotes(Documented(tokens), path)
    ensures Denotes(tokens, path)
    decreases |tokens|
  {
    if tokens != [] {
      var documented := Documented(tokens);
      if tokens[0] == Deep(true) {
        assert documented[1..] == [Literal('/')] + Documented(tokens[1..]);
        assert documented[1..][1..] == Documented(tokens[1..]);
        var k :| 0 <= k <= |path| && Denotes(documented[1..], path[k..]);
        assert path[k..][1..] == path[k + 1..];
        SwallowingAcceptsMore(tokens[1..], path[k + 1..]);
      } else {
        assert documented[1..] == Documented(tokens[1..]);
        match tokens[0]
        case Literal(_) => SwallowingAcceptsMore(tokens[1..], path[1..]);
        case AnyOne => SwallowingAcceptsMore(tokens[1..], path[1..]);
        case Star =>
          var k :| 0 <= k <= |path| && '/' !in path[..k] && Denotes(documented[1..], path[k..]);
          SwallowingAcceptsMore(tokens[1..], path[k..]);
        case Deep(_) =>
          var k :| 0 <= k <= |path| && Denotes(documented[1..], path[k..]);
          SwallowingAcceptsMore(tokens[1..], path[k..]);
      }
    }
  }

  /** A maximal run of stars from `i` to `j`, of even length, with a slash right after it. */
  predicate EvenRunAt(pattern: string, i: nat, j: nat) {
    && i < j < |pattern| && pattern[j] == '/' && (j - i) % 2 == 0
    && (i == 0 || pattern[i - 1] != '*') && forall k | i <= k < j :: pattern[k] == '*'
  }

  ghost predicate HasEvenRun(pattern: string) {
    exists i: nat, j: nat :: EvenRunAt(pattern, i, j)
  }

  lemma ShiftedRun(pattern: string, w: nat, i: nat, j: nat)
    requires w <= |pattern| && 0 < i
    ensures EvenRunAt(pattern[w..], i, j) <==> EvenRunAt(pattern, i + w, j + w)
  {
    if EvenRunAt(pattern, i + w, j + w) {
      assert forall k | i <= k < j :: pattern[w..][k] == pattern[k + w];
    }
    if EvenRunAt(pattern[w..], i, j) {
      forall k | i + w <= k < j + w ensures pattern[k] == '*' {
        assert pattern[w..][k - w] == pattern[k];
      }
    }
  }

  /** Two stars can be taken off a run that is not swallowed with its slash at once. */
  lemma RunBeyondPair(pattern: string)
    requires "**" <= pattern && !("**/" <= pattern)
    ensures HasEvenRun(pattern) <==> HasEvenRun(pattern[2..])
  {
    var rest := pattern[2..];
    if i: nat, j: nat :| EvenRunAt(pattern, i, j) {
      assert pattern[0] == '*' && pattern[1] == '*';
      if i == 0 {
        assert j != 2;
        assert forall k | 0 <= k < j - 2 :: rest[k] == pattern[k + 2];
        assert EvenRunAt(rest, 0, j - 2);
      } else {
        assert i > 2;
        ShiftedRun(pattern, 2, i - 2, j - 2);
      }
    }
    if i: nat, j: nat :| EvenRunAt(rest, i, j) {
      if i == 0 {
        forall k | 0 <= k < j + 2 ensures pattern[k] == '*' {
          if k >= 2 { assert rest[k - 2] == pattern[k]; }
        }
        assert EvenRunAt(pattern, 0, j + 2);
      } else {
        ShiftedRun(pattern, 2, i, j);
      }
    }
  }

  /** Any other first character is not part of an even run. */
  lemma RunBeyondOne(pattern: string)
    requires pattern != "" && !("**" <= pattern)
    ensures HasEvenRun(pattern) <==> HasEvenRun(pattern[1..])
  {
    var rest := pattern[1..];
    if i: nat, j: nat :| EvenRunAt(pattern, i, j) {
      if i == 1 {
        assert forall k | 0 <= k < j - 1 :: rest[k] == pattern[k + 1];
        assert EvenRunAt(rest, 0, j - 1);
      } else {
        ShiftedRun(pattern, 1, i - 1, j - 1);
      }
    }
    if i: nat, j: nat :| EvenRunAt(rest, i, j) {
      if i == 0 {
        assert rest[0] == pattern[1];
        forall k | 1 <= k < j + 1 ensures pattern[k] == '*' {
          assert rest[k - 1] == pattern[k];
        }
        assert EvenRunAt(pattern, 1, j + 1);
      } else {
        ShiftedRun(pattern, 1, i, j);
      }
    }
  }

  /** A slash is swallowed exactly if it ends an even run of stars. */
  lemma {:induction false} SwallowsExactly(pattern: string)
    ensures Deep(true) in Tokens(pattern) <==> HasEvenRun(pattern)
    decreases |pattern|
  {
    if pattern == "" {
    } else if "**/" <= pattern {
      assert EvenRunAt(pattern, 0, 2);
    } else if "**" <= pattern {
      SwallowsExactly(pattern[2..]);
      RunBeyondPair(pattern);
    } else {
      SwallowsExactly(pattern[1..]);
      RunBeyondOne(pattern);
    }
  }

  /** The matcher has the documented meaning exactly for the patterns in which no run of stars of
      even length is directly followed by a slash. */
  lemma DocumentedExactly(pattern: string)
    ensures (forall path: string :: Denotes(Tokens(pattern), path) <==> Denotes(Documented(Tokens(pattern)), path))
       <==> !HasEvenRun(pattern)
  {
    var tokens := Tokens(pattern);
    SwallowsExactly(pattern);
    DocumentedSlashes(tokens);
    if Deep(true) in tokens {
      SparseIsDenoted(tokens);
      var path := Sparse(tokens);
      if Denotes(Documented(tokens), path) {
        DenotedSlashes(Documented(tokens), path);
      }
      assert Denotes(tokens, path) && !Denotes(Documented(tokens), path);
    }
  }

  /** `**` then a slash then `a` accepts a path with no slash in it. */
  lemma SwallowedSlashExample()
    ensures Denotes(Tokens("**/a"), "ba") && !Denotes(Documented(Tokens("**/a")), "ba")
  {
    var pattern, path := "**/a", "ba";
    assert pattern[3..] == "a" && Tokens("a") == [Literal('a')];
    assert Tokens(pattern) == [Deep(true), Literal('a')];
    assert path[1..] == "a" && Denotes(Tokens(pattern)[1..], path[1..]);
    assert Documented(Tokens(pattern)[1..]) == [Literal('a')] by {
      assert Documented([]) == [];
      assert Tokens(pattern)[1..] == [Literal('a')];
    }
    assert Documented(Tokens(pattern)) == [Deep(false), Literal('/'), Literal('a')];
    assert Slashes(path) == 0 by { assert path[1..][1..] == ""; }
    if Denotes(Documented(Tokens(pattern)), path) {
      DenotedSlashes(Documented(Tokens(pattern)), path);
    }
  }

  // ---- patterns without wildcards ----

  lemma PlainHead(pattern: string, path: string)
    requires pattern != "" && '*' !in pattern && '?' !in pattern
    ensures '*' !in pattern[1..] && '?' !in pattern[1..]
    ensures Denotes(Tokens(pattern), path)
       <==> path != "" && path[0] == pattern[0] && Denotes(Tokens(pattern[1..]), path[1..])
  {
    assert pattern[0] in pattern;
    assert Tokens(pattern)[1..] == Tokens(pattern[1..]);
  }

  /** A pattern with neither `*` nor `?` stands for exactly one path, itself. */
  lemma {:induction false} PlainPatternIsItself(pattern: string, path: string)
    requires '*' !in pattern && '?' !in pattern
    ensures Denotes(Tokens(pattern), path) <==> path == pattern
  {
    if pattern != "" {
      PlainHead(pattern, path);
      if path != "" {
        PlainPatternIsItself(pattern[1..], path[1..]);
        assert path == [path[0]] + path[1..] && pattern == [pattern[0]] + pattern[1..];
      }
    }
  }
}
