/** Where the two glob matchers agree. */
module GlobAgreement {
  import PathGlob
  import S = SegmentGlob

  /** No two stars stand side by side. */
  ghost predicate SingleStars(part: string) {
    forall i, j | 0 <= i < j < |part| && j == i + 1 :: !(part[i] == '*' && part[j] == '*')
  }

  /** A part that contains `?` also contains `*`. */
  predicate MarkedByStar(part: string) {
    '?' in part ==> '*' in part
  }

  /** A star stands among the wildcards that the part begins with. */
  predicate StartsOpen(part: string) {
    part != "" && (part[0] == '*' || (part[0] == '?' && StartsOpen(part[1..])))
  }

  /** The parts of a pattern in which stars stand side by side only as a whole part `**`. */
  ghost predicate Parts(parts: seq<string>) {
    parts != [] && forall i | 0 <= i < |parts| :: PartShaped(parts[i])
  }

  ghost predicate PartShaped(part: string) {
    '/' !in part && (part == "**" || SingleStars(part))
  }

  /** Every `**` but a pattern's only part is followed by another or by a part that starts open. */
  predicate DeepsLead(parts: seq<string>) {
    forall i | 0 <= i < |parts| - 1 && parts[i] == "**" :: parts[i + 1] == "**" || StartsOpen(parts[i + 1])
  }

  predicate EndsInDeep(parts: seq<string>) {
    parts != [] && parts[|parts| - 1] == "**"
  }

  predicate EndsInDeepStar(parts: seq<string>) {
    |parts| > 1 && parts[|parts| - 2] == "**" && parts[|parts| - 1] == "*"
  }

  predicate Marked(parts: seq<string>) {
    forall i | 0 <= i < |parts| :: MarkedByStar(parts[i])
  }

  predicate Led(parts: seq<string>) {
    Marked(parts) && DeepsLead(parts) && !EndsInDeep(parts) && !EndsInDeepStar(parts)
  }

  predicate Compatible(parts: seq<string>) {
    parts == ["**"] || Led(parts)
  }

  // ---- the two readings of a list of parts ----

  ghost predicate ByChars(parts: seq<string>, path: string) {
    PathGlob.Denotes(PathGlob.Tokens(S.JoinSlashes(parts)), path)
  }

  ghost predicate BySegments(parts: seq<string>, path: string) {
    S.Assigned(S.PartCovers, parts, S.Split(path))
  }

  // ---- one part ----

  lemma {:induction false} PlainFits(part: string, segment: string)
    requires '*' !in part && '?' !in part
    ensures S.Fits(part, segment) <==> part == segment
    decreases |part|
  {
    if part != "" {
      assert part[0] in part && part == [part[0]] + part[1..];
      if segment != "" {
        PlainFits(part[1..], segment[1..]);
        assert segment == [segment[0]] + segment[1..] && segment[..1] == [segment[0]];
      }
    }
  }

  lemma PartFitsAlike(part: string, segment: string)
    requires MarkedByStar(part)
    ensures S.PartFits(part, segment) <==> S.Fits(part, segment)
  {
    if '*' in part {
      S.FitsIsAssigned(part, segment);
    } else {
      PlainFits(part, segment);
    }
  }

  /** The part covers the first `k` characters, which hold no slash, and the tail the others. */
  ghost predicate Cuts(part: string, tail: string, path: string, k: nat) {
    k <= |path| && '/' !in path[..k] && S.Fits(part, path[..k])
    && PathGlob.Denotes(PathGlob.Tokens(tail), path[k..])
  }

  lemma StarCuts(part: string, tail: string, path: string)
    requires part != "" && part[0] == '*'
    ensures (exists k: nat :: Cuts(part, tail, path, k))
       <==> exists j: nat | j <= |path| :: '/' !in path[..j] && exists k: nat :: Cuts(part[1..], tail, path[j..], k)
  {
    if k: nat :| Cuts(part, tail, path, k) {
      var j :| 0 <= j <= k && S.Fits(part[1..], path[..k][j..]);
      assert path[..k][j..] == path[j..][..k - j] && path[j..][k - j..] == path[k..];
      assert path[..k] == path[..j] + path[j..][..k - j];
      assert Cuts(part[1..], tail, path[j..], k - j);
    }
    if j: nat :| j <= |path| && '/' !in path[..j] && exists k: nat :: Cuts(part[1..], tail, path[j..], k) {
      var k: nat :| Cuts(part[1..], tail, path[j..], k);
      assert path[..j + k] == path[..j] + path[j..][..k] && path[..j + k][j..] == path[j..][..k];
      assert path[j..][k..] == path[j + k..];
      assert Cuts(part, tail, path, j + k);
    }
  }

  ghost predicate HeadCuts(part: string, path: string)
    requires part != ""
  {
    path != "" && path[0] != '/' && (part[0] == '?' || part[0] == path[0])
  }

  lemma CharCutDown(part: string, tail: string, path: string, k: nat)
    requires part != "" && part[0] != '*' && Cuts(part, tail, path, k)
    ensures HeadCuts(part, path) && k > 0 && Cuts(part[1..], tail, path[1..], k - 1)
  {
    assert path[..k][0] == path[0] && path[..k][..1] == [path[0]];
    assert path[..k] == [path[0]] + path[1..][..k - 1] && path[..k][1..] == path[1..][..k - 1];
    assert path[1..][k - 1..] == path[k..];
  }

  lemma CharCutUp(part: string, tail: string, path: string, k: nat)
    requires part != "" && part[0] != '*' && HeadCuts(part, path) && Cuts(part[1..], tail, path[1..], k)
    ensures Cuts(part, tail, path, k + 1)
  {
    assert path[..k + 1] == [path[0]] + path[1..][..k] && path[..k + 1][1..] == path[1..][..k];
    assert path[..k + 1][..1] == [path[0]] && path[1..][k..] == path[k + 1..];
  }

  lemma CharCuts(part: string, tail: string, path: string)
    requires part != "" && part[0] != '*'
    ensures (exists k: nat :: Cuts(part, tail, path, k))
       <==> HeadCuts(part, path) && exists k: nat :: Cuts(part[1..], tail, path[1..], k)
  {
    if k: nat :| Cuts(part, tail, path, k) {
      CharCutDown(part, tail, path, k);
    }
    if HeadCuts(part, path) {
      if k: nat :| Cuts(part[1..], tail, path[1..], k) {
        CharCutUp(part, tail, path, k);
      }
    }
  }

  lemma TokensOfChar(part: string, tail: string)
    requires part != "" && '/' !in part && SingleStars(part) && (tail == "" || tail[0] == '/')
    ensures var token := if part[0] == '*' then PathGlob.Star else if part[0] == '?' then PathGlob.AnyOne
                         else PathGlob.Literal(part[0]);
      PathGlob.Tokens(part + tail) == [token] + PathGlob.Tokens(part[1..] + tail)
  {
    var pattern := part + tail;
    assert pattern[0] == part[0] && pattern[1..] == part[1..] + tail;
    if |part| > 1 { assert pattern[1] == part[1]; }
    assert !("**" <= pattern);
  }

  /** A part without slashes, read as the beginning of a path pattern. */
  lemma {:induction false} PartDenotes(part: string, tail: string, path: string)
    requires '/' !in part && SingleStars(part) && (tail == "" || tail[0] == '/')
    ensures PathGlob.Denotes(PathGlob.Tokens(part + tail), path) <==> exists k: nat :: Cuts(part, tail, path, k)
    decreases |part|
  {
    if part == "" {
      assert part + tail == tail && path[..0] == "" && path[0..] == path;
      assert Cuts(part, tail, path, 0) <==> PathGlob.Denotes(PathGlob.Tokens(tail), path);
    } else {
      var rest := PathGlob.Tokens(part[1..] + tail);
      TokensOfChar(part, tail);
      assert PathGlob.Tokens(part + tail)[1..] == rest;
      assert part[0] in part && forall c | c in part[1..] :: c in part;
      if part[0] == '*' {
        forall j | 0 <= j <= |path|
          ensures PathGlob.Denotes(rest, path[j..]) <==> exists k: nat :: Cuts(part[1..], tail, path[j..], k)
        {
          PartDenotes(part[1..], tail, path[j..]);
        }
        StarCuts(part, tail, path);
      } else {
        CharCuts(part, tail, path);
        if path != "" { PartDenotes(part[1..], tail, path[1..]); }
      }
    }
  }

  // ---- the first part of several ----

  function FirstSlash(s: string): (k: nat)
    ensures k <= |s| && '/' !in s[..k] && (k < |s| ==> s[k] == '/')
  {
    if s == "" || s[0] == '/' then 0
    else
      var k := 1 + FirstSlash(s[1..]);
      assert s[..k] == [s[0]] + s[1..][..k - 1];
      k
  }

  function Later(path: string): string
    requires FirstSlash(path) < |path|
  {
    path[FirstSlash(path) + 1..]
  }

  lemma Rejoined(s: string, k: nat)
    requires k < |s| && s[k] == '/'
    ensures s[..k] + "/" + s[k + 1..] == s
  {
  }

  lemma SplitAtFirst(s: string)
    ensures var k := FirstSlash(s);
      S.Split(s) == if k < |s| then [s[..k]] + S.Split(s[k + 1..]) else [s]
  {
    var k := FirstSlash(s);
    if k < |s| {
      Rejoined(s, k);
      S.SplitFirst(s[..k], s[k + 1..]);
    } else {
      assert s[..k] == s;
      S.SplitOne(s);
    }
  }

  lemma JoinFirst(part: string, rest: seq<string>)
    requires rest != []
    ensures S.JoinSlashes([part] + rest) == part + ("/" + S.JoinSlashes(rest))
  {
    assert ([part] + rest)[1..] == rest;
  }

  /** The first slash is the only place where a part can end before one. */
  lemma EndsAtFirst(path: string, k: nat)
    requires k < |path| && '/' !in path[..k] && path[k] == '/'
    ensures k == FirstSlash(path)
  {
    var n := FirstSlash(path);
    assert forall i | 0 <= i < n :: path[..n][i] == path[i];
    assert forall i | 0 <= i < k :: path[..k][i] == path[i];
  }

  lemma CutAtSlash(part: string, rest: string, path: string)
    ensures var n := FirstSlash(path);
      (exists k: nat :: Cuts(part, "/" + rest, path, k))
      <==> n < |path| && S.Fits(part, path[..n]) && PathGlob.Denotes(PathGlob.Tokens(rest), path[n + 1..])
  {
    var tail, n := "/" + rest, FirstSlash(path);
    assert tail[0] == '/' && tail[1..] == rest;
    assert PathGlob.Tokens(tail)[1..] == PathGlob.Tokens(rest);
    forall k: nat | Cuts(part, tail, path, k) ensures k == n < |path| {
      assert path[k..][0] == '/';
      EndsAtFirst(path, k);
    }
    if n < |path| {
      assert path[n..][1..] == path[n + 1..] && path[n..][0] == '/';
      assert Cuts(part, tail, path, n)
        <==> S.Fits(part, path[..n]) && PathGlob.Denotes(PathGlob.Tokens(rest), path[n + 1..]);
    }
  }

  lemma CharsNext(part: string, rest: seq<string>, path: string)
    requires '/' !in part && SingleStars(part) && rest != []
    ensures ByChars([part] + rest, path)
       <==> FirstSlash(path) < |path| && S.Fits(part, path[..FirstSlash(path)]) && ByChars(rest, Later(path))
  {
    JoinFirst(part, rest);
    PartDenotes(part, "/" + S.JoinSlashes(rest), path);
    CutAtSlash(part, S.JoinSlashes(rest), path);
  }

  lemma CharsLast(part: string, path: string)
    requires '/' !in part && SingleStars(part)
    ensures ByChars([part], path) <==> FirstSlash(path) == |path| && S.Fits(part, path)
  {
    var n := FirstSlash(path);
    PartDenotes(part, "", path);
    assert part + "" == part;
    forall k: nat ensures Cuts(part, "", path, k) <==> k == n == |path| && S.Fits(part, path) {
      if k == |path| {
        assert path[..k] == path && path[k..] == "";
        if n < |path| { assert path[..k][n] == '/'; }
      }
    }
  }

  lemma CharsDeep(rest: seq<string>, path: string)
    requires rest != []
    ensures ByChars(["**"] + rest, path)
       <==> path != "" && exists k | 0 <= k <= |path| :: ByChars(rest, path[k..])
  {
    JoinFirst("**", rest);
    var pattern := "**" + ("/" + S.JoinSlashes(rest));
    assert "**/" <= pattern && pattern[3..] == S.JoinSlashes(rest);
    assert PathGlob.Tokens(pattern)[1..] == PathGlob.Tokens(S.JoinSlashes(rest));
  }

  lemma CharsOnlyDeep(path: string)
    ensures ByChars(["**"], path)
  {
    var pattern, none := "**", "";
    assert pattern[2..] == none && PathGlob.Tokens(none) == [];
    assert PathGlob.Tokens(pattern) == [PathGlob.Deep(false)];
    assert path[|path|..] == "" && PathGlob.Denotes(PathGlob.Tokens(pattern)[1..], path[|path|..]);
  }

  predicate AllDeep(parts: seq<string>) {
    forall i | 0 <= i < |parts| :: parts[i] == "**"
  }

  lemma {:induction false} NoSegments(parts: seq<string>)
    ensures S.Assigned(S.PartCovers, parts, []) <==> AllDeep(parts)
  {
    var none: seq<string> := [];
    if parts == [] {
      S.AssignedNone(S.PartCovers, none);
    } else {
      S.FirstPart(parts, none);
      NoSegments(parts[1..]);
      assert none[0..] == none;
      assert parts == [parts[0]] + parts[1..];
    }
  }

  lemma SplitHead(path: string)
    ensures S.Split(path)[0] == path[..FirstSlash(path)]
    ensures S.Split(path)[1..] == if FirstSlash(path) < |path| then S.Split(Later(path)) else []
  {
    SplitAtFirst(path);
    assert path[..|path|] == path;
  }

  lemma OneTakes(part: string, rest: seq<string>, segments: seq<string>)
    requires part != "**" && segments != []
    ensures S.Assigned(S.PartCovers, [part] + rest, segments)
       <==> S.PartFits(part, segments[0]) && S.Assigned(S.PartCovers, rest, segments[1..])
  {
    S.FirstPart([part] + rest, segments);
    assert ([part] + rest)[1..] == rest;
  }

  lemma SegmentsNext(part: string, rest: seq<string>, path: string)
    requires part != "**"
    ensures BySegments([part] + rest, path)
       <==> S.PartFits(part, path[..FirstSlash(path)])
            && if FirstSlash(path) < |path| then BySegments(rest, Later(path)) else AllDeep(rest)
  {
    SplitHead(path);
    OneTakes(part, rest, S.Split(path));
    NoSegments(rest);
  }

  lemma DeepTakes(rest: seq<string>, segments: seq<string>)
    requires segments != []
    ensures S.Assigned(S.PartCovers, ["**"] + rest, segments)
       <==> S.Assigned(S.PartCovers, rest, segments) || S.Assigned(S.PartCovers, ["**"] + rest, segments[1..])
  {
    var parts, later := ["**"] + rest, segments[1..];
    assert parts[1..] == rest;
    S.FirstPart(parts, segments);
    S.FirstPart(parts, later);
    if k :| 0 <= k <= |segments| && S.Assigned(S.PartCovers, rest, segments[k..]) {
      if k == 0 {
        assert segments[0..] == segments;
      } else {
        assert later[k - 1..] == segments[k..];
      }
    }
    if S.Assigned(S.PartCovers, rest, segments) { assert segments[0..] == segments; }
    if k :| 0 <= k <= |later| && S.Assigned(S.PartCovers, rest, later[k..]) {
      assert later[k..] == segments[k + 1..];
    }
  }

  lemma SegmentsDeep(rest: seq<string>, path: string)
    ensures BySegments(["**"] + rest, path)
       <==> BySegments(rest, path)
            || if FirstSlash(path) < |path| then BySegments(["**"] + rest, Later(path)) else AllDeep(rest)
  {
    SplitHead(path);
    DeepTakes(rest, S.Split(path));
    NoSegments(["**"] + rest);
    assert forall i | 0 <= i < |rest| :: (["**"] + rest)[i + 1] == rest[i];
  }

  lemma {:induction false} SegmentsAllDeep(parts: seq<string>, path: string)
    requires parts != [] && AllDeep(parts)
    ensures BySegments(parts, path)
    decreases |path|
  {
    assert parts == ["**"] + parts[1..];
    SegmentsDeep(parts[1..], path);
    if FirstSlash(path) < |path| { SegmentsAllDeep(parts, Later(path)); }
  }

  // ---- behind a double star ----

  /** Characters before an open part can be left to it instead. */
  lemma {:induction false} OpenTakes(part: string, tail: string, c: char, path: string)
    requires StartsOpen(part) && '/' !in part && SingleStars(part) && (tail == "" || tail[0] == '/') && c != '/'
    requires PathGlob.Denotes(PathGlob.Tokens(part + tail), path)
    ensures PathGlob.Denotes(PathGlob.Tokens(part + tail), [c] + path)
    decreases |part|
  {
    TokensOfChar(part, tail);
    var rest := PathGlob.Tokens(part[1..] + tail);
    assert PathGlob.Tokens(part + tail)[1..] == rest;
    if part[0] == '*' {
      var k :| 0 <= k <= |path| && '/' !in path[..k] && PathGlob.Denotes(rest, path[k..]);
      assert ([c] + path)[..k + 1] == [c] + path[..k] && ([c] + path)[k + 1..] == path[k..];
    } else {
      assert forall x | x in part[1..] :: x in part;
      OpenTakes(part[1..], tail, path[0], path[1..]);
      assert path == [path[0]] + path[1..] && ([c] + path)[1..] == path;
    }
  }

  /** What the parts accept from within the first segment they accept from its start. */
  ghost predicate Absorbs(parts: seq<string>, c: char, path: string) {
    ByChars(parts, path) ==> ByChars(parts, [c] + path)
  }

  lemma LedAbsorbs(parts: seq<string>, c: char, path: string)
    requires Parts(parts) && c != '/' && (if parts[0] == "**" then |parts| > 1 else StartsOpen(parts[0]))
    ensures Absorbs(parts, c, path)
  {
    var rest := parts[1..];
    assert parts == [parts[0]] + rest;
    if ByChars(parts, path) {
      if parts[0] == "**" {
        CharsDeep(rest, path);
        CharsDeep(rest, [c] + path);
        var k :| 0 <= k <= |path| && ByChars(rest, path[k..]);
        assert ([c] + path)[k + 1..] == path[k..];
      } else if rest == [] {
        assert parts[0] + "" == parts[0];
        OpenTakes(parts[0], "", c, path);
      } else {
        JoinFirst(parts[0], rest);
        OpenTakes(parts[0], "/" + S.JoinSlashes(rest), c, path);
      }
    }
  }

  lemma {:induction false} AllAbsorbed(parts: seq<string>, path: string, k: nat)
    requires k <= |path| && '/' !in path[..k] && ByChars(parts, path[k..])
    requires forall c, p | c != '/' :: Absorbs(parts, c, p)
    ensures ByChars(parts, path)
    decreases k
  {
    if k == 0 {
      assert path[0..] == path;
    } else {
      var c := path[k - 1];
      assert path[..k][k - 1] == c && path[..k - 1] == path[..k][..k - 1] && path[k - 1..] == [c] + path[k..];
      assert Absorbs(parts, c, path[k..]);
      AllAbsorbed(parts, path, k - 1);
    }
  }

  ghost predicate SomeSuffix(parts: seq<string>, path: string) {
    exists k | 0 <= k <= |path| :: ByChars(parts, path[k..])
  }

  lemma LaterFrom(path: string, k: nat) returns (m: nat)
    requires FirstSlash(path) < |path| && k <= |Later(path)|
    ensures m <= |path| && path[m..] == Later(path)[k..]
  {
    m := FirstSlash(path) + 1 + k;
  }

  lemma LaterSuffix(parts: seq<string>, path: string)
    requires FirstSlash(path) < |path| && SomeSuffix(parts, Later(path))
    ensures SomeSuffix(parts, path)
  {
    var k :| 0 <= k <= |Later(path)| && ByChars(parts, Later(path)[k..]);
    var m := LaterFrom(path, k);
    assert ByChars(parts, path[m..]);
  }

  lemma FirstSuffix(parts: seq<string>, path: string, k: nat)
    requires k <= |path| && ByChars(parts, path[k..]) && forall c, p | c != '/' :: Absorbs(parts, c, p)
    ensures ByChars(parts, path) || (FirstSlash(path) < |path| && SomeSuffix(parts, Later(path)))
  {
    var n := FirstSlash(path);
    if k <= n {
      assert path[..k] == path[..n][..k];
      AllAbsorbed(parts, path, k);
    } else {
      assert path[k..] == Later(path)[k - n - 1..];
    }
  }

  /** A suffix begins in the first segment, where its start can be moved forward, or later. */
  lemma SuffixBegins(parts: seq<string>, path: string)
    requires forall c, p | c != '/' :: Absorbs(parts, c, p)
    ensures SomeSuffix(parts, path)
       <==> ByChars(parts, path) || (FirstSlash(path) < |path| && SomeSuffix(parts, Later(path)))
  {
    assert path[0..] == path;
    if FirstSlash(path) < |path| && SomeSuffix(parts, Later(path)) {
      LaterSuffix(parts, path);
    }
    if k :| 0 <= k <= |path| && ByChars(parts, path[k..]) {
      FirstSuffix(parts, path, k);
    }
  }

  lemma NoSuffixOfNothing(parts: seq<string>)
    requires !ByChars(parts, "")
    ensures !SomeSuffix(parts, "")
  {
    var none := "";
    assert none[0..] == none;
  }

  /** If the readings of the rest agree, the readings with a double star before it agree. */
  lemma {:induction false} DeepAgrees(rest: seq<string>, path: string)
    requires rest != [] && !AllDeep(rest) && forall p :: ByChars(rest, p) <==> BySegments(rest, p)
    requires forall c, p | c != '/' :: Absorbs(rest, c, p)
    requires !BySegments(rest, "")
    ensures ByChars(["**"] + rest, path) <==> BySegments(["**"] + rest, path)
    decreases |path|
  {
    assert !ByChars(rest, "");
    NoSuffixOfNothing(rest);
    CharsDeep(rest, path);
    SuffixBegins(rest, path);
    SegmentsDeep(rest, path);
    if FirstSlash(path) < |path| {
      DeepAgrees(rest, Later(path));
      CharsDeep(rest, Later(path));
    }
  }

  lemma {:induction false} FitsNothing(part: string)
    requires SingleStars(part) && S.PartFits(part, "")
    ensures part == "" || part == "*"
  {
    if '*' in part {
      S.FitsIsAssigned(part, "");
      assert |part| > 1 ==> !(part[0] == '*' && part[1] == '*');
      OnlyStarsFitNothing(part);
    }
  }

  lemma {:induction false} OnlyStarsFitNothing(part: string)
    requires S.Fits(part, "")
    ensures forall i | 0 <= i < |part| :: part[i] == '*'
  {
    if part != "" {
      var none := "";
      assert part[0] == '*' && none[0..] == none;
      OnlyStarsFitNothing(part[1..]);
      assert part == [part[0]] + part[1..];
    }
  }

  /** Only double stars before one last part that fits nothing fit the empty path. */
  lemma {:induction false} EmptyPathFits(parts: seq<string>)
    requires Parts(parts) && !EndsInDeep(parts) && BySegments(parts, "")
    ensures AllDeep(parts[..|parts| - 1]) && (parts[|parts| - 1] == "" || parts[|parts| - 1] == "*")
  {
    var rest := parts[1..];
    assert parts == [parts[0]] + rest;
    if parts[0] == "**" {
      SegmentsDeep(rest, "");
      assert rest[|rest| - 1] == parts[|parts| - 1];
      assert !AllDeep(rest);
      EmptyPathFits(rest);
      assert parts[..|parts| - 1] == [parts[0]] + rest[..|rest| - 1];
    } else {
      SegmentsNext(parts[0], rest, "");
      FitsNothing(parts[0]);
    }
  }

  lemma LedRest(parts: seq<string>)
    requires Parts(parts) && Led(parts) && |parts| > 1
    ensures Parts(parts[1..]) && Led(parts[1..]) && !AllDeep(parts[1..])
  {
    var rest := parts[1..];
    assert forall i | 0 <= i < |rest| :: rest[i] == parts[i + 1];
    assert rest[|rest| - 1] == parts[|parts| - 1];
  }

  lemma LedIsNotEmpty(parts: seq<string>)
    requires Parts(parts) && Led(parts) && parts[0] == "**" && |parts| > 1
    ensures !BySegments(parts[1..], "")
  {
    LedRest(parts);
    var rest := parts[1..];
    assert parts[|parts| - 1] == rest[|rest| - 1];
    assert |rest| > 1 ==> rest[..|rest| - 1][|rest| - 2] == parts[|parts| - 2];
    if BySegments(rest, "") {
      EmptyPathFits(rest);
    }
  }

  // ---- whole patterns ----

  lemma {:induction false} PartsAgree(parts: seq<string>, path: string)
    requires Parts(parts) && Compatible(parts)
    ensures ByChars(parts, path) <==> BySegments(parts, path)
    decreases |parts|
  {
    var part, rest := parts[0], parts[1..];
    assert parts == [part] + rest && PartShaped(part);
    if parts == ["**"] {
      CharsOnlyDeep(path);
      SegmentsAllDeep(parts, path);
    } else if rest == [] {
      CharsLast(part, path);
      SegmentsNext(part, [], path);
      PartFitsAlike(part, path);
      assert FirstSlash(path) == |path| ==> path[..FirstSlash(path)] == path;
      assert FirstSlash(path) < |path| ==> !BySegments([], Later(path)) by {
        if FirstSlash(path) < |path| { S.AssignedNone(S.PartCovers, S.Split(Later(path))); }
      }
    } else {
      LedRest(parts);
      if part == "**" {
        forall p ensures ByChars(rest, p) <==> BySegments(rest, p) {
          PartsAgree(rest, p);
        }
        assert rest[0] == parts[1];
        forall c, p | c != '/' ensures Absorbs(rest, c, p) {
          LedAbsorbs(rest, c, p);
        }
        LedIsNotEmpty(parts);
        DeepAgrees(rest, path);
      } else {
        CharsNext(part, rest, path);
        SegmentsNext(part, rest, path);
        PartFitsAlike(part, path[..FirstSlash(path)]);
        if FirstSlash(path) < |path| { PartsAgree(rest, Later(path)); }
      }
    }
  }

  lemma SplitParts(pattern: string)
    requires forall part | part in S.Split(pattern) :: part == "**" || SingleStars(part)
    ensures Parts(S.Split(pattern)) && S.JoinSlashes(S.Split(pattern)) == pattern
  {
    S.SplitRoundTrip(pattern);
  }

  /** The two matchers accept the same paths for these patterns. */
  lemma MatchersAgree(pattern: string, path: string)
    requires forall part | part in S.Split(pattern) :: part == "**" || SingleStars(part)
    requires Compatible(S.Split(pattern))
    ensures S.PathFits(pattern, path) <==> PathGlob.Denotes(PathGlob.Tokens(pattern), path)
  {
    SplitParts(pattern);
    PartsAgree(S.Split(pattern), path);
  }
}
