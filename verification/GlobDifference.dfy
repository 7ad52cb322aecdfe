/** Paths that tell the two glob matchers apart, for every pattern they read differently in which stars
    stand side by side only as a whole part. */
module GlobDifference {
  import opened GlobAgreement

  // ---- segments for the parts that are not `**` ----

  /** The part with its stars left out and `c` for every `?`. */
  function Filled(part: string, c: char): string {
    if part == "" then ""
    else (if part[0] == '*' then "" else if part[0] == '?' then [c] else [part[0]]) + Filled(part[1..], c)
  }

  lemma {:induction false} FilledFits(part: string, c: char)
    requires '/' !in part && c != '/'
    ensures S.Fits(part, Filled(part, c)) && '/' !in Filled(part, c)
  {
    if part != "" {
      assert part[0] in part && forall x | x in part[1..] :: x in part;
      FilledFits(part[1..], c);
      var text, rest := Filled(part, c), Filled(part[1..], c);
      if part[0] == '*' {
        assert text == rest && text[0..] == rest;
      } else {
        assert text[..1] == [text[0]] && text[1..] == rest;
      }
    }
  }

  lemma {:induction false} FilledPlain(part: string, c: char)
    requires '*' !in part && '?' !in part
    ensures Filled(part, c) == part
  {
    if part != "" {
      assert part[0] in part && forall x | x in part[1..] :: x in part;
      FilledPlain(part[1..], c);
      assert part == [part[0]] + part[1..];
    }
  }

  lemma {:induction false} NoMarkLeft(part: string, c: char)
    requires c != '?'
    ensures '?' !in Filled(part, c)
  {
    if part != "" { NoMarkLeft(part[1..], c); }
  }

  /** Each part that is not `**` fits its segment. */
  ghost predicate OneForOne(parts: seq<string>, segments: seq<string>)
    decreases |parts|
  {
    if parts == [] then segments == []
    else if parts[0] == "**" then OneForOne(parts[1..], segments)
    else segments != [] && S.PartFits(parts[0], segments[0]) && OneForOne(parts[1..], segments[1..])
  }

  function Solids(parts: seq<string>): nat {
    if parts == [] then 0 else (if parts[0] == "**" then 0 else 1) + Solids(parts[1..])
  }

  lemma {:induction false} OneForOneIsAssigned(parts: seq<string>, segments: seq<string>)
    requires OneForOne(parts, segments)
    ensures S.Assigned(S.PartCovers, parts, segments)
    decreases |parts|
  {
    if parts == [] {
      S.AssignedNone(S.PartCovers, segments);
    } else {
      S.FirstPart(parts, segments);
      if parts[0] == "**" {
        OneForOneIsAssigned(parts[1..], segments);
        assert segments[0..] == segments;
      } else {
        OneForOneIsAssigned(parts[1..], segments[1..]);
      }
    }
  }

  /** Every part but `**` takes a segment, so with no more segments than such parts nothing else is. */
  lemma {:induction false} AssignedIsOneForOne(parts: seq<string>, segments: seq<string>)
    requires S.Assigned(S.PartCovers, parts, segments)
    ensures |segments| >= Solids(parts)
    ensures |segments| == Solids(parts) ==> OneForOne(parts, segments)
    decreases |parts|
  {
    if parts == [] {
      S.AssignedNone(S.PartCovers, segments);
    } else {
      S.FirstPart(parts, segments);
      if parts[0] == "**" {
        var k :| 0 <= k <= |segments| && S.Assigned(S.PartCovers, parts[1..], segments[k..]);
        AssignedIsOneForOne(parts[1..], segments[k..]);
        assert segments[0..] == segments;
      } else {
        AssignedIsOneForOne(parts[1..], segments[1..]);
      }
    }
  }

  ghost predicate SlashFree(segments: seq<string>) {
    forall i | 0 <= i < |segments| :: '/' !in segments[i]
  }

  lemma NoSlash(path: string)
    requires '/' !in path
    ensures FirstSlash(path) == |path|
  {
  }

  lemma {:induction false} JoinSplit(segments: seq<string>)
    requires segments != [] && SlashFree(segments)
    ensures S.Split(S.JoinSlashes(segments)) == segments
  {
    if |segments| == 1 {
      S.SplitOne(segments[0]);
    } else {
      JoinSplit(segments[1..]);
      S.SplitFirst(segments[0], S.JoinSlashes(segments[1..]));
    }
  }

  lemma JoinNext(first: string, rest: seq<string>)
    requires rest != [] && '/' !in first
    ensures var path := S.JoinSlashes([first] + rest);
      FirstSlash(path) == |first| < |path| && path[..|first|] == first && Later(path) == S.JoinSlashes(rest)
  {
    assert ([first] + rest)[1..] == rest;
    var path := S.JoinSlashes([first] + rest);
    assert path[..|first|] == first && path[|first|] == '/';
    EndsAtFirst(path, |first|);
  }

  // ---- a path that the character glob accepts ----

  /** A double star in front of a part takes one `c`. */
  function DrawnFor(parts: seq<string>, j: nat, c: char): string
    requires j < |parts|
  {
    (if j > 0 && parts[j - 1] == "**" then [c] else "") + Filled(parts[j], c)
  }

  function Drawn(parts: seq<string>, c: char): seq<string> {
    if parts == [] then []
    else if parts[0] != "**" then [Filled(parts[0], c)] + Drawn(parts[1..], c)
    else if |parts| > 1 && parts[1] != "**" then [[c] + Filled(parts[1], c)] + Drawn(parts[2..], c)
    else Drawn(parts[1..], c)
  }

  lemma {:induction false} DrawnShape(parts: seq<string>, c: char)
    requires Parts(parts) && c != '/'
    ensures SlashFree(Drawn(parts, c)) && |Drawn(parts, c)| == Solids(parts)
    ensures !EndsInDeep(parts) ==> Drawn(parts, c) != []
    decreases |parts|
  {
    assert PartShaped(parts[0]);
    if parts[0] != "**" {
      FilledFits(parts[0], c);
      if |parts| > 1 { DrawnShape(parts[1..], c); }
    } else if |parts| > 1 && parts[1] != "**" {
      assert PartShaped(parts[1]) && parts[1..][0] == parts[1] && parts[1..][1..] == parts[2..];
      FilledFits(parts[1], c);
      if |parts| > 2 { DrawnShape(parts[2..], c); }
    } else if |parts| > 1 {
      DrawnShape(parts[1..], c);
    }
  }

  /** A double star before the parts can take `c`. */
  lemma DrawnBehindDeep(parts: seq<string>, c: char)
    requires Parts(parts) && |parts| > 1 && parts[0] == "**" && parts[1] != "**" && c != '/'
    ensures S.JoinSlashes(Drawn(parts, c)) == [c] + S.JoinSlashes(Drawn(parts[1..], c))
  {
    assert parts[1..][0] == parts[1] && parts[1..][1..] == parts[2..];
    var q, more := Filled(parts[1], c), Drawn(parts[2..], c);
    assert ([[c] + q] + more)[1..] == more && ([q] + more)[1..] == more;
  }

  lemma {:induction false} DrawnIsAccepted(parts: seq<string>, c: char)
    requires Parts(parts) && !EndsInDeep(parts) && c != '/'
    ensures ByChars(parts, S.JoinSlashes(Drawn(parts, c)))
    ensures parts[0] == "**" ==> S.JoinSlashes(Drawn(parts, c)) != ""
    decreases |parts|
  {
    var part, rest, path := parts[0], parts[1..], S.JoinSlashes(Drawn(parts, c));
    assert parts == [part] + rest && PartShaped(part);
    if part != "**" {
      FilledFits(part, c);
      if rest == [] {
        assert Drawn(parts, c) == [Filled(part, c)];
        CharsLast(part, path);
        NoSlash(path);
      } else {
        assert rest[|rest| - 1] == parts[|parts| - 1];
        DrawnIsAccepted(rest, c);
        DrawnShape(rest, c);
        JoinNext(Filled(part, c), Drawn(rest, c));
        CharsNext(part, rest, path);
      }
    } else {
      assert rest[|rest| - 1] == parts[|parts| - 1];
      DrawnIsAccepted(rest, c);
      CharsDeep(rest, path);
      if rest[0] != "**" {
        DrawnBehindDeep(parts, c);
        assert path[1..] == S.JoinSlashes(Drawn(rest, c));
      } else {
        assert path[0..] == path;
      }
    }
  }

  /** If the segments fit one for one, each part fits what was drawn for it. */
  lemma {:induction false} DrawnFits(parts: seq<string>, c: char, j: nat)
    requires OneForOne(parts, Drawn(parts, c)) && j < |parts| && parts[j] != "**"
    ensures S.PartFits(parts[j], DrawnFor(parts, j, c))
    decreases |parts|
  {
    var rest := parts[1..];
    if parts[0] != "**" {
      assert Drawn(parts, c)[1..] == Drawn(rest, c);
      if j > 0 { DrawnFits(rest, c, j - 1); }
    } else if parts[1] != "**" {
      assert rest[0] == parts[1] && rest[1..] == parts[2..];
      assert Drawn(parts, c)[1..] == Drawn(parts[2..], c);
      if j > 1 { DrawnFits(parts[2..], c, j - 2); }
    } else {
      DrawnFits(rest, c, j - 1);
    }
  }

  lemma DrawnBySegments(parts: seq<string>, c: char, j: nat)
    requires Parts(parts) && !EndsInDeep(parts) && c != '/' && j < |parts| && parts[j] != "**"
    requires BySegments(parts, S.JoinSlashes(Drawn(parts, c)))
    ensures S.PartFits(parts[j], DrawnFor(parts, j, c))
  {
    DrawnShape(parts, c);
    JoinSplit(Drawn(parts, c));
    AssignedIsOneForOne(parts, Drawn(parts, c));
    DrawnFits(parts, c, j);
  }

  /** An unmarked part asks for a `?` in the path. */
  lemma UnmarkedDiffers(parts: seq<string>, j: nat)
    requires Parts(parts) && !EndsInDeep(parts) && j < |parts| && !MarkedByStar(parts[j])
    ensures exists path :: ByChars(parts, path) && !BySegments(parts, path)
  {
    var path := S.JoinSlashes(Drawn(parts, 'x'));
    DrawnIsAccepted(parts, 'x');
    NoMarkLeft(parts[j], 'x');
    if BySegments(parts, path) { DrawnBySegments(parts, 'x', j); }
  }

  /** The first character that is not `?` is another. */
  predicate Avoids(part: string, c: char) {
    part != "" ==> if part[0] == '?' then Avoids(part[1..], c) else part[0] != c
  }

  lemma {:induction false} Avoidable(part: string) returns (c: char)
    ensures (c == 'x' || c == 'y') && Avoids(part, c)
  {
    if part == "" {
      c := 'x';
    } else if part[0] == '?' {
      c := Avoidable(part[1..]);
    } else {
      c := if part[0] == 'x' then 'y' else 'x';
    }
  }

  lemma {:induction false} ClosedRefuses(part: string, c: char)
    requires !StartsOpen(part) && Avoids(part, c)
    ensures !S.Fits(part, [c] + Filled(part, c))
  {
    if part != "" {
      var text := [c] + Filled(part, c);
      assert text[..1] == [c];
      if part[0] == '?' {
        ClosedRefuses(part[1..], c);
        assert text[1..] == [c] + Filled(part[1..], c);
      }
    }
  }

  /** A double star before a part that does not start open can take part of its segment. */
  lemma UnledDiffers(parts: seq<string>, j: nat)
    requires Parts(parts) && !EndsInDeep(parts) && Marked(parts)
    requires j + 1 < |parts| && parts[j] == "**" && parts[j + 1] != "**" && !StartsOpen(parts[j + 1])
    ensures exists path :: ByChars(parts, path) && !BySegments(parts, path)
  {
    var part := parts[j + 1];
    var c := Avoidable(part);
    var path := S.JoinSlashes(Drawn(parts, c));
    DrawnIsAccepted(parts, c);
    assert MarkedByStar(part);
    ClosedRefuses(part, c);
    if BySegments(parts, path) {
      DrawnBySegments(parts, c, j + 1);
      PartFitsAlike(part, DrawnFor(parts, j + 1, c));
    }
  }

  // ---- a path that the segment glob accepts ----

  function Own(part: string): string {
    if '*' in part then Filled(part, 'x') else part
  }

  lemma OwnFits(part: string)
    requires '/' !in part
    ensures S.PartFits(part, Own(part)) && '/' !in Own(part)
  {
    if '*' in part {
      FilledFits(part, 'x');
      S.FitsIsAssigned(part, Own(part));
    }
  }

  function Owns(parts: seq<string>): seq<string> {
    if parts == [] then []
    else (if parts[0] == "**" then [] else [Own(parts[0])]) + Owns(parts[1..])
  }

  lemma {:induction false} OwnsFit(parts: seq<string>)
    requires parts == [] || Parts(parts)
    ensures OneForOne(parts, Owns(parts)) && SlashFree(Owns(parts)) && |Owns(parts)| == Solids(parts)
  {
    if parts != [] {
      assert PartShaped(parts[0]);
      OwnsFit(parts[1..]);
      if parts[0] == "**" {
        assert Owns(parts) == Owns(parts[1..]);
      } else {
        OwnFits(parts[0]);
        assert Owns(parts)[1..] == Owns(parts[1..]);
      }
    }
  }

  lemma OwnsAreAccepted(parts: seq<string>)
    requires Parts(parts) && Solids(parts) > 0
    ensures BySegments(parts, S.JoinSlashes(Owns(parts)))
  {
    OwnsFit(parts);
    JoinSplit(Owns(parts));
    OneForOneIsAssigned(parts, Owns(parts));
  }

  /** The slashes that a path needs for the character glob. */
  function Hops(parts: seq<string>): nat {
    if |parts| <= 1 then 0 else (if parts[0] == "**" then 0 else 1) + Hops(parts[1..])
  }

  lemma {:induction false} HopsAreSolids(parts: seq<string>)
    requires parts != []
    ensures Hops(parts) == Solids(parts) - if EndsInDeep(parts) then 0 else 1
  {
    if |parts| > 1 {
      assert parts[1..][|parts| - 2] == parts[|parts| - 1];
      HopsAreSolids(parts[1..]);
    } else {
      assert Solids(parts[1..]) == 0;
    }
  }

  lemma {:induction false} SlashesOfFirst(path: string)
    ensures PathGlob.Slashes(path) == if FirstSlash(path) < |path| then 1 + PathGlob.Slashes(Later(path)) else 0
  {
    if path != "" {
      if path[0] == '/' {
        assert Later(path) == path[1..];
      } else {
        SlashesOfFirst(path[1..]);
        assert FirstSlash(path) < |path| ==> Later(path) == Later(path[1..]);
      }
    }
  }

  lemma {:induction false} SlashesOfJoin(segments: seq<string>)
    requires segments != [] && SlashFree(segments)
    ensures PathGlob.Slashes(S.JoinSlashes(segments)) == |segments| - 1
  {
    var path, rest := S.JoinSlashes(segments), segments[1..];
    SlashesOfFirst(path);
    if rest == [] {
      NoSlash(path);
    } else {
      assert segments == [segments[0]] + rest;
      SlashesOfJoin(rest);
      JoinNext(segments[0], rest);
    }
  }

  lemma {:induction false} CharsNeedSlashes(parts: seq<string>, path: string)
    requires Parts(parts) && ByChars(parts, path)
    ensures PathGlob.Slashes(path) >= Hops(parts)
    decreases |parts|
  {
    var part, rest := parts[0], parts[1..];
    assert parts == [part] + rest && PartShaped(part);
    if rest != [] {
      if part == "**" {
        CharsDeep(rest, path);
        var k :| 0 <= k <= |path| && ByChars(rest, path[k..]);
        CharsNeedSlashes(rest, path[k..]);
        PathGlob.SlashesInSuffix(path, k);
      } else {
        CharsNext(part, rest, path);
        CharsNeedSlashes(rest, Later(path));
        SlashesOfFirst(path);
      }
    }
  }

  /** A double star at the end asks for one more slash of the character glob. */
  lemma DeepEndDiffers(parts: seq<string>)
    requires Parts(parts) && EndsInDeep(parts) && Solids(parts) > 0
    ensures exists path :: BySegments(parts, path) && !ByChars(parts, path)
  {
    var path := S.JoinSlashes(Owns(parts));
    OwnsAreAccepted(parts);
    OwnsFit(parts);
    SlashesOfJoin(Owns(parts));
    HopsAreSolids(parts);
    if ByChars(parts, path) { CharsNeedSlashes(parts, path); }
  }

  lemma {:induction false} SolidsCount(parts: seq<string>)
    ensures Solids(parts) == 0 <==> AllDeep(parts)
  {
    if parts != [] {
      SolidsCount(parts[1..]);
      assert parts == [parts[0]] + parts[1..];
    }
  }

  lemma SeveralDeepDiffer(parts: seq<string>)
    requires Parts(parts) && AllDeep(parts) && |parts| > 1
    ensures exists path :: BySegments(parts, path) && !ByChars(parts, path)
  {
    SegmentsAllDeep(parts, "");
    assert parts == ["**"] + parts[1..];
    CharsDeep(parts[1..], "");
  }

  predicate EndsAtSlash(path: string) {
    path == "" || path[|path| - 1] == '/'
  }

  /** With no slash to spare, nothing is left for a last `**` before a last `*` to begin in. */
  lemma {:induction false} NothingLeft(parts: seq<string>, path: string)
    requires Parts(parts) && EndsInDeepStar(parts)
    requires EndsAtSlash(path) && PathGlob.Slashes(path) == Hops(parts)
    ensures !ByChars(parts, path)
    decreases |parts|
  {
    var part, rest := parts[0], parts[1..];
    assert parts == [part] + rest && PartShaped(part);
    if ByChars(parts, path) {
      if part == "**" {
        CharsDeep(rest, path);
        var k :| 0 <= k <= |path| && ByChars(rest, path[k..]);
        CharsNeedSlashes(rest, path[k..]);
        PathGlob.SlashesInSuffix(path, k);
        if |parts| == 2 {
          SlashAtEnd(path);
        } else {
          NothingLeft(rest, path[k..]);
        }
      } else {
        CharsNext(part, rest, path);
        SlashesOfFirst(path);
        NothingLeft(rest, Later(path));
      }
    }
  }

  lemma {:induction false} SlashAtEnd(path: string)
    requires path != "" && path[|path| - 1] == '/'
    ensures PathGlob.Slashes(path) > 0
  {
    if |path| > 1 { SlashAtEnd(path[1..]); }
  }

  lemma {:induction false} OwnsEndInNothing(parts: seq<string>)
    requires Parts(parts) && EndsInDeepStar(parts)
    ensures Owns(parts) != [] && EndsAtSlash(S.JoinSlashes(Owns(parts)))
    decreases |parts|
  {
    var rest := parts[1..];
    if |parts| == 2 {
      assert rest[0] == "*" && rest[1..] == [] && "*"[1..] == "";
      assert Owns(rest) == [""] && Owns(parts) == [""];
    } else {
      OwnsEndInNothing(rest);
      if parts[0] == "**" {
        assert Owns(parts) == Owns(rest);
      } else {
        assert Owns(parts)[1..] == Owns(rest);
        var path, later := S.JoinSlashes(Owns(parts)), S.JoinSlashes(Owns(rest));
        assert path == Own(parts[0]) + "/" + later;
        assert later != "" ==> path[|path| - 1] == later[|later| - 1];
      }
    }
  }

  lemma DeepStarDiffers(parts: seq<string>)
    requires Parts(parts) && EndsInDeepStar(parts)
    ensures exists path :: BySegments(parts, path) && !ByChars(parts, path)
  {
    var path := S.JoinSlashes(Owns(parts));
    OwnsEndInNothing(parts);
    OwnsFit(parts);
    OwnsAreAccepted(parts);
    SlashesOfJoin(Owns(parts));
    HopsAreSolids(parts);
    NothingLeft(parts, path);
  }

  // ---- exactly when they agree ----

  lemma Differ(parts: seq<string>)
    requires Parts(parts) && !Compatible(parts)
    ensures exists path :: ByChars(parts, path) != BySegments(parts, path)
  {
    if EndsInDeep(parts) {
      SolidsCount(parts);
      if Solids(parts) > 0 {
        DeepEndDiffers(parts);
      } else {
        SeveralDeepDiffer(parts);
      }
    } else if EndsInDeepStar(parts) {
      DeepStarDiffers(parts);
    } else if !Marked(parts) {
      var j :| 0 <= j < |parts| && !MarkedByStar(parts[j]);
      UnmarkedDiffers(parts, j);
    } else {
      var j :| 0 <= j < |parts| - 1 && parts[j] == "**" && parts[j + 1] != "**" && !StartsOpen(parts[j + 1]);
      UnledDiffers(parts, j);
    }
  }

  /** For patterns in which stars stand side by side only as a whole part `**`, the two matchers accept
      the same paths exactly when the pattern is `**` alone, or `?` stands only in parts with a star,
      every `**` is followed by another or by a part that starts open, and the last two parts are not
      `**` and `*`. */
  lemma AgreeExactly(pattern: string)
    requires forall part | part in S.Split(pattern) :: part == "**" || SingleStars(part)
    ensures (forall path :: S.PathFits(pattern, path) <==> PathGlob.Denotes(PathGlob.Tokens(pattern), path))
       <==> Compatible(S.Split(pattern))
  {
    SplitParts(pattern);
    var parts := S.Split(pattern);
    if Compatible(parts) {
      forall path ensures S.PathFits(pattern, path) <==> PathGlob.Denotes(PathGlob.Tokens(pattern), path) {
        PartsAgree(parts, path);
      }
    } else {
      Differ(parts);
      var path :| ByChars(parts, path) != BySegments(parts, path);
      assert S.PathFits(pattern, path) == BySegments(parts, path);
    }
  }
}
