/** The segment glob of the credential manager (`manager.rs`).

    Pattern and path are split at `/`. A part `**` covers any number of segments, every other part
    exactly one; inside a part that contains `*`, `*` covers any characters and `?` any one. */
module SegmentGlob {
  import opened Wrappers

  // ---- assignments ----

  function Flatten<T>(pieces: seq<seq<T>>): seq<T> {
    if pieces == [] then [] else pieces[0] + Flatten(pieces[1..])
  }

  ghost predicate CoversPieces<P(!new), T(!new)>(covers: (P, seq<T>) -> bool, parts: seq<P>, pieces: seq<seq<T>>) {
    |pieces| == |parts| && forall i | 0 <= i < |parts| :: covers(parts[i], pieces[i])
  }

  /** The items can be cut into consecutive pieces, one for each part, that the parts cover. */
  ghost predicate Assigned<P(!new), T(!new)>(covers: (P, seq<T>) -> bool, parts: seq<P>, items: seq<T>) {
    exists pieces: seq<seq<T>> :: CoversPieces(covers, parts, pieces) && Flatten(pieces) == items
  }

  ghost predicate HeadCovers<P(!new), T(!new)>(covers: (P, seq<T>) -> bool, parts: seq<P>, items: seq<T>, k: nat)
    requires parts != []
  {
    k <= |items| && covers(parts[0], items[..k]) && Assigned(covers, parts[1..], items[k..])
  }

  lemma AssignedNone<P(!new), T(!new)>(covers: (P, seq<T>) -> bool, items: seq<T>)
    ensures Assigned(covers, [], items) <==> items == []
  {
    if items == [] {
      assert CoversPieces(covers, [], []) && Flatten<T>([]) == items;
    }
  }

  /** An assignment is a choice for the first part and an assignment for the others. */
  lemma AssignedByHead<P(!new), T(!new)>(covers: (P, seq<T>) -> bool, parts: seq<P>, items: seq<T>)
    requires parts != []
    ensures Assigned(covers, parts, items) <==> exists k: nat :: HeadCovers(covers, parts, items, k)
  {
    if Assigned(covers, parts, items) {
      var pieces :| CoversPieces(covers, parts, pieces) && Flatten(pieces) == items;
      var k := |pieces[0]|;
      assert items[..k] == pieces[0] && items[k..] == Flatten(pieces[1..]);
      assert CoversPieces(covers, parts[1..], pieces[1..]);
      assert HeadCovers(covers, parts, items, k);
    }
    if k: nat :| HeadCovers(covers, parts, items, k) {
      var rest :| CoversPieces(covers, parts[1..], rest) && Flatten(rest) == items[k..];
      var pieces := [items[..k]] + rest;
      assert pieces[1..] == rest && Flatten(pieces) == items[..k] + items[k..] == items;
      forall i | 0 <= i < |parts| ensures covers(parts[i], pieces[i]) {
        if i > 0 { assert covers(parts[1..][i - 1], rest[i - 1]); }
      }
      assert CoversPieces(covers, parts, pieces);
    }
  }

  // ---- inside one segment ----

  predicate CharCovers(p: char, text: string) {
    p == '*' || (|text| == 1 && (p == '?' || p == text[0]))
  }

  /** The same assignment, read from the left one pattern character at a time. */
  ghost predicate Fits(pattern: string, text: string) {
    if pattern == "" then text == ""
    else if pattern[0] == '*' then exists k | 0 <= k <= |text| :: Fits(pattern[1..], text[k..])
    else text != "" && CharCovers(pattern[0], text[..1]) && Fits(pattern[1..], text[1..])
  }

  lemma {:induction false} FitsIsAssigned(pattern: string, text: string)
    ensures Fits(pattern, text) <==> Assigned(CharCovers, pattern, text)
    decreases |pattern|
  {
    if pattern == "" {
      AssignedNone(CharCovers, text);
    } else {
      AssignedByHead(CharCovers, pattern, text);
      forall k: nat | k <= |text|
        ensures HeadCovers(CharCovers, pattern, text, k)
           <==> CharCovers(pattern[0], text[..k]) && Fits(pattern[1..], text[k..])
      {
        FitsIsAssigned(pattern[1..], text[k..]);
      }
      if Fits(pattern, text) {
        if pattern[0] == '*' {
          var k :| 0 <= k <= |text| && Fits(pattern[1..], text[k..]);
          assert HeadCovers(CharCovers, pattern, text, k);
        } else {
          assert HeadCovers(CharCovers, pattern, text, 1);
        }
      }
    }
  }

  predicate NoStar(pattern: string) {
    forall i | 0 <= i < |pattern| :: pattern[i] != '*'
  }

  ghost predicate FitsPrefix(fixed: string, text: string) {
    |fixed| <= |text| && forall i | 0 <= i < |fixed| :: CharCovers(fixed[i], [text[i]])
  }

  lemma {:induction false} FitsAfterPrefix(fixed: string, rest: string, text: string)
    requires NoStar(fixed)
    ensures Fits(fixed + rest, text) <==> FitsPrefix(fixed, text) && Fits(rest, text[|fixed|..])
  {
    if fixed == "" {
      assert fixed + rest == rest && text[0..] == text;
    } else if text != "" {
      assert (fixed + rest)[1..] == fixed[1..] + rest;
      assert text[..1] == [text[0]];
      FitsAfterPrefix(fixed[1..], rest, text[1..]);
      assert FitsPrefix(fixed, text) ==> text[1..][|fixed| - 1..] == text[|fixed|..];
      if CharCovers(fixed[0], text[..1]) && FitsPrefix(fixed[1..], text[1..]) {
        forall i | 0 <= i < |fixed| ensures CharCovers(fixed[i], [text[i]]) {
          if i > 0 { assert CharCovers(fixed[1..][i - 1], [text[1..][i - 1]]); }
        }
      }
    }
  }

  /** A star covers nothing, or one more character. */
  lemma StarCoversOneMore(rest: string, text: string)
    requires text != ""
    ensures Fits("*" + rest, text) <==> Fits(rest, text) || Fits("*" + rest, text[1..])
  {
    assert ("*" + rest)[1..] == rest;
    if Fits(rest, text) {
      assert text[0..] == text;
    }
    if Fits("*" + rest, text[1..]) {
      var k :| 0 <= k <= |text| - 1 && Fits(rest, text[1..][k..]);
      assert text[1..][k..] == text[k + 1..];
    }
    if Fits("*" + rest, text) {
      var k :| 0 <= k <= |text| && Fits(rest, text[k..]);
      if k == 0 {
        assert text[0..] == text;
      } else {
        assert text[k..] == text[1..][k - 1..];
      }
    }
  }

  lemma StarOnNothing(pattern: string)
    requires pattern != "" && pattern[0] == '*'
    ensures Fits(pattern, "") <==> Fits(pattern[1..], "")
  {
    var text := "";
    assert text[0..] == text;
    assert Fits(pattern, text) <==> exists k | 0 <= k <= |text| :: Fits(pattern[1..], text[k..]);
  }

  /** Once the characters since the last star have been placed, a further star makes it needless
      to let the earlier one cover more. */
  lemma EarlierStarForgotten(fixed: string, rest: string, text: string)
    requires NoStar(fixed) && FitsPrefix(fixed, text)
    ensures Fits("*" + (fixed + ("*" + rest)), text) <==> Fits("*" + rest, text[|fixed|..])
  {
    var tail, n := fixed + ("*" + rest), |fixed|;
    assert ("*" + tail)[1..] == tail && ("*" + rest)[1..] == rest;
    FitsAfterPrefix(fixed, "*" + rest, text);
    if Fits("*" + rest, text[n..]) {
      assert text[0..] == text && Fits(tail, text[0..]);
    }
    if Fits("*" + tail, text) {
      var k :| 0 <= k <= |text| && Fits(tail, text[k..]);
      FitsAfterPrefix(fixed, "*" + rest, text[k..]);
      var j :| 0 <= j <= |text| - k - n && Fits(rest, text[k..][n..][j..]);
      assert text[k..][n..][j..] == text[n..][k + j..];
    }
  }

  /** The tokens since the star at `star` have been placed from `from` on, up to `pi` and `ti`. */
  ghost predicate Remembers(pattern: string, text: string, star: nat, from: nat, pi: nat, ti: nat) {
    && star < pi <= |pattern| && from <= ti <= |text|
    && pattern[star] == '*' && NoStar(pattern[star + 1..pi])
    && ti - from == pi - star - 1
    && FitsPrefix(pattern[star + 1..pi], text[from..])
  }

  lemma Advance(pattern: string, text: string, star: nat, from: nat, pi: nat, ti: nat)
    requires Remembers(pattern, text, star, from, pi, ti)
    requires pi < |pattern| && ti < |text| && pattern[pi] != '*' && CharCovers(pattern[pi], [text[ti]])
    ensures Remembers(pattern, text, star, from, pi + 1, ti + 1)
  {
    assert pattern[star + 1..pi + 1] == pattern[star + 1..pi] + [pattern[pi]];
    assert text[from..][pi - star - 1] == text[ti];
  }

  lemma Remembered(pattern: string, text: string, star: nat, from: nat, pi: nat, ti: nat)
    requires Remembers(pattern, text, star, from, pi, ti)
    ensures pattern[star..] == "*" + (pattern[star + 1..pi] + pattern[pi..])
    ensures Fits(pattern[star + 1..], text[from..]) <==> Fits(pattern[pi..], text[ti..])
  {
    var fixed := pattern[star + 1..pi];
    assert fixed + pattern[pi..] == pattern[star + 1..];
    assert pattern[star..] == "*" + pattern[star + 1..];
    FitsAfterPrefix(fixed, pattern[pi..], text[from..]);
    assert text[from..][|fixed|..] == text[ti..];
  }

  lemma Retry(pattern: string, text: string, star: nat, from: nat, pi: nat, ti: nat)
    requires Remembers(pattern, text, star, from, pi, ti)
    requires ti < |text| && !Fits(pattern[pi..], text[ti..])
    ensures Fits(pattern[star..], text[from..]) <==> Fits(pattern[star..], text[from + 1..])
    ensures Remembers(pattern, text, star, from + 1, star + 1, from + 1)
  {
    Remembered(pattern, text, star, from, pi, ti);
    assert pattern[star..] == "*" + pattern[star + 1..];
    StarCoversOneMore(pattern[star + 1..], text[from..]);
    assert text[from..][1..] == text[from + 1..];
  }

  lemma NewStar(pattern: string, text: string, star: nat, from: nat, pi: nat, ti: nat)
    requires Remembers(pattern, text, star, from, pi, ti)
    requires pi < |pattern| && pattern[pi] == '*'
    ensures Fits(pattern[star..], text[from..]) <==> Fits(pattern[pi..], text[ti..])
  {
    var fixed := pattern[star + 1..pi];
    Remembered(pattern, text, star, from, pi, ti);
    assert pattern[pi..] == "*" + pattern[pi + 1..];
    EarlierStarForgotten(fixed, pattern[pi + 1..], text[from..]);
    assert text[from..][|fixed|..] == text[ti..];
  }

  lemma Exhausted(pattern: string, text: string, star: nat, from: nat, pi: nat)
    requires Remembers(pattern, text, star, from, pi, |text|)
    ensures Fits(pattern[star..], text[from..]) <==> Fits(pattern[pi..], "")
  {
    Remembered(pattern, text, star, from, pi, |text|);
    var fixed, rest, left := pattern[star + 1..pi], pattern[pi..], text[from..];
    assert ("*" + (fixed + rest))[1..] == fixed + rest && fixed + rest == pattern[star + 1..];
    assert text[|text|..] == "" && left[0..] == left;
    forall k | 0 <= k <= |left| && Fits(fixed + rest, left[k..]) ensures Fits(rest, "") {
      FitsAfterPrefix(fixed, rest, left[k..]);
      assert left[k..][|fixed|..] == "";
    }
  }

  lemma PlainStep(pattern: string, text: string, pi: nat, ti: nat)
    requires pi <= |pattern| && ti < |text| && (pi < |pattern| ==> pattern[pi] != '*')
    ensures Fits(pattern[pi..], text[ti..])
       <==> pi < |pattern| && CharCovers(pattern[pi], [text[ti]]) && Fits(pattern[pi + 1..], text[ti + 1..])
  {
    assert text[ti..][..1] == [text[ti]];
  }

  /** What the loop knows: `goal` is what is left to match, from the star on if there was one. */
  ghost predicate Searching(goal: bool, pattern: string, text: string,
                            starPi: Option<nat>, starTi: Option<nat>, pi: nat, ti: nat) {
    && pi <= |pattern| && ti <= |text|
    && (starPi.Some? <==> starTi.Some?)
    && (starPi.None? ==> goal == Fits(pattern[pi..], text[ti..]))
    && (starPi.Some? ==>
          && Remembers(pattern, text, starPi.value, starTi.value, pi, ti)
          && goal == Fits(pattern[starPi.value..], text[starTi.value..]))
  }

  lemma OnStar(goal: bool, pattern: string, text: string,
               starPi: Option<nat>, starTi: Option<nat>, pi: nat, ti: nat)
    requires Searching(goal, pattern, text, starPi, starTi, pi, ti)
    requires pi < |pattern| && pattern[pi] == '*'
    ensures Searching(goal, pattern, text, Some(pi), Some(ti), pi + 1, ti)
  {
    if starPi.Some? {
      NewStar(pattern, text, starPi.value, starTi.value, pi, ti);
    }
  }

  lemma OnCovered(goal: bool, pattern: string, text: string,
                  starPi: Option<nat>, starTi: Option<nat>, pi: nat, ti: nat)
    requires Searching(goal, pattern, text, starPi, starTi, pi, ti)
    requires pi < |pattern| && ti < |text| && pattern[pi] != '*' && CharCovers(pattern[pi], [text[ti]])
    ensures Searching(goal, pattern, text, starPi, starTi, pi + 1, ti + 1)
  {
    if starPi.Some? {
      Advance(pattern, text, starPi.value, starTi.value, pi, ti);
    } else {
      PlainStep(pattern, text, pi, ti);
    }
  }

  lemma OnMismatch(goal: bool, pattern: string, text: string,
                   starPi: Option<nat>, starTi: Option<nat>, pi: nat, ti: nat)
    requires Searching(goal, pattern, text, starPi, starTi, pi, ti) && ti < |text|
    requires pi < |pattern| ==> pattern[pi] != '*' && !CharCovers(pattern[pi], [text[ti]])
    ensures starPi.None? ==> !goal
    ensures starPi.Some? ==>
        Searching(goal, pattern, text, starPi, Some(starTi.value + 1), starPi.value + 1, starTi.value + 1)
  {
    PlainStep(pattern, text, pi, ti);
    if starPi.Some? {
      Retry(pattern, text, starPi.value, starTi.value, pi, ti);
    }
  }

  lemma OnTextEnd(goal: bool, pattern: string, text: string, starPi: Option<nat>, starTi: Option<nat>, pi: nat)
    requires Searching(goal, pattern, text, starPi, starTi, pi, |text|)
    ensures goal == Fits(pattern[pi..], "")
  {
    assert text[|text|..] == "";
    if starPi.Some? {
      Exhausted(pattern, text, starPi.value, starTi.value, pi);
    }
  }

  /** One turn of the loop: a new star, a covered character, or the star taking one more. */
  predicate Turns(pattern: string, text: string, starPi: Option<nat>, starTi: Option<nat>, pi: nat, ti: nat,
                  starPi': Option<nat>, starTi': Option<nat>, pi': nat, ti': nat)
    requires pi <= |pattern| && ti < |text| && (starPi.Some? <==> starTi.Some?)
  {
    if pi < |pattern| && pattern[pi] == '*' then
      starPi' == Some(pi) && starTi' == Some(ti) && pi' == pi + 1 && ti' == ti
    else if pi < |pattern| && CharCovers(pattern[pi], [text[ti]]) then
      starPi' == starPi && starTi' == starTi && pi' == pi + 1 && ti' == ti + 1
    else
      starPi.Some? && starPi' == starPi && starTi' == Some(starTi.value + 1)
      && pi' == starPi.value + 1 && ti' == starTi.value + 1
  }

  ghost predicate InRange(pattern: string, text: string, starPi: Option<nat>, starTi: Option<nat>, pi: nat, ti: nat) {
    && pi <= |pattern| && ti <= |text| && (starPi.Some? <==> starTi.Some?)
    && (starPi.Some? ==> starPi.value < pi && starTi.value <= ti)
  }

  lemma TurnsOn(goal: bool, pattern: string, text: string,
                starPi: Option<nat>, starTi: Option<nat>, pi: nat, ti: nat,
                starPi': Option<nat>, starTi': Option<nat>, pi': nat, ti': nat)
    requires Searching(goal, pattern, text, starPi, starTi, pi, ti) && ti < |text|
    requires Turns(pattern, text, starPi, starTi, pi, ti, starPi', starTi', pi', ti')
    ensures Searching(goal, pattern, text, starPi', starTi', pi', ti')
  {
    if pi < |pattern| && pattern[pi] == '*' {
      OnStar(goal, pattern, text, starPi, starTi, pi, ti);
    } else if pi < |pattern| && CharCovers(pattern[pi], [text[ti]]) {
      OnCovered(goal, pattern, text, starPi, starTi, pi, ti);
    } else {
      OnMismatch(goal, pattern, text, starPi, starTi, pi, ti);
    }
  }

  method GlobMatchSegment(pattern: string, text: string) returns (matched: bool)
    ensures matched <==> Assigned(CharCovers, pattern, text)
  {
    FitsIsAssigned(pattern, text);
    ghost var goal := Fits(pattern, text);
    var pi, ti := 0, 0;
    var starPi: Option<nat>, starTi: Option<nat> := None, None;
    assert pattern[0..] == pattern && text[0..] == text;
    while ti < |text|
      invariant 0 <= pi && 0 <= ti && InRange(pattern, text, starPi, starTi, pi, ti)
      invariant Searching(goal, pattern, text, starPi, starTi, pi, ti)
      decreases if starPi.None? then |pattern| + 1 else |pattern| - starPi.value,
                if starTi.None? then 0 else |text| - starTi.value,
                |pattern| - pi
    {
      ghost var starPi0, starTi0, pi0, ti0 := starPi, starTi, pi, ti;
      if pi < |pattern| && pattern[pi] == '*' {
        starPi, starTi := Some(pi), Some(ti);
        pi := pi + 1;
      } else if pi < |pattern| && (pattern[pi] == '?' || pattern[pi] == text[ti]) {
        pi, ti := pi + 1, ti + 1;
      } else {
        if starPi.None? {
          OnMismatch(goal, pattern, text, starPi, starTi, pi, ti);
          return false;
        }
        pi := starPi.value + 1;
        starTi := Some(starTi.value + 1);
        ti := starTi.value;
      }
      TurnsOn(goal, pattern, text, starPi0, starTi0, pi0, ti0, starPi, starTi, pi, ti);
    }
    OnTextEnd(goal, pattern, text, starPi, starTi, pi);
    matched := OnlyStarsLeft(pattern, pi);
  }

  method OnlyStarsLeft(pattern: string, from: nat) returns (only: bool)
    requires from <= |pattern|
    ensures only <==> Fits(pattern[from..], "")
  {
    var pi := from;
    while pi < |pattern| && pattern[pi] == '*'
      invariant from <= pi <= |pattern|
      invariant Fits(pattern[from..], "") <==> Fits(pattern[pi..], "")
    {
      StarOnNothing(pattern[pi..]);
      pi := pi + 1;
    }
    only := pi == |pattern|;
  }

  // ---- whole paths ----

  /** A part without `*` is compared literally, so a `?` in it is an ordinary character. */
  ghost predicate PartFits(part: string, segment: string) {
    if '*' in part then Assigned(CharCovers, part, segment) else part == segment
  }

  ghost predicate PartCovers(part: string, segments: seq<string>) {
    part == "**" || (|segments| == 1 && PartFits(part, segments[0]))
  }

  /** The first part takes its segments and the rest of the pattern the rest of the path. */
  lemma FirstPart(pattern: seq<string>, path: seq<string>)
    requires pattern != []
    ensures Assigned(PartCovers, pattern, path)
       <==> if pattern[0] == "**" then exists k | 0 <= k <= |path| :: Assigned(PartCovers, pattern[1..], path[k..])
            else path != [] && PartFits(pattern[0], path[0]) && Assigned(PartCovers, pattern[1..], path[1..])
  {
    AssignedByHead(PartCovers, pattern, path);
    if pattern[0] == "**" {
      forall k: nat | k <= |path|
        ensures HeadCovers(PartCovers, pattern, path, k) <==> Assigned(PartCovers, pattern[1..], path[k..])
      {
      }
      if k :| 0 <= k <= |path| && Assigned(PartCovers, pattern[1..], path[k..]) {
        assert HeadCovers(PartCovers, pattern, path, k);
      }
    } else {
      forall k: nat
        ensures HeadCovers(PartCovers, pattern, path, k)
           <==> k == 1 && path != [] && PartFits(pattern[0], path[0]) && Assigned(PartCovers, pattern[1..], path[1..])
      {
        if k <= |path| && k == 1 { assert path[..k] == [path[0]]; }
      }
      assert path != [] && PartFits(pattern[0], path[0]) && Assigned(PartCovers, pattern[1..], path[1..])
             ==> HeadCovers(PartCovers, pattern, path, 1);
    }
  }

  lemma StarFitsAll(segment: string)
    ensures PartFits("*", segment)
  {
    FitsIsAssigned("*", segment);
    assert segment[|segment|..] == "" && "*"[1..] == "";
    assert Fits("*"[1..], segment[|segment|..]);
  }

  method MatchParts(pattern: seq<string>, path: seq<string>) returns (matched: bool)
    ensures matched <==> Assigned(PartCovers, pattern, path)
    decreases |pattern|
  {
    if pattern == [] {
      AssignedNone(PartCovers, path);
      return path == [];
    }
    FirstPart(pattern, path);
    var part := pattern[0];
    if part == "**" {
      if |pattern| == 1 {
        AssignedNone(PartCovers, path[|path|..]);
        return true;
      }
      for i := 0 to |path| + 1
        invariant forall k | 0 <= k < i :: !Assigned(PartCovers, pattern[1..], path[k..])
      {
        var here := MatchParts(pattern[1..], path[i..]);
        if here {
          return true;
        }
      }
      return false;
    }
    if path == [] {
      return false;
    }
    if part == "*" {
      StarFitsAll(path[0]);
      matched := MatchParts(pattern[1..], path[1..]);
      return;
    }
    if '*' in part {
      var fits := GlobMatchSegment(part, path[0]);
      if fits {
        matched := MatchParts(pattern[1..], path[1..]);
        return;
      }
      return false;
    }
    if part == path[0] {
      matched := MatchParts(pattern[1..], path[1..]);
      return;
    }
    return false;
  }

  // ---- splitting at slashes ----

  function Split(s: string): (parts: seq<string>)
    ensures |parts| > 0
  {
    if s == "" then [""]
    else
      var rest := Split(s[1..]);
      if s[0] == '/' then [""] + rest else [[s[0]] + rest[0]] + rest[1..]
  }

  function JoinSlashes(parts: seq<string>): string {
    if parts == [] then ""
    else if |parts| == 1 then parts[0]
    else parts[0] + "/" + JoinSlashes(parts[1..])
  }

  /** Splitting cuts at every slash and nowhere else. */
  lemma {:induction false} SplitRoundTrip(s: string)
    ensures JoinSlashes(Split(s)) == s
    ensures forall i | 0 <= i < |Split(s)| :: '/' !in Split(s)[i]
  {
    if s != "" {
      SplitRoundTrip(s[1..]);
      var parts, rest := Split(s), Split(s[1..]);
      if s[0] == '/' {
        assert parts[1..] == rest;
      } else {
        assert parts[1..] == rest[1..];
      }
      assert s == [s[0]] + s[1..];
    }
  }

  lemma {:induction false} SplitOne(part: string)
    requires '/' !in part
    ensures Split(part) == [part]
  {
    if part != "" {
      assert part[0] in part && part == [part[0]] + part[1..];
      SplitOne(part[1..]);
      assert Split(part[1..])[1..] == [];
    }
  }

  lemma {:induction false} SplitFirst(part: string, rest: string)
    requires '/' !in part
    ensures Split(part + "/" + rest) == [part] + Split(rest)
  {
    var s := part + "/" + rest;
    if part == "" {
      assert s[1..] == rest;
    } else {
      assert part[0] in part && part == [part[0]] + part[1..];
      SplitFirst(part[1..], rest);
      assert s[1..] == part[1..] + "/" + rest;
      assert Split(s[1..])[1..] == Split(rest);
    }
  }

  ghost predicate PathFits(pattern: string, path: string) {
    Assigned(PartCovers, Split(pattern), Split(path))
  }

  method PatternMatches(pattern: string, path: string) returns (matched: bool)
    ensures matched <==> PathFits(pattern, path)
  {
    matched := MatchParts(Split(pattern), Split(path));
  }
}
