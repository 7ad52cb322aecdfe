/** Texts put together from pieces. */
module Texts {

  predicate StandsAt(text: string, word: string, k: nat) {
    k + |word| <= |text| && text[k..k + |word|] == word
  }

  /** The pieces stand in the text one after the other from its start to its end, piece `i` at offset
      `at[i]`, with `gaps[i]` between piece `i` and the next, and nothing else. */
  ghost predicate Woven(text: string, pieces: seq<string>, gaps: seq<string>, at: seq<nat>) {
    && |at| == |pieces| == |gaps| + 1 && at[0] == 0
    && (forall i | 0 <= i < |pieces| :: StandsAt(text, pieces[i], at[i]))
    && (forall i | 0 <= i < |gaps| :: StandsAt(text, gaps[i], at[i] + |pieces[i]|))
    && (forall i | 0 <= i < |gaps| :: at[i + 1] == at[i] + |pieces[i]| + |gaps[i]|)
    && at[|gaps|] + |pieces[|gaps|]| == |text|
  }

  /** The same from left to right. */
  function Spelled(pieces: seq<string>, gaps: seq<string>): string
    requires |pieces| == |gaps| + 1
  {
    if gaps == [] then pieces[0] else pieces[0] + gaps[0] + Spelled(pieces[1..], gaps[1..])
  }

  function Repeat(gap: string, n: nat): (gaps: seq<string>)
    ensures |gaps| == n && forall i | 0 <= i < n :: gaps[i] == gap
  {
    seq(n, i => gap)
  }

  lemma SpelledMore(first: string, gap: string, pieces: seq<string>, gaps: seq<string>)
    requires |pieces| == |gaps| + 1
    ensures Spelled([first] + pieces, [gap] + gaps) == first + gap + Spelled(pieces, gaps)
  {
    assert ([first] + pieces)[1..] == pieces && ([gap] + gaps)[1..] == gaps;
  }

  function StartOf(pieces: seq<string>, gaps: seq<string>, i: nat): nat
    requires |pieces| == |gaps| + 1 && i < |pieces|
  {
    if i == 0 then 0 else |pieces[0]| + |gaps[0]| + StartOf(pieces[1..], gaps[1..], i - 1)
  }

  lemma Shifted(front: string, text: string, word: string, k: nat)
    requires StandsAt(text, word, k)
    ensures StandsAt(front + text, word, |front| + k)
  {
    assert (front + text)[|front| + k..|front| + k + |word|] == text[k..k + |word|];
  }

  lemma {:induction false} PieceStands(pieces: seq<string>, gaps: seq<string>, i: nat)
    requires |pieces| == |gaps| + 1 && i < |pieces|
    ensures StandsAt(Spelled(pieces, gaps), pieces[i], StartOf(pieces, gaps, i))
  {
    if i == 0 {
      assert Spelled(pieces, gaps)[0..|pieces[0]|] == pieces[0];
    } else {
      var rest := Spelled(pieces[1..], gaps[1..]);
      PieceStands(pieces[1..], gaps[1..], i - 1);
      Shifted(pieces[0] + gaps[0], rest, pieces[i], StartOf(pieces[1..], gaps[1..], i - 1));
    }
  }

  lemma {:induction false} GapStands(pieces: seq<string>, gaps: seq<string>, i: nat)
    requires |pieces| == |gaps| + 1 && i < |gaps|
    ensures StandsAt(Spelled(pieces, gaps), gaps[i], StartOf(pieces, gaps, i) + |pieces[i]|)
    ensures StartOf(pieces, gaps, i + 1) == StartOf(pieces, gaps, i) + |pieces[i]| + |gaps[i]|
  {
    var text, rest := Spelled(pieces, gaps), Spelled(pieces[1..], gaps[1..]);
    if i == 0 {
      assert text[|pieces[0]|..|pieces[0]| + |gaps[0]|] == gaps[0];
      assert StartOf(pieces[1..], gaps[1..], 0) == 0;
    } else {
      GapStands(pieces[1..], gaps[1..], i - 1);
      Shifted(pieces[0] + gaps[0], rest, gaps[i], StartOf(pieces[1..], gaps[1..], i - 1) + |pieces[i]|);
    }
  }

  lemma {:induction false} LastEnds(pieces: seq<string>, gaps: seq<string>)
    requires |pieces| == |gaps| + 1
    ensures StartOf(pieces, gaps, |gaps|) + |pieces[|gaps|]| == |Spelled(pieces, gaps)|
  {
    if gaps != [] { LastEnds(pieces[1..], gaps[1..]); }
  }

  lemma SpelledIsWoven(text: string, pieces: seq<string>, gaps: seq<string>) returns (at: seq<nat>)
    requires |pieces| == |gaps| + 1 && text == Spelled(pieces, gaps)
    ensures Woven(text, pieces, gaps, at)
  {
    at := seq(|pieces|, i requires 0 <= i < |pieces| => StartOf(pieces, gaps, i));
    forall i | 0 <= i < |pieces| ensures StandsAt(text, pieces[i], at[i]) {
      PieceStands(pieces, gaps, i);
    }
    forall i | 0 <= i < |gaps|
      ensures StandsAt(text, gaps[i], at[i] + |pieces[i]|) && at[i + 1] == at[i] + |pieces[i]| + |gaps[i]|
    {
      GapStands(pieces, gaps, i);
    }
    LastEnds(pieces, gaps);
  }
}
