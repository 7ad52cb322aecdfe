/** The running figures an agent keeps about the messages it has processed. */
module AgentStats {

  datatype Figures = Figures(messages: nat, tokens: nat, average: nat)

  /** One message: its token count and its processing time in milliseconds. */
  datatype Sample = Sample(tokens: nat, millis: nat)

  function Updated(f: Figures, s: Sample): Figures {
    var n := f.messages + 1;
    Figures(n, f.tokens + s.tokens, if n == 1 then s.millis else Rolled(f.average, s.millis, n))
  }

  lemma ProductIsNatural(a: nat, b: nat)
    ensures a * b >= 0
  {
  }

  lemma QuotientIsNatural(total: nat, n: nat)
    requires n > 0
    ensures total / n >= 0
  {
  }

  /** The average moved on to the `n`-th sample, rounded down. */
  function Rolled(average: nat, millis: nat, n: nat): nat
    requires n > 0
  {
    ProductIsNatural(average, n - 1);
    var total: nat := average * (n - 1) + millis;
    QuotientIsNatural(total, n);
    total / n
  }

  /** The figures after a run of messages, oldest first. */
  function After(samples: seq<Sample>): Figures {
    if samples == [] then Figures(0, 0, 0) else Updated(After(samples[..|samples| - 1]), samples[|samples| - 1])
  }

  function TotalTokens(samples: seq<Sample>): nat {
    if samples == [] then 0 else TotalTokens(samples[..|samples| - 1]) + samples[|samples| - 1].tokens
  }

  function TotalMillis(samples: seq<Sample>): nat {
    if samples == [] then 0 else TotalMillis(samples[..|samples| - 1]) + samples[|samples| - 1].millis
  }

  class Agent {
    var messagesProcessed: nat
    var totalTokens: nat
    var avgResponseTimeMs: nat
    ghost var seen: seq<Sample>

    ghost predicate Valid() reads this {
      Figures(messagesProcessed, totalTokens, avgResponseTimeMs) == After(seen)
    }

    constructor ()
      ensures Valid() && seen == []
    {
      messagesProcessed, totalTokens, avgResponseTimeMs, seen := 0, 0, 0, [];
    }

    method UpdateStats(tokensUsed: nat, processingTimeMs: nat)
      requires Valid()
      modifies this
      ensures Valid() && seen == old(seen) + [Sample(tokensUsed, processingTimeMs)]
    {
      messagesProcessed := messagesProcessed + 1;
      totalTokens := totalTokens + tokensUsed;
      if messagesProcessed == 1 {
        avgResponseTimeMs := processingTimeMs;
      } else {
        avgResponseTimeMs := (avgResponseTimeMs * (messagesProcessed - 1) + processingTimeMs) / messagesProcessed;
      }
      assert (seen + [Sample(tokensUsed, processingTimeMs)])[..|seen|] == seen;
      seen := seen + [Sample(tokensUsed, processingTimeMs)];
    }
  }

  lemma {:induction false} CountsAreExact(samples: seq<Sample>)
    ensures After(samples).messages == |samples|
    ensures After(samples).tokens == TotalTokens(samples)
  {
    if samples != [] {
      CountsAreExact(samples[..|samples| - 1]);
    }
  }

  // ---- arithmetic of one step ----

  lemma Ordered(a: nat, b: nat, c: nat)
    requires a <= b
    ensures a * c <= b * c
  {
  }

  lemma OneMore(a: nat, c: nat)
    ensures (a + 1) * c == c * a + c
    ensures c > 0 ==> a * c == a * (c - 1) + a
  {
  }

  lemma Triangle(n: nat)
    requires n > 0
    ensures n * (n - 1) == (n - 1) * (n - 2) + 2 * (n - 1)
  {
  }

  /** One step loses less than `n` of the total. */
  lemma StepLoss(average: nat, millis: nat, n: nat)
    requires n > 0
    ensures 0 <= (average * (n - 1) + millis) - n * Rolled(average, millis, n) <= n - 1
  {
    var x := average * (n - 1) + millis;
    assert x == n * (x / n) + x % n;
  }

  lemma RolledWithin(average: nat, millis: nat, n: nat, lo: nat, hi: nat)
    requires n > 1 && lo <= average <= hi && lo <= millis <= hi
    ensures lo <= Rolled(average, millis, n) <= hi
  {
    var q := Rolled(average, millis, n);
    StepLoss(average, millis, n);
    if q < lo {
      Ordered(lo, average, n - 1);
      Ordered(q + 1, lo, n);
      OneMore(q, n);
      OneMore(lo, n);
    } else if q > hi {
      Ordered(average, hi, n - 1);
      Ordered(hi + 1, q, n);
      OneMore(hi, n);
    }
  }

  // ---- the rolling average over a whole run ----

  /** The average never leaves the range of the samples. */
  lemma {:induction false} AverageWithinSamples(samples: seq<Sample>, lo: nat, hi: nat)
    requires samples != []
    requires forall i | 0 <= i < |samples| :: lo <= samples[i].millis <= hi
    ensures lo <= After(samples).average <= hi
  {
    CountsAreExact(samples);
    if |samples| > 1 {
      var earlier := samples[..|samples| - 1];
      AverageWithinSamples(earlier, lo, hi);
      CountsAreExact(earlier);
      RolledWithin(After(earlier).average, samples[|samples| - 1].millis, |samples|, lo, hi);
    }
  }

  /** What rounding has lost so far: the total against `n` times the reported average. */
  ghost function Lost(samples: seq<Sample>): int {
    TotalMillis(samples) - |samples| * After(samples).average
  }

  lemma LostGrows(samples: seq<Sample>)
    requires samples != []
    ensures 0 <= Lost(samples) - Lost(samples[..|samples| - 1]) <= |samples| - 1
  {
    var earlier := samples[..|samples| - 1];
    CountsAreExact(earlier);
    if |samples| > 1 {
      StepLoss(After(earlier).average, samples[|samples| - 1].millis, |samples|);
    }
  }

  /** Rounding down at every message never puts the average above the true mean, and after `n`
      messages it has lost at most `n * (n - 1) / 2` of the total: it trails the mean by at most
      `(n - 1) / 2`. */
  lemma {:induction false} AverageTrailsMean(samples: seq<Sample>)
    ensures 0 <= 2 * Lost(samples) <= |samples| * (|samples| - 1)
  {
    if samples != [] {
      AverageTrailsMean(samples[..|samples| - 1]);
      LostGrows(samples);
      Triangle(|samples|);
    }
  }

  /** Processing times 0, 1, 2, ... */
  function Rising(n: nat): (samples: seq<Sample>)
    ensures |samples| == n
  {
    if n == 0 then [] else Rising(n - 1) + [Sample(0, n - 1)]
  }

  lemma SmallRolls(n: nat)
    requires n > 0
    ensures Rolled(0, n - 1, n) == 0
  {
  }

  lemma NothingTimes(n: nat, average: nat)
    requires average == 0
    ensures n * average == 0
  {
  }

  lemma RisingGrows(n: nat)
    requires n > 0 && After(Rising(n - 1)).average == 0
    ensures After(Rising(n)).average == 0
    ensures Lost(Rising(n)) == Lost(Rising(n - 1)) + n - 1
  {
    var earlier := Rising(n - 1);
    assert Rising(n)[..n - 1] == earlier;
    CountsAreExact(earlier);
    SmallRolls(n);
    NothingTimes(n - 1, After(earlier).average);
    NothingTimes(n, After(Rising(n)).average);
  }

  /** The bound is reached: on rising times the average stays at 0 and every step loses the most
      it can. */
  lemma {:induction false} BoundIsReached(n: nat)
    ensures After(Rising(n)).average == 0
    ensures 2 * Lost(Rising(n)) == n * (n - 1)
  {
    if n > 0 {
      BoundIsReached(n - 1);
      RisingGrows(n);
      Triangle(n);
    }
  }
}
