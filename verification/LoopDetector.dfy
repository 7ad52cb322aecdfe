/** Detection of repetitive tool calls over a bounded window of recent calls. */
module LoopDetector {
  import opened Wrappers

  const MAX_HISTORY := 60
  const WARN_THRESHOLD := 5
  const CRITICAL_THRESHOLD := 10
  const CIRCUIT_BREAKER := 30

  datatype Signature = Signature(callHash: nat, toolName: string, resultHash: Option<nat>)

  datatype Pattern = Breaker | SameCall | PingPong

  datatype Verdict = Fine | Warning(pattern: Pattern, repetitions: nat) | Critical(pattern: Pattern, repetitions: nat)

  function Hashes(history: seq<Signature>): (hs: seq<nat>)
    ensures |hs| == |history| && forall i | 0 <= i < |hs| :: hs[i] == history[i].callHash
  {
    seq(|history|, i requires 0 <= i < |history| => history[i].callHash)
  }

  // ---- the two suffix lengths ----

  /** The last `n` calls are all the same. */
  predicate SameTail(hs: seq<nat>, n: nat) {
    n <= |hs| && forall i | |hs| - n <= i < |hs| :: hs[i] == hs[|hs| - 1]
  }

  /** The last `n` calls alternate: each equals the one before the previous. */
  ghost predicate AlternatingTail(hs: seq<nat>, n: nat) {
    n <= |hs| && forall i, j | |hs| - n <= i < j < |hs| && j == i + 2 :: hs[i] == hs[j]
  }

  function SameRun(hs: seq<nat>): (n: nat)
    ensures n <= |hs|
  {
    var last := |hs| - 1;
    if |hs| <= 1 then |hs| else if hs[last] == hs[last - 1] then 1 + SameRun(hs[..last]) else 1
  }

  function AlternatingRun(hs: seq<nat>): (n: nat)
    ensures n <= |hs|
  {
    var last := |hs| - 1;
    if |hs| <= 2 then |hs| else if hs[last] == hs[last - 2] then 1 + AlternatingRun(hs[..last]) else 2
  }

  lemma {:induction false} SameRunIsLongest(hs: seq<nat>, n: nat)
    ensures SameTail(hs, n) <==> n <= SameRun(hs)
  {
    var last := |hs| - 1;
    if |hs| > 1 && 1 < n <= |hs| {
      SameRunIsLongest(hs[..last], n - 1);
      if hs[last] == hs[last - 1] {
        assert SameTail(hs, n) <==> SameTail(hs[..last], n - 1);
      }
    }
  }

  lemma {:induction false} AlternatingRunIsLongest(hs: seq<nat>, n: nat)
    ensures AlternatingTail(hs, n) <==> n <= AlternatingRun(hs)
  {
    var last := |hs| - 1;
    if |hs| > 2 && 2 < n <= |hs| {
      AlternatingRunIsLongest(hs[..last], n - 1);
      if hs[last] == hs[last - 2] {
        assert AlternatingTail(hs, n) <==> AlternatingTail(hs[..last], n - 1);
      }
    }
  }

  // ---- the verdict ----

  function Judge(hs: seq<nat>): Verdict {
    if hs == [] then Fine
    else if |hs| >= CIRCUIT_BREAKER then Critical(Breaker, |hs|)
    else if SameRun(hs) >= CRITICAL_THRESHOLD then Critical(SameCall, SameRun(hs))
    else if SameRun(hs) >= WARN_THRESHOLD then Warning(SameCall, SameRun(hs))
    else if |hs| >= 6 && hs[|hs| - 2] != hs[|hs| - 1] then
      var cycles := AlternatingRun(hs) / 2;
      if cycles >= CRITICAL_THRESHOLD / 2 then Critical(PingPong, cycles * 2)
      else if cycles >= WARN_THRESHOLD / 2 then Warning(PingPong, cycles * 2)
      else Fine
    else Fine
  }

  /** When tool use is stopped: the window is full to the breaker, the last ten calls are one and
      the same, or the last ten alternate between two. */
  lemma StopsExactlyWhen(hs: seq<nat>)
    ensures Judge(hs).Critical? <==>
      |hs| >= 30 || SameTail(hs, 10) || (AlternatingTail(hs, 10) && hs[|hs| - 2] != hs[|hs| - 1])
  {
    SameRunIsLongest(hs, 10);
    AlternatingRunIsLongest(hs, 10);
    SameRunIsLongest(hs, 5);
    if |hs| >= 2 && hs[|hs| - 2] != hs[|hs| - 1] {
      assert SameRun(hs) == 1;
    }
  }

  /** When the model is at least warned. */
  lemma WarnsExactlyWhen(hs: seq<nat>)
    ensures Judge(hs) != Fine <==>
      |hs| >= 30 || SameTail(hs, 5) || (|hs| >= 6 && AlternatingTail(hs, 4) && hs[|hs| - 2] != hs[|hs| - 1])
  {
    SameRunIsLongest(hs, 5);
    AlternatingRunIsLongest(hs, 4);
  }

  function Recorded(history: seq<Signature>, s: Signature): seq<Signature> {
    var longer := history + [s];
    if |longer| > MAX_HISTORY then longer[1..] else longer
  }

  predicate Unresolved(s: Signature, toolName: string) {
    s.toolName == toolName && s.resultHash == None
  }

  /** The history once a result has been attached, looking for its call from the latest back. */
  function Resolve(history: seq<Signature>, toolName: string, resultHash: nat): (after: seq<Signature>)
    ensures |after| == |history|
  {
    if history == [] then []
    else
      var k := |history| - 1;
      if Unresolved(history[k], toolName) then history[k := history[k].(resultHash := Some(resultHash))]
      else Resolve(history[..k], toolName, resultHash) + [history[k]]
  }

  /** Only the latest unresolved entry of the tool changes, and of it only the result. */
  lemma {:induction false} ResolvesLatest(history: seq<Signature>, toolName: string, resultHash: nat, k: nat)
    requires k < |history| && Unresolved(history[k], toolName)
    requires forall j | k < j < |history| :: !Unresolved(history[j], toolName)
    ensures Resolve(history, toolName, resultHash) == history[k := history[k].(resultHash := Some(resultHash))]
  {
    var last := |history| - 1;
    if k < last {
      ResolvesLatest(history[..last], toolName, resultHash, k);
      assert history == history[..last] + [history[last]];
    }
  }

  lemma {:induction false} ResolvesNothing(history: seq<Signature>, toolName: string, resultHash: nat)
    requires forall j | 0 <= j < |history| :: !Unresolved(history[j], toolName)
    ensures Resolve(history, toolName, resultHash) == history
  {
    if history != [] {
      ResolvesNothing(history[..|history| - 1], toolName, resultHash);
    }
  }

  /** Attaching a result never changes what the verdict depends on. */
  lemma {:induction false} ResolveKeepsHashes(history: seq<Signature>, toolName: string, resultHash: nat)
    ensures Hashes(Resolve(history, toolName, resultHash)) == Hashes(history)
  {
    if history != [] && !Unresolved(history[|history| - 1], toolName) {
      ResolveKeepsHashes(history[..|history| - 1], toolName, resultHash);
      var front, after := history[..|history| - 1], Resolve(history, toolName, resultHash);
      forall i | 0 <= i < |front| ensures after[i].callHash == history[i].callHash {
        assert after[i].callHash == Hashes(Resolve(front, toolName, resultHash))[i];
      }
    }
  }

  // ---- the window ----

  /** The latest sixty. */
  function Latest<T>(xs: seq<T>): (ys: seq<T>)
    ensures |ys| == if |xs| <= MAX_HISTORY then |xs| else MAX_HISTORY
  {
    if |xs| <= MAX_HISTORY then xs else xs[|xs| - MAX_HISTORY..]
  }

  lemma LatestOfLatest<T>(xs: seq<T>, x: T)
    ensures Latest(Latest(xs) + [x]) == Latest(xs + [x])
  {
  }

  lemma RecordedHash(history: seq<Signature>, s: Signature)
    requires |history| <= MAX_HISTORY
    ensures Hashes(Recorded(history, s)) == Latest(Hashes(history) + [s.callHash])
  {
  }

  function RecordedAll(history: seq<Signature>, calls: seq<Signature>): seq<Signature> {
    if calls == [] then history else Recorded(RecordedAll(history, calls[..|calls| - 1]), calls[|calls| - 1])
  }

  /** The window holds exactly the latest calls, sixty at the most. */
  lemma {:induction false} WindowKeepsLatest(history: seq<Signature>, calls: seq<Signature>)
    requires |history| <= MAX_HISTORY
    ensures RecordedAll(history, calls) == Latest(history + calls)
    ensures RecordedAll(history, calls) ==
      if |history| + |calls| <= 60 then history + calls else (history + calls)[|history| + |calls| - 60..]
  {
    if calls == [] {
      assert history + calls == history;
    } else {
      var earlier, last := calls[..|calls| - 1], calls[|calls| - 1];
      WindowKeepsLatest(history, earlier);
      LatestOfLatest(history + earlier, last);
      assert history + calls == (history + earlier) + [last];
    }
  }

  /** Once the breaker has tripped no further calls can reset it: the window never falls below
      thirty again and every later verdict is to stop. */
  lemma BreakerStaysTripped(history: seq<Signature>, calls: seq<Signature>)
    requires CIRCUIT_BREAKER <= |history| <= MAX_HISTORY
    ensures var window := RecordedAll(history, calls);
      30 <= |window| <= 60 && Judge(Hashes(window)) == Critical(Breaker, |window|)
  {
    WindowKeepsLatest(history, calls);
  }

  class ToolLoopDetector {
    var history: seq<Signature>
    const hashPair: (string, string) -> nat
    const hashStr: string -> nat

    constructor (hashPair: (string, string) -> nat, hashStr: string -> nat)
      ensures history == [] && this.hashPair == hashPair && this.hashStr == hashStr
    {
      history := [];
      this.hashPair := hashPair;
      this.hashStr := hashStr;
    }

    method RecordCall(toolName: string, arguments: string)
      modifies this
      ensures history == Recorded(old(history), Signature(hashPair(toolName, arguments), toolName, None))
    {
      history := history + [Signature(hashPair(toolName, arguments), toolName, None)];
      if |history| > MAX_HISTORY {
        history := history[1..];
      }
    }

    method RecordResult(toolName: string, content: string)
      modifies this
      ensures history == Resolve(old(history), toolName, hashStr(content))
      ensures Hashes(history) == Hashes(old(history))
    {
      ResolveKeepsHashes(history, toolName, hashStr(content));
      var i := |history|;
      while i > 0
        invariant 0 <= i <= |history| && history == old(history)
        invariant forall j | i <= j < |history| :: !Unresolved(history[j], toolName)
      {
        i := i - 1;
        if history[i].toolName == toolName && history[i].resultHash.None? {
          ResolvesLatest(history, toolName, hashStr(content), i);
          history := history[i := history[i].(resultHash := Some(hashStr(content)))];
          return;
        }
      }
      ResolvesNothing(history, toolName, hashStr(content));
    }

    method Check() returns (verdict: Verdict)
      ensures verdict == Judge(Hashes(history))
    {
      ghost var hs := Hashes(history);
      if history == [] {
        return Fine;
      }
      if |history| >= CIRCUIT_BREAKER {
        return Critical(Breaker, |history|);
      }
      var streak := CountSame(history);
      if streak >= CRITICAL_THRESHOLD {
        return Critical(SameCall, streak);
      }
      if streak >= WARN_THRESHOLD {
        return Warning(SameCall, streak);
      }
      if |history| >= 6 {
        var a, b := history[|history| - 2].callHash, history[|history| - 1].callHash;
        if a != b {
          var cycles := CountCycles(history, a, b);
          if cycles >= CRITICAL_THRESHOLD / 2 {
            return Critical(PingPong, cycles * 2);
          }
          if cycles >= WARN_THRESHOLD / 2 {
            return Warning(PingPong, cycles * 2);
          }
        }
      }
      return Fine;
    }
  }

  method CountSame(history: seq<Signature>) returns (streak: nat)
    requires history != []
    ensures streak == SameRun(Hashes(history))
  {
    var latest := history[|history| - 1];
    ghost var hs := Hashes(history);
    streak := 0;
    while streak < |history| && history[|history| - 1 - streak].callHash == latest.callHash
      invariant 0 <= streak <= |history|
      invariant SameTail(hs, streak)
    {
      streak := streak + 1;
    }
    assert !SameTail(hs, streak + 1) by {
      if streak < |hs| {
        assert hs[|hs| - 1 - streak] != hs[|hs| - 1];
      }
    }
    SameRunIsLongest(hs, streak);
    SameRunIsLongest(hs, streak + 1);
  }

  lemma {:induction false} TailValue(hs: seq<nat>, m: nat, i: nat)
    requires AlternatingTail(hs, m) && 2 <= m && |hs| - m <= i < |hs|
    ensures hs[i] == hs[|hs| - 1 - (|hs| - 1 - i) % 2]
    decreases |hs| - i
  {
    if i + 2 < |hs| {
      TailValue(hs, m, i + 2);
      assert hs[i] == hs[i + 2];
    }
  }

  /** Two more calls continue the alternation exactly when they repeat the last two. */
  lemma OneMoreCycle(hs: seq<nat>, c: nat)
    requires 2 * c + 2 <= |hs| && AlternatingTail(hs, 2 * c)
    ensures AlternatingTail(hs, 2 * c + 2)
       <==> hs[|hs| - 1 - 2 * c] == hs[|hs| - 1] && hs[|hs| - 2 - 2 * c] == hs[|hs| - 2]
  {
    var n := |hs|;
    if c > 0 {
      TailValue(hs, 2 * c, n - 2 * c);
      TailValue(hs, 2 * c, n + 1 - 2 * c);
      assert AlternatingTail(hs, 2 * c + 2)
        <==> hs[n - 2 - 2 * c] == hs[n - 2 * c] && hs[n - 1 - 2 * c] == hs[n + 1 - 2 * c];
    }
  }

  /** Pairs, from the end, of `b` preceded by `a`. */
  method CountCycles(history: seq<Signature>, a: nat, b: nat) returns (cycles: nat)
    requires |history| >= 2 && a == history[|history| - 2].callHash && b == history[|history| - 1].callHash
    ensures cycles == AlternatingRun(Hashes(history)) / 2
  {
    ghost var hs := Hashes(history);
    var n := |history|;
    cycles := 0;
    while 2 * cycles + 2 <= n && history[n - 1 - 2 * cycles].callHash == b && history[n - 2 - 2 * cycles].callHash == a
      invariant 0 <= 2 * cycles <= n
      invariant AlternatingTail(hs, 2 * cycles)
      decreases n - 2 * cycles
    {
      OneMoreCycle(hs, cycles);
      cycles := cycles + 1;
    }
    if 2 * cycles + 2 <= n {
      OneMoreCycle(hs, cycles);
    }
    assert !AlternatingTail(hs, 2 * cycles + 2);
    CyclesInRun(hs, cycles);
  }

  lemma CyclesInRun(hs: seq<nat>, c: nat)
    requires AlternatingTail(hs, 2 * c) && !AlternatingTail(hs, 2 * c + 2)
    ensures c == AlternatingRun(hs) / 2
  {
    AlternatingRunIsLongest(hs, 2 * c);
    AlternatingRunIsLongest(hs, 2 * c + 2);
  }
}
