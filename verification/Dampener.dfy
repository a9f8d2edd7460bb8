/**
 Dampening of health results. The reported health follows the raw one only after enough equal results
 in a row; until then the old report is repeated.
 */
module Dampener {

  /** The failure text of a result: empty, the fixed text of a timeout, or that of an error. */
  datatype Failure = NoText | NoResponse | Error(text: string)

  datatype Result = Result(healthy: bool, failure: Failure)

  /** What receiving from a closed channel yields. */
  const ZERO_RESULT := Result(false, NoText)

  /** Consecutive results needed to be reported healthy, and to be reported failed. */
  datatype Thresholds = Thresholds(healthy: int, failed: int)

  function Needed(th: Thresholds, healthy: bool): int {
    if healthy then th.healthy else th.failed
  }

  // ---- The state machine ----

  datatype State = State(reported: Result, current: Result, count: nat)

  function Start(first: Result): State {
    State(first, first, 1)
  }

  function Next(th: Thresholds, s: State, r: Result): State {
    var same := r.healthy == s.current.healthy;
    var current, count := if same then s.current else r, if same then s.count + 1 else 1;
    State(if current.healthy != s.reported.healthy && count >= Needed(th, current.healthy) then current else s.reported,
          current, count)
  }

  /** The state after a history of raw results. */
  function After(th: Thresholds, history: seq<Result>): State
    requires history != []
  {
    var n := |history| - 1;
    if n == 0 then Start(history[0]) else Next(th, After(th, history[..n]), history[n])
  }

  function Report(th: Thresholds, history: seq<Result>): Result
    requires history != []
  {
    After(th, history).reported
  }

  // ---- What is reported, without the state ----

  /** How many results up to and including the `i`-th were the same in a row. */
  function RunLength(history: seq<Result>, i: nat): (n: nat)
    requires i < |history|
    ensures 1 <= n <= i + 1
  {
    if i == 0 || history[i - 1].healthy != history[i].healthy then 1 else RunLength(history, i - 1) + 1
  }

  /** At the `i`-th result a run has reached its threshold. */
  predicate Reached(th: Thresholds, history: seq<Result>, i: nat)
    requires i < |history|
  {
    RunLength(history, i) >= Needed(th, history[i].healthy)
  }

  /** The health of the latest result at which a run had reached its threshold, or of the first result. */
  function SettledHealth(th: Thresholds, history: seq<Result>, i: nat): bool
    requires i < |history|
  {
    if i == 0 || Reached(th, history, i) then history[i].healthy else SettledHealth(th, history, i - 1)
  }

  lemma {:induction false} RunLengthOfPrefix(history: seq<Result>, n: nat, i: nat)
    requires i < n <= |history|
    ensures RunLength(history[..n], i) == RunLength(history, i)
  {
    if i > 0 {
      RunLengthOfPrefix(history, n, i - 1);
    }
  }

  lemma {:induction false} SettledOfPrefix(th: Thresholds, history: seq<Result>, n: nat, i: nat)
    requires i < n <= |history|
    ensures SettledHealth(th, history[..n], i) == SettledHealth(th, history, i)
  {
    RunLengthOfPrefix(history, n, i);
    if i > 0 {
      SettledOfPrefix(th, history, n, i - 1);
    }
  }

  predicate StartsRun(history: seq<Result>, k: nat)
    requires k < |history|
  {
    k == 0 || history[k - 1].healthy != history[k].healthy
  }

  /** A run of `n` means what it says: the last `n` results agree, and the one before them does not. */
  lemma {:induction false} RunIsMaximal(history: seq<Result>, i: nat)
    requires i < |history|
    ensures var start := i + 1 - RunLength(history, i);
            && StartsRun(history, start)
            && forall j :: start <= j <= i ==> history[j].healthy == history[i].healthy
  {
    if i > 0 && history[i - 1].healthy == history[i].healthy {
      RunIsMaximal(history, i - 1);
    }
  }

  /** The state machine's run is the run the history ends with. */
  lemma {:induction false} TracksRun(th: Thresholds, history: seq<Result>)
    requires history != []
    ensures var i := |history| - 1;
            && After(th, history).count == RunLength(history, i)
            && After(th, history).current == history[i + 1 - RunLength(history, i)]
            && After(th, history).current.healthy == history[i].healthy
  {
    var i := |history| - 1;
    if i > 0 {
      TracksRun(th, history[..i]);
      RunLengthOfPrefix(history, i, i - 1);
    }
  }

  /** For every history, the state machine reports the settled health. */
  lemma {:induction false} ReportsSettledHealth(th: Thresholds, history: seq<Result>)
    requires history != []
    ensures Report(th, history).healthy == SettledHealth(th, history, |history| - 1)
  {
    var i := |history| - 1;
    if i > 0 {
      ReportsSettledHealth(th, history[..i]);
      SettledOfPrefix(th, history, i, i - 1);
      TracksRun(th, history);
    }
  }

  /** What is reported is always the result that opened some run: its failure message is the first of the run. */
  lemma {:induction false} ReportOpensRun(th: Thresholds, history: seq<Result>) returns (k: nat)
    requires history != []
    ensures k < |history| && StartsRun(history, k) && Report(th, history) == history[k]
  {
    var i := |history| - 1;
    if i == 0 {
      k := 0;
    } else {
      k := ReportOpensRun(th, history[..i]);
      assert StartsRun(history, k);
      if Report(th, history) != Report(th, history[..i]) {
        k := i + 1 - RunLength(history, i);
        TracksRun(th, history);
        RunIsMaximal(history, i);
      }
    }
  }

  /** A report changes exactly when a run opposite to it reaches its threshold. */
  lemma ReportChangesExactly(th: Thresholds, history: seq<Result>)
    requires |history| >= 2
    ensures var i := |history| - 1;
            var last := Report(th, history[..i]).healthy;
            Report(th, history).healthy != last <==> history[i].healthy != last && Reached(th, history, i)
  {
    var i := |history| - 1;
    ReportsSettledHealth(th, history);
    ReportsSettledHealth(th, history[..i]);
    SettledOfPrefix(th, history, i, i - 1);
  }

  /** The last `n` results are all healthy, or all failed. */
  ghost predicate LastAre(history: seq<Result>, n: int, healthy: bool) {
    n <= |history| && forall k :: 0 <= k < |history| && |history| - n <= k ==> history[k].healthy == healthy
  }

  lemma LastAreExactly(history: seq<Result>, n: int, healthy: bool)
    requires history != [] && history[|history| - 1].healthy == healthy
    ensures RunLength(history, |history| - 1) >= n <==> LastAre(history, n, healthy)
  {
    var i := |history| - 1;
    RunIsMaximal(history, i);
    var start := i + 1 - RunLength(history, i);
    assert start > 0 ==> history[start - 1].healthy != healthy;
  }

  /**
   A failed target is reported healthy exactly when as many healthy results in a row have come as the healthy
   threshold says, and a healthy one failed exactly when the failed threshold is reached; at least one result
   of the new kind is needed.
   */
  lemma ThresholdsDecide(th: Thresholds, history: seq<Result>)
    requires |history| >= 2
    ensures var i := |history| - 1;
            if Report(th, history[..i]).healthy
            then !Report(th, history).healthy <==> !history[i].healthy && LastAre(history, th.failed, false)
            else Report(th, history).healthy <==> history[i].healthy && LastAre(history, th.healthy, true)
  {
    var i := |history| - 1;
    ReportChangesExactly(th, history);
    LastAreExactly(history, Needed(th, history[i].healthy), history[i].healthy);
  }

  /** A history in which no run ever reaches its threshold never moves the report off the first result. */
  lemma {:induction false} FlappingIsDampened(th: Thresholds, history: seq<Result>)
    requires history != [] && forall i :: 0 < i < |history| ==> !Reached(th, history, i)
    ensures Report(th, history) == history[0]
  {
    var n := |history| - 1;
    if n > 0 {
      forall i | 0 < i < n
        ensures !Reached(th, history[..n], i)
      {
        RunLengthOfPrefix(history, n, i);
        assert !Reached(th, history, i);
      }
      FlappingIsDampened(th, history[..n]);
      TracksRun(th, history);
      assert !Reached(th, history, n);
    }
  }

  // ---- The goroutine ----

  /**
   `DampenedResultStream` over all results sent before the source is closed: one report for each result.
   Of a source closed before its first result it reports one unhealthy zero value.
   */
  method DampenedResultStream(src: seq<Result>, th: Thresholds) returns (dampened: seq<Result>)
    ensures |dampened| == if src == [] then 1 else |src|
    ensures src == [] ==> dampened == [Result(false, NoText)]
    ensures forall i :: 0 <= i < |src| ==> dampened[i] == Report(th, src[..i + 1])
  {
    var reportedHealth := if src == [] then ZERO_RESULT else src[0];
    dampened := [reportedHealth];
    var currentHealth := reportedHealth;
    var currentHealthCount := 1;
    var i := 1;
    while i < |src|
      invariant |dampened| == i && (src != [] ==> i <= |src|)
      invariant src == [] ==> i == 1 && dampened == [ZERO_RESULT]
      invariant src != [] ==> State(reportedHealth, currentHealth, currentHealthCount) == After(th, src[..i])
      invariant src != [] ==> forall k :: 0 <= k < i ==> dampened[k] == Report(th, src[..k + 1])
    {
      var nextHealth := src[i];
      if nextHealth.healthy == currentHealth.healthy {
        currentHealthCount := currentHealthCount + 1;
      } else {
        currentHealthCount := 1;
        currentHealth := nextHealth;
      }
      if currentHealth.healthy && !reportedHealth.healthy && currentHealthCount >= th.healthy {
        reportedHealth := currentHealth;
      } else if !currentHealth.healthy && reportedHealth.healthy && currentHealthCount >= th.failed {
        reportedHealth := currentHealth;
      }
      assert src[..i + 1][..i] == src[..i];
      dampened := dampened + [reportedHealth];
      i := i + 1;
    }
  }
}
