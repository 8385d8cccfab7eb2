/**
 * Waiting for a stable association: `micronux-netctl wait` polls the station status and reports
 * success only after an unbroken run of good answers has lasted long enough.
 */
module AssociationWait {

  const STABLE_MS := 2000
  const NOT_CONNECTED := 0x300F
  const NOT_ASSOCIATED := 0x3015

  datatype Answer = NoAnswer | Status(code: nat)

  /**
   * One round: the answer to the status request, the clock read after a good answer (negative when
   * it cannot be read), whether the deadline has passed, and whether the pause failed.
   */
  datatype Round = Round(answer: Answer, now: int, expired: bool, pauseFailed: bool)

  datatype Outcome = Pending | Connected | Failed | Unavailable | TimedOut

  predicate Good(r: Round) {
    r.answer == Status(0)
  }

  predicate Disconnected(r: Round) {
    r.answer == Status(NOT_CONNECTED) || r.answer == Status(NOT_ASSOCIATED)
  }

  /** The first round of the unbroken run of good answers that ends with round `k`. */
  function RunStart(rounds: seq<Round>, k: nat): (start: nat)
    requires k < |rounds| && Good(rounds[k])
    ensures start <= k
  {
    if k == 0 || !Good(rounds[k - 1]) then k else RunStart(rounds, k - 1)
  }

  /** Whether that run spans the required time between its first and last clock reading. */
  predicate Stable(rounds: seq<Round>, k: nat) {
    k < |rounds| && Good(rounds[k]) && rounds[k].now - rounds[RunStart(rounds, k)].now >= STABLE_MS
  }

  /** How round `k` ends the wait, if it does. */
  function Verdict(rounds: seq<Round>, k: nat): Outcome
    requires k < |rounds|
  {
    var r := rounds[k];
    if r.answer == NoAnswer || (Good(r) && r.now < 0) then Failed
    else if Stable(rounds, k) then Connected
    else if !Good(r) && !Disconnected(r) then Unavailable
    else if r.expired then TimedOut
    else if r.pauseFailed then Failed
    else Pending
  }

  /** The run is good throughout, and cannot be extended backwards. */
  lemma {:induction false} RunMeaning(rounds: seq<Round>, k: nat)
    requires k < |rounds| && Good(rounds[k])
    ensures var start := RunStart(rounds, k);
            && (forall i :: start <= i <= k ==> Good(rounds[i]))
            && (start == 0 || !Good(rounds[start - 1]))
    decreases k
  {
    if k > 0 && Good(rounds[k - 1]) {
      RunMeaning(rounds, k - 1);
    }
  }

  /** Stable means some unbroken run of good answers that ends here and spans two seconds, taken from its start. */
  lemma StableExactly(rounds: seq<Round>, k: nat)
    requires k < |rounds|
    ensures Stable(rounds, k)
            <==> exists start :: 0 <= start <= k && RunFrom(rounds, start, k)
                                 && rounds[k].now - rounds[start].now >= 2000
  {
    if Good(rounds[k]) {
      RunMeaning(rounds, k);
      assert RunFrom(rounds, RunStart(rounds, k), k);
      forall start | 0 <= start <= k && RunFrom(rounds, start, k)
        ensures start == RunStart(rounds, k)
      {
        OneRun(rounds, start, RunStart(rounds, k), k);
      }
    }
  }

  lemma OneRun(rounds: seq<Round>, start: nat, other: nat, k: nat)
    requires k < |rounds| && RunFrom(rounds, start, k) && RunFrom(rounds, other, k)
    ensures start == other
  {
  }

  /** All answers from `start` to `k` are good, and the one before them is not. */
  predicate RunFrom(rounds: seq<Round>, start: nat, k: nat)
    requires k < |rounds|
  {
    && start <= k && (forall i :: start <= i <= k ==> rounds[i].answer == Status(0))
    && (start > 0 ==> rounds[start - 1].answer != Status(0))
  }

  /** A good answer read by a working clock that does not end the wait, or one that says not yet. */
  predicate Waits(rounds: seq<Round>, k: nat)
    requires k < |rounds|
  {
    var r := rounds[k];
    || (r.answer == Status(0) && r.now >= 0 && !Stable(rounds, k))
    || r.answer in {Status(0x300F), Status(0x3015)}
  }

  /** When each outcome is given; they exclude each other and one of them always holds. */
  lemma VerdictMeaning(rounds: seq<Round>, k: nat)
    requires k < |rounds|
    ensures var r, v := rounds[k], Verdict(rounds, k);
            && (v == Connected <==> r.answer == Status(0) && r.now >= 0 && Stable(rounds, k))
            && (v == Unavailable <==> r.answer.Status? && r.answer.code !in {0, 0x300F, 0x3015})
            && (v == TimedOut <==> Waits(rounds, k) && r.expired)
            && (v == Pending <==> Waits(rounds, k) && !r.expired && !r.pauseFailed)
            && (v == Failed <==>
                  || r.answer == NoAnswer || (r.answer == Status(0) && r.now < 0)
                  || (Waits(rounds, k) && !r.expired && r.pauseFailed))
  {
  }

  /** `command_wait`; `n` counts the rounds it took. */
  method CommandWait(rounds: seq<Round>) returns (r: Outcome, n: nat)
    ensures n <= |rounds|
    ensures r == Pending ==> n == |rounds| && forall k :: 0 <= k < n ==> Verdict(rounds, k) == Pending
    ensures r != Pending ==> n > 0 && Verdict(rounds, n - 1) == r
                             && forall k :: 0 <= k < n - 1 ==> Verdict(rounds, k) == Pending
  {
    var connectedSince := -1;
    n := 0;
    while n < |rounds|
      invariant 0 <= n <= |rounds|
      invariant forall k :: 0 <= k < n ==> Verdict(rounds, k) == Pending
      invariant connectedSince >= 0 <==> n > 0 && Good(rounds[n - 1])
      invariant connectedSince >= 0 ==> connectedSince == rounds[RunStart(rounds, n - 1)].now
    {
      var round := rounds[n];
      n := n + 1;
      if round.answer == NoAnswer {
        return Failed, n;
      }
      if round.answer.code == 0 {
        if round.now < 0 {
          return Failed, n;
        }
        if connectedSince < 0 {
          connectedSince := round.now;
        }
        if round.now - connectedSince >= STABLE_MS {
          return Connected, n;
        }
      } else {
        connectedSince := -1;
      }
      if round.answer.code != 0 && round.answer.code != NOT_CONNECTED && round.answer.code != NOT_ASSOCIATED {
        return Unavailable, n;
      }
      if round.expired {
        return TimedOut, n;
      }
      if round.pauseFailed {
        return Failed, n;
      }
    }
    r := Pending;
  }

  /**
   * Success in round `n - 1` whatever came before: the rounds since the last answer that was not
   * good are all good and span at least two seconds.
   */
  lemma ConnectedMeansStable(rounds: seq<Round>, n: nat) returns (start: nat)
    requires 0 < n <= |rounds| && Verdict(rounds, n - 1) == Connected
    ensures start < n && rounds[n - 1].now - rounds[start].now >= STABLE_MS
    ensures forall i :: start <= i < n ==> Good(rounds[i])
    ensures start == 0 || !Good(rounds[start - 1])
  {
    start := RunStart(rounds, n - 1);
    RunMeaning(rounds, n - 1);
  }

  /** With a clock that does not run backwards, every dropout lies at least two seconds back. */
  lemma DropoutsDelay(rounds: seq<Round>, n: nat, dropout: nat)
    requires 0 < n <= |rounds| && Verdict(rounds, n - 1) == Connected
    requires dropout + 1 < n && !Good(rounds[dropout])
    requires forall i, j :: 0 <= i <= j < n && Good(rounds[i]) && Good(rounds[j]) ==> rounds[i].now <= rounds[j].now
    ensures forall i :: 0 <= i <= dropout + 1 && Good(rounds[i]) ==> rounds[n - 1].now - rounds[i].now >= STABLE_MS
  {
    var start := ConnectedMeansStable(rounds, n);
    assert dropout < start;
  }
}
