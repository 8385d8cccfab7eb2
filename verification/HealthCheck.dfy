/**
 * The display health checks of the hardware test, over samples that have already been parsed:
 * `scanout_contract_problem` and `diagnostics_contract_problem`.
 */
module HealthCheck {
  import opened Wrappers
  import opened Checks
  import opened Ownership

  const MAX_REARM_NS := 1_000_000
  const BRIDGE_MISC := 0x3201

  /** The two report lines; they carry the same fields, checked in a different order. */
  datatype Kind = Scanout | Diagnostics

  datatype Sample = Sample(
    before: nat, after: nat, error: nat, underruns: nat, chen: nat, faults: nat, host0: nat, host1: nat,
    buffers: nat, front: int, queued: int, back: int, rearms: nat, rearmFailures: nat,
    flipRequests: nat, flipCompletions: nat, generation: nat, commit: nat, guardErrors: nat,
    armOver20ms: nat, rearmMax: nat, fifoIrqZero: nat, fifoPollZero: nat, bridgeFiller: nat, bridgeMisc: nat)

  datatype Problem =
    | Count | FrameStalled | HealthNonzero | BufferCount | FrontBackRole | QueuedRole | RearmCounter
    | ProgressCounter | RuntimeCounter | ArmOver20ms | RearmLatency | FifoPollZero | BridgeFiller
    | BridgeMisc | FlipCounter | Generation | Commit | Regressed(counter: nat)
    | FlipNotObserved | ProgressNotObserved

  predicate RolesDistinct(v: Sample) {
    0 <= v.front < 3 && 0 <= v.back < 3 && v.front != v.back
  }

  predicate QueuedDistinct(v: Sample) {
    v.queued != -1 ==> 0 <= v.queued < 3 && v.queued != v.front && v.queued != v.back && v.front != v.back
  }

  /** The checks both lines share, in their common order. */
  function TimingProblem(v: Sample): Option<Problem> {
    if v.armOver20ms != 0 then Some(ArmOver20ms)
    else if v.rearmMax >= MAX_REARM_NS then Some(RearmLatency)
    else if v.fifoPollZero != 0 then Some(FifoPollZero)
    else if v.bridgeFiller != 0 then Some(BridgeFiller)
    else if v.bridgeMisc != BRIDGE_MISC then Some(BridgeMisc)
    else if v.flipCompletions > v.flipRequests then Some(FlipCounter)
    else None
  }

  function RoleProblem(v: Sample): Option<Problem> {
    if v.buffers != 3 then Some(BufferCount)
    else if !RolesDistinct(v) then Some(FrontBackRole)
    else if !QueuedDistinct(v) then Some(QueuedRole)
    else None
  }

  function ScanoutProblem(v: Sample): Option<Problem> {
    if v.after <= v.before then Some(FrameStalled)
    else if v.error != 0 || v.underruns != 0 || v.chen != 1 || v.faults != 0 || v.host0 != 0 || v.host1 != 0
            || v.guardErrors != 0 then Some(HealthNonzero)
    else Then(RoleProblem(v),
            if v.rearms < 1 || v.rearmFailures != 0 then Some(RearmCounter)
            else Then(TimingProblem(v),
                    if v.generation < 1 then Some(Generation) else if v.commit < 1 then Some(Commit) else None))
  }

  function DiagnosticsProblem(v: Sample): Option<Problem> {
    if v.faults != 0 || v.error != 0 || v.host0 != 0 || v.host1 != 0 || v.underruns != 0 || v.rearmFailures != 0
       || v.guardErrors != 0 then Some(HealthNonzero)
    else Then(RoleProblem(v),
            if v.after < 1 || v.generation < 1 then Some(ProgressCounter)
            else if v.rearms < 1 || v.commit < 1 then Some(RuntimeCounter)
            else TimingProblem(v))
  }

  function SampleProblem(kind: Kind, v: Sample): Option<Problem> {
    match kind
    case Scanout => ScanoutProblem(v)
    case Diagnostics => DiagnosticsProblem(v)
  }

  // ---------------------------------------------------------------------------------------------
  // What the checks demand, field by field
  // ---------------------------------------------------------------------------------------------

  /** Every field both lines check is as it should be. */
  predicate FieldsSound(v: Sample) {
    && v.error == 0 && v.underruns == 0 && v.faults == 0 && v.host0 == 0 && v.host1 == 0 && v.guardErrors == 0
    && v.buffers == 3 && v.front in {0, 1, 2} && v.back in {0, 1, 2} && v.queued in {-1, 0, 1, 2}
    && v.front != v.back && v.front != v.queued && v.back != v.queued
    && v.rearms >= 1 && v.rearmFailures == 0 && v.generation >= 1 && v.commit >= 1
    && v.armOver20ms == 0 && v.rearmMax < 1_000_000 && v.fifoPollZero == 0
    && v.bridgeFiller == 0 && v.bridgeMisc == 0x3201 && v.flipCompletions <= v.flipRequests
  }

  /** A sample draws no complaint if and only if all its fields are sound and its frame counter moves. */
  lemma QuietSample(kind: Kind, v: Sample)
    ensures SampleProblem(kind, v).None?
            <==> FieldsSound(v) && (if kind.Scanout? then v.before < v.after && v.chen == 1 else v.after >= 1)
  {
  }

  predicate Unhealthy(v: Sample) {
    v.error != 0 || v.underruns != 0 || v.faults != 0 || v.host0 != 0 || v.host1 != 0 || v.guardErrors != 0
  }

  function RoleRules(v: Sample): seq<Option<Problem>> {
    [When(v.buffers != 3, BufferCount),
     When(v.front !in {0, 1, 2} || v.back !in {0, 1, 2} || v.front == v.back, FrontBackRole),
     When(v.queued !in {-1, 0, 1, 2} || v.queued == v.front || v.queued == v.back, QueuedRole)]
  }

  function TimingRules(v: Sample): seq<Option<Problem>> {
    [When(v.armOver20ms > 0, ArmOver20ms), When(v.rearmMax >= 1_000_000, RearmLatency),
     When(v.fifoPollZero > 0, FifoPollZero), When(v.bridgeFiller > 0, BridgeFiller),
     When(v.bridgeMisc != 0x3201, BridgeMisc), When(v.flipRequests < v.flipCompletions, FlipCounter)]
  }

  function OpeningRules(kind: Kind, v: Sample): seq<Option<Problem>> {
    match kind
    case Scanout => [When(v.after <= v.before, FrameStalled), When(Unhealthy(v) || v.chen != 1, HealthNonzero)]
    case Diagnostics => [When(Unhealthy(v) || v.rearmFailures > 0, HealthNonzero)]
  }

  function CounterRules(kind: Kind, v: Sample): seq<Option<Problem>> {
    match kind
    case Scanout => [When(v.rearms == 0 || v.rearmFailures > 0, RearmCounter)]
    case Diagnostics =>
      [When(v.after == 0 || v.generation == 0, ProgressCounter), When(v.rearms == 0 || v.commit == 0, RuntimeCounter)]
  }

  function ClosingRules(kind: Kind, v: Sample): seq<Option<Problem>> {
    match kind
    case Scanout => [When(v.generation == 0, Generation), When(v.commit == 0, Commit)]
    case Diagnostics => []
  }

  /** The rules of a report line in the order they are looked at. */
  function Rules(kind: Kind, v: Sample): seq<Option<Problem>> {
    OpeningRules(kind, v) + RoleRules(v) + CounterRules(kind, v) + TimingRules(v) + ClosingRules(kind, v)
  }

  lemma SharedRules(v: Sample)
    ensures First(RoleRules(v)) == RoleProblem(v) && First(TimingRules(v)) == TimingProblem(v)
  {
    var a, b := RoleRules(v), TimingRules(v);
    FirstOfThree(a[0], a[1], a[2]);
    FirstOfSix(b[0], b[1], b[2], b[3], b[4], b[5]);
  }

  lemma RulesJoin(kind: Kind, v: Sample)
    ensures First(Rules(kind, v))
            == Then(First(OpeningRules(kind, v)),
                    Then(RoleProblem(v),
                         Then(First(CounterRules(kind, v)), Then(TimingProblem(v), First(ClosingRules(kind, v))))))
  {
    var a, b, c := OpeningRules(kind, v), RoleRules(v), CounterRules(kind, v);
    SharedRules(v);
    FirstJoin(a, b);
    FirstJoin(a + b, c);
    FirstJoin(a + b + c, TimingRules(v));
    FirstJoin(a + b + c + TimingRules(v), ClosingRules(kind, v));
  }

  /** The complaint about a sample is the first of the rules, looked at in order, that it breaks. */
  lemma ComplaintIsFirst(kind: Kind, v: Sample)
    ensures SampleProblem(kind, v) == First(Rules(kind, v))
  {
    var a, b, c := OpeningRules(kind, v), CounterRules(kind, v), ClosingRules(kind, v);
    RulesJoin(kind, v);
    match kind {
      case Scanout =>
        FirstOfTwo(a[0], a[1]);
        FirstOfOne(b[0]);
        FirstOfTwo(c[0], c[1]);
      case Diagnostics =>
        FirstOfOne(a[0]);
        FirstOfTwo(b[0], b[1]);
    }
  }

  /** The counters a report line must never show going back, by name. */
  predicate Advances(kind: Kind, u: Sample, v: Sample) {
    && (kind.Scanout? ==> u.before <= v.before) && u.after <= v.after
    && u.rearms <= v.rearms && u.flipRequests <= v.flipRequests && u.flipCompletions <= v.flipCompletions
    && u.generation <= v.generation && u.commit <= v.commit
    && u.armOver20ms <= v.armOver20ms && u.fifoIrqZero <= v.fifoIrqZero && u.fifoPollZero <= v.fifoPollZero
  }

  /** The list of counters has each of them and nothing else. */
  lemma NoneRegressedMeaning(kind: Kind, u: Sample, v: Sample)
    ensures NoneRegressed(kind, u, v) <==> Advances(kind, u, v)
  {
    var a, b := Counters(kind, u), Counters(kind, v);
    var k := if kind.Scanout? then 1 else 0;
    assert |a| == |b| == k + 9;
    assert a[k] == u.after && a[k + 1] == u.rearms && a[k + 2] == u.flipRequests && a[k + 3] == u.flipCompletions;
    assert a[k + 4] == u.generation && a[k + 5] == u.commit && a[k + 6] == u.armOver20ms;
    assert a[k + 7] == u.fifoIrqZero && a[k + 8] == u.fifoPollZero && (k == 1 ==> a[0] == u.before);
    assert b[k] == v.after && b[k + 1] == v.rearms && b[k + 2] == v.flipRequests && b[k + 3] == v.flipCompletions;
    assert b[k + 4] == v.generation && b[k + 5] == v.commit && b[k + 6] == v.armOver20ms;
    assert b[k + 7] == v.fifoIrqZero && b[k + 8] == v.fifoPollZero && (k == 1 ==> b[0] == v.before);
  }

  /** The counters that must not go back; the diagnostics line has no `before`. */
  function Counters(kind: Kind, v: Sample): seq<nat> {
    (if kind.Scanout? then [v.before] else [])
    + [v.after, v.rearms, v.flipRequests, v.flipCompletions, v.generation, v.commit, v.armOver20ms,
       v.fifoIrqZero, v.fifoPollZero]
  }

  predicate NoneRegressed(kind: Kind, u: Sample, v: Sample) {
    forall c :: 0 <= c < |Counters(kind, u)| ==> Counters(kind, u)[c] <= Counters(kind, v)[c]
  }

  /** What a clean verdict means, all of it: no sample complains and no neighbours regress. */
  predicate Clean(kind: Kind, samples: seq<Sample>) {
    forall i :: 0 <= i < |samples| ==> QuietAt(kind, samples, i)
  }

  predicate QuietAt(kind: Kind, samples: seq<Sample>, i: nat)
    requires i < |samples|
  {
    SampleProblem(kind, samples[i]).None? && (i > 0 ==> NoneRegressed(kind, samples[i - 1], samples[i]))
  }

  predicate FlipObserved(samples: seq<Sample>) {
    && |samples| >= 2 && samples[|samples| - 1].flipCompletions > samples[0].flipCompletions
    && samples[|samples| - 1].commit > samples[0].commit
  }

  predicate ProgressObserved(samples: seq<Sample>) {
    |samples| >= 2 && samples[|samples| - 1].after > samples[0].after
  }

  /** The first counter, in report order, that went back. */
  function FirstRegression(u: seq<nat>, v: seq<nat>, from: nat): (r: Option<nat>)
    requires |u| == |v|
    ensures r.None? <==> forall c :: from <= c < |u| ==> u[c] <= v[c]
    ensures r.Some? ==> from <= r.value < |u| && v[r.value] < u[r.value]
                        && forall c :: from <= c < r.value ==> u[c] <= v[c]
    decreases |u| - from
  {
    if from >= |u| then None else if v[from] < u[from] then Some(from) else FirstRegression(u, v, from + 1)
  }

  /** The complaint raised while looking at one sample. */
  function ProblemAt(kind: Kind, samples: seq<Sample>, i: nat): (r: Option<Problem>)
    requires i < |samples|
    ensures r.None? <==> QuietAt(kind, samples, i)
  {
    var own := SampleProblem(kind, samples[i]);
    if own.Some? then own
    else if i == 0 then None
    else
      var back := FirstRegression(Counters(kind, samples[i - 1]), Counters(kind, samples[i]), 0);
      if back.Some? then Some(Regressed(back.value)) else None
  }

  /** The first complaint from sample `from` on. */
  function FirstProblem(kind: Kind, samples: seq<Sample>, from: nat): (r: Option<Problem>)
    ensures r.None? <==> forall i :: from <= i < |samples| ==> QuietAt(kind, samples, i)
    decreases |samples| - from
  {
    if from >= |samples| then None
    else
      var here := ProblemAt(kind, samples, from);
      if here.Some? then here else FirstProblem(kind, samples, from + 1)
  }

  /** A verdict of None is exactly a clean report that shows the flip and progress asked for. */
  function Verdict(kind: Kind, samples: seq<Sample>, minimum: nat, requireFlip: bool, requireProgress: bool)
    : (r: Option<Problem>)
    ensures r.None? <==> && |samples| >= minimum && Clean(kind, samples)
                         && (requireFlip ==> FlipObserved(samples)) && (requireProgress ==> ProgressObserved(samples))
  {
    if |samples| < minimum then Some(Count)
    else
      var first := FirstProblem(kind, samples, 0);
      if first.Some? then first
      else if requireFlip && !FlipObserved(samples) then Some(FlipNotObserved)
      else if requireProgress && !ProgressObserved(samples) then Some(ProgressNotObserved)
      else None
  }

  /** Both checkers: a loop over the samples with an early return at the first complaint. */
  method ContractProblem(kind: Kind, samples: seq<Sample>, minimum: nat, requireFlip: bool, requireProgress: bool)
    returns (problem: Option<Problem>)
    ensures problem == Verdict(kind, samples, minimum, requireFlip, requireProgress)
  {
    if |samples| < minimum {
      return Some(Count);
    }
    for index := 0 to |samples|
      invariant FirstProblem(kind, samples, 0) == FirstProblem(kind, samples, index)
    {
      problem := SampleProblem(kind, samples[index]);
      if problem.Some? {
        return;
      }
      if index > 0 {
        var counter := FindRegression(Counters(kind, samples[index - 1]), Counters(kind, samples[index]));
        if counter.Some? {
          return Some(Regressed(counter.value));
        }
      }
    }
    if requireFlip && !FlipObserved(samples) {
      return Some(FlipNotObserved);
    }
    if requireProgress && !ProgressObserved(samples) {
      return Some(ProgressNotObserved);
    }
    problem := None;
  }

  method FindRegression(u: seq<nat>, v: seq<nat>) returns (r: Option<nat>)
    requires |u| == |v|
    ensures r == FirstRegression(u, v, 0)
  {
    for c := 0 to |u|
      invariant FirstRegression(u, v, 0) == FirstRegression(u, v, c)
    {
      if v[c] < u[c] {
        return Some(c);
      }
    }
    r := None;
  }

  /** A clean verdict compares neighbours only, yet every counter is monotone over all pairs. */
  lemma {:induction false} CleanIsMonotone(kind: Kind, samples: seq<Sample>, i: nat, j: nat)
    requires Clean(kind, samples) && i <= j < |samples|
    ensures Advances(kind, samples[i], samples[j])
    decreases j
  {
    if i < j {
      CleanIsMonotone(kind, samples, i, j - 1);
      assert QuietAt(kind, samples, j);
      NoneRegressedMeaning(kind, samples[j - 1], samples[j]);
    }
  }

  /** Every sample of a report that is passed as it should be, and no counter going back anywhere. */
  predicate Sound(kind: Kind, samples: seq<Sample>) {
    && (forall i :: 0 <= i < |samples| ==>
          && FieldsSound(samples[i])
          && (if kind.Scanout? then samples[i].before < samples[i].after && samples[i].chen == 1
              else samples[i].after >= 1))
    && forall i, j :: 0 <= i <= j < |samples| ==> Advances(kind, samples[i], samples[j])
  }

  lemma CleanIsSound(kind: Kind, samples: seq<Sample>)
    ensures Clean(kind, samples) <==> Sound(kind, samples)
  {
    if Clean(kind, samples) {
      forall i, j | 0 <= i <= j < |samples|
        ensures Advances(kind, samples[i], samples[j])
      {
        CleanIsMonotone(kind, samples, i, j);
      }
      forall i | 0 <= i < |samples|
        ensures SampleProblem(kind, samples[i]).None?
      {
        assert QuietAt(kind, samples, i);
      }
    }
    forall i | 0 <= i < |samples|
      ensures SampleProblem(kind, samples[i]).None?
              <==> FieldsSound(samples[i])
                   && (if kind.Scanout? then samples[i].before < samples[i].after && samples[i].chen == 1
                       else samples[i].after >= 1)
    {
      QuietSample(kind, samples[i]);
    }
    if Sound(kind, samples) {
      forall i | 0 <= i < |samples|
        ensures QuietAt(kind, samples, i)
      {
        if i > 0 {
          NoneRegressedMeaning(kind, samples[i - 1], samples[i]);
        }
      }
    }
  }

  /** A report passes if and only if its fields, named one by one, are as the contract wants them. */
  lemma VerdictMeaning(kind: Kind, samples: seq<Sample>, minimum: nat, requireFlip: bool, requireProgress: bool)
    ensures Verdict(kind, samples, minimum, requireFlip, requireProgress).None?
            <==> && |samples| >= minimum && Sound(kind, samples)
                 && (requireFlip ==>
                       && |samples| >= 2 && samples[0].flipCompletions < samples[|samples| - 1].flipCompletions
                       && samples[0].commit < samples[|samples| - 1].commit)
                 && (requireProgress ==> |samples| >= 2 && samples[0].after < samples[|samples| - 1].after)
  {
    CleanIsSound(kind, samples);
  }

  // ---------------------------------------------------------------------------------------------
  // No false alarms
  // ---------------------------------------------------------------------------------------------

  /** The report's role and counter fields are those of an ownership state. */
  predicate Describes(v: Sample, w: World) {
    && v.buffers == 3 && v.front == w.s.front && v.back == w.s.render
    && v.queued == (if w.s.queued.Some? then w.s.queued.value else -1)
    && v.rearms == w.s.rearmAttempts && v.rearmFailures == w.s.rearmFailures
    && v.flipRequests == w.s.requests && v.flipCompletions == w.s.completions
    && v.generation == w.s.generation && v.commit == LastShown(w)
  }

  /** The fields the ownership model says nothing about report healthy hardware. */
  predicate HealthyTelemetry(v: Sample) {
    && v.before < v.after && v.chen == 1
    && v.error == 0 && v.underruns == 0 && v.faults == 0 && v.host0 == 0 && v.host1 == 0 && v.guardErrors == 0
    && v.armOver20ms == 0 && v.rearmMax < MAX_REARM_NS && v.fifoPollZero == 0 && v.bridgeFiller == 0
    && v.bridgeMisc == BRIDGE_MISC
  }

  predicate TelemetryAdvances(u: Sample, v: Sample) {
    u.before <= v.before && u.after <= v.after && u.fifoIrqZero <= v.fifoIrqZero
  }

  /** Samples taken in order at positions `at` of one run. */
  predicate SampledFrom(samples: seq<Sample>, ws: seq<World>, at: seq<nat>) {
    && |at| == |samples|
    && (forall i :: 0 <= i < |at| ==> at[i] < |ws| && Describes(samples[i], ws[at[i]]) && HealthyTelemetry(samples[i]))
    && forall i :: 0 < i < |at| ==> at[i - 1] <= at[i] && TelemetryAdvances(samples[i - 1], samples[i])
  }

  lemma OneSampleQuiet(kind: Kind, v: Sample, w: World)
    requires Inv(w) && Describes(v, w) && HealthyTelemetry(v)
    requires w.s.rearmFailures == 0 && w.s.completions >= 1
    ensures SampleProblem(kind, v).None?
  {
  }

  lemma LastShownGrows(w: World, w': World)
    requires Inv(w) && Inv(w') && Later(w, w')
    ensures LastShown(w) <= LastShown(w')
    ensures w.s.completions < w'.s.completions ==> LastShown(w) < LastShown(w')
  {
  }

  lemma NeighboursQuiet(kind: Kind, u: Sample, v: Sample, w: World, w': World)
    requires Inv(w) && Inv(w') && Later(w, w') && Describes(u, w) && Describes(v, w')
    requires HealthyTelemetry(u) && HealthyTelemetry(v) && TelemetryAdvances(u, v)
    ensures NoneRegressed(kind, u, v)
  {
  }

  lemma SampledClean(kind: Kind, samples: seq<Sample>, ws: seq<World>, es: seq<Event>, at: seq<nat>)
    requires IsRun(ws, es) && Starts(ws[0]) && SampledFrom(samples, ws, at) && samples != []
    requires ws[at[0]].s.completions >= 1 && ws[at[|at| - 1]].s.rearmFailures == 0
    ensures Clean(kind, samples)
  {
    forall i | 0 <= i < |samples|
      ensures QuietAt(kind, samples, i)
    {
      InOrder(samples, ws, at, 0, i);
      InOrder(samples, ws, at, i, |at| - 1);
      RunsMoveForward(ws, es, at[0], at[i]);
      RunsMoveForward(ws, es, at[i], at[|at| - 1]);
      InvRun(ws, es, at[i]);
      OneSampleQuiet(kind, samples[i], ws[at[i]]);
      if i > 0 {
        RunsMoveForward(ws, es, at[i - 1], at[i]);
        InvRun(ws, es, at[i - 1]);
        NeighboursQuiet(kind, samples[i - 1], samples[i], ws[at[i - 1]], ws[at[i]]);
      }
    }
  }

  lemma {:induction false} InOrder(samples: seq<Sample>, ws: seq<World>, at: seq<nat>, i: nat, j: nat)
    requires SampledFrom(samples, ws, at) && i <= j < |at|
    ensures at[i] <= at[j]
    decreases j
  {
    if i < j {
      InOrder(samples, ws, at, i, j - 1);
    }
  }

  /**
   * Samples taken anywhere along any run that has completed a flip and never failed a rearm raise
   * no alarm, and a flip between the first and the last sample is always observed.
   */
  lemma NoFalseAlarm(kind: Kind, samples: seq<Sample>, ws: seq<World>, es: seq<Event>, at: seq<nat>)
    requires IsRun(ws, es) && Starts(ws[0]) && SampledFrom(samples, ws, at) && samples != []
    requires ws[at[0]].s.completions >= 1 && ws[at[|at| - 1]].s.rearmFailures == 0
    ensures Verdict(kind, samples, |samples|, false, false).None?
    ensures |samples| >= 2 && ws[at[0]].s.completions < ws[at[|at| - 1]].s.completions ==>
              Verdict(kind, samples, |samples|, true, false).None?
  {
    SampledClean(kind, samples, ws, es, at);
    var last := |at| - 1;
    InOrder(samples, ws, at, 0, last);
    RunsMoveForward(ws, es, at[0], at[last]);
    InvRun(ws, es, at[0]);
    InvRun(ws, es, at[last]);
    LastShownGrows(ws[at[0]], ws[at[last]]);
  }
}
