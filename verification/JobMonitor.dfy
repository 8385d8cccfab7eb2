/**
 * The supervisor loop of `micronux-run`: it copies a job's two output streams under a byte budget,
 * enforces a wall-clock limit, kills the job's process group and reports how the job ended.
 */
module JobMonitor {
  import opened Bytes

  const BUDGET := 32768
  const WALL_MS := 2000

  function Min(a: nat, b: nat): nat {
    if a < b then a else b
  }

  // ---------------------------------------------------------------------------------------------
  // Forwarding output
  // ---------------------------------------------------------------------------------------------

  /** What one `read` on a stream gives; an empty chunk is the end of the stream. */
  datatype ReadEvent = Data(bytes: seq<byte>) | Interrupted | Again | ReadFailed

  /** What one `write` to standard output takes of the octets offered; one without an event takes them all. */
  datatype WriteEvent = Taken(n: nat) | WriteInterrupted | WriteFailed

  /** The octets one call of `forward_output` reads; a stream out of events has nothing to read. */
  function Drained(events: seq<ReadEvent>): seq<byte> {
    if events == [] then []
    else
      match events[0]
      case Data(bytes) => if bytes == [] then [] else bytes + Drained(events[1..])
      case Interrupted => Drained(events[1..])
      case Again => []
      case ReadFailed => []
  }

  /** Whether the stream is still open after that call. */
  predicate StaysOpen(events: seq<ReadEvent>) {
    events != [] ==>
      match events[0]
      case Data(bytes) => bytes != [] && StaysOpen(events[1..])
      case Interrupted => StaysOpen(events[1..])
      case Again => true
      case ReadFailed => false
  }

  /** Whether a read ends the call: the end of the stream, an error, or nothing to read for now. */
  predicate Ends(e: ReadEvent) {
    e == Data([]) || e == Again || e == ReadFailed
  }

  /** The octets of a list of reads. */
  function Delivered(events: seq<ReadEvent>): seq<byte> {
    if events == [] then [] else (if events[0].Data? then events[0].bytes else []) + Delivered(events[1..])
  }

  /** One call reads what all reads before the first that ends it deliver; the stream stays open after `Again`. */
  lemma {:induction false} DrainedMeaning(events: seq<ReadEvent>, n: nat)
    requires n <= |events| && (forall i :: 0 <= i < n ==> !Ends(events[i])) && (n < |events| ==> Ends(events[n]))
    ensures Drained(events) == Delivered(events[..n])
    ensures StaysOpen(events) <==> n == |events| || events[n] == Again
    decreases n
  {
    if n > 0 {
      var rest := events[1..];
      assert forall i :: 0 <= i < n - 1 ==> rest[i] == events[i + 1];
      DrainedMeaning(rest, n - 1);
      assert rest[..n - 1] == events[..n][1..];
    } else {
      assert events[..0] == [];
    }
  }

  /** Where the output goes: nowhere, or to a stream whose `i`-th write meets `writes[i]`. */
  datatype Sink = Sink(quiet: bool, writes: seq<WriteEvent>)

  /** How many writes have been made and how many octets are left of those offered. */
  datatype Attempt = Attempt(made: nat, left: nat)

  /** The inner write loop with `left` octets to go. */
  function Attempted(s: Sink, made: nat, left: nat): (a: Attempt)
    ensures a.made >= made && a.left <= left
    decreases |s.writes| - made
  {
    if left == 0 then Attempt(made, 0)
    else if made >= |s.writes| then Attempt(made + 1, 0)
    else
      match s.writes[made]
      case WriteInterrupted => Attempted(s, made + 1, left)
      case WriteFailed => Attempt(made + 1, left)
      case Taken(n) => if n == 0 then Attempt(made + 1, left) else Attempted(s, made + 1, left - Min(n, left))
  }

  /** Whether one of the writes from the `from`-th to before the `to`-th fails or takes nothing. */
  predicate Faulty(s: Sink, from: nat, to: nat) {
    exists i :: from <= i < to && i < |s.writes| && (s.writes[i] == WriteFailed || s.writes[i] == Taken(0))
  }

  lemma FaultyParts(s: Sink, from: nat, mid: nat, to: nat)
    requires from <= mid <= to
    ensures Faulty(s, from, to) <==> Faulty(s, from, mid) || Faulty(s, mid, to)
  {
  }

  /** Octets are left behind exactly when a write is at fault. */
  lemma {:induction false} AttemptedLeft(s: Sink, made: nat, left: nat)
    ensures Attempted(s, made, left).left > 0 <==> Faulty(s, made, Attempted(s, made, left).made)
    decreases |s.writes| - made
  {
    var a := Attempted(s, made, left);
    if left > 0 && made < |s.writes| {
      FaultyParts(s, made, made + 1, a.made);
      match s.writes[made] {
        case WriteInterrupted => AttemptedLeft(s, made + 1, left);
        case WriteFailed => assert Faulty(s, made, made + 1);
        case Taken(n) =>
          if n == 0 {
            assert Faulty(s, made, made + 1);
          } else {
            AttemptedLeft(s, made + 1, left - Min(n, left));
          }
      }
    }
  }

  /** Everything read so far, what of it has been copied, and the number of writes made. */
  datatype Copy = Copy(seen: seq<byte>, copied: seq<byte>, made: nat)

  /** How many octets of a chunk the budget leaves. */
  function Accepted(seen: nat, chunk: nat): nat {
    if seen < BUDGET then Min(chunk, BUDGET - seen) else 0
  }

  function Fed(s: Sink, c: Copy, bytes: seq<byte>): Copy {
    var accepted := Accepted(|c.seen|, |bytes|);
    if s.quiet then c.(seen := c.seen + bytes)
    else
      var a := Attempted(s, c.made, accepted);
      Copy(c.seen + bytes, c.copied + bytes[..accepted - a.left], a.made)
  }

  /** One call of `forward_output`. */
  function Forwarded(s: Sink, c: Copy, events: seq<ReadEvent>): Copy
    decreases |events|
  {
    if events == [] then c
    else
      match events[0]
      case Data(bytes) => if bytes == [] then c else Forwarded(s, Fed(s, c, bytes), events[1..])
      case Interrupted => Forwarded(s, c, events[1..])
      case Again => c
      case ReadFailed => c
  }

  /** The copy is within the budget, and it is all the budget leaves if and only if no write was at fault. */
  ghost predicate Budgetary(s: Sink, c: Copy) {
    var due := Min(|c.seen|, BUDGET);
    if s.quiet then c.copied == []
    else
      && |c.copied| <= due && (|c.copied| == due <==> !Faulty(s, 0, c.made))
      && (!Faulty(s, 0, c.made) ==> c.copied == c.seen[..due])
  }

  lemma FedBudgetary(s: Sink, c: Copy, bytes: seq<byte>)
    requires Budgetary(s, c)
    ensures Budgetary(s, Fed(s, c, bytes))
  {
    var accepted := Accepted(|c.seen|, |bytes|);
    if !s.quiet {
      var a := Attempted(s, c.made, accepted);
      AttemptedLeft(s, c.made, accepted);
      FaultyParts(s, 0, c.made, a.made);
      Prefixes(c.seen, bytes, accepted);
    }
  }

  /** What the budget leaves of a chunk extends the kept prefix. */
  lemma Prefixes(seen: seq<byte>, bytes: seq<byte>, accepted: nat)
    requires accepted == Accepted(|seen|, |bytes|)
    ensures (seen + bytes)[..Min(|seen + bytes|, BUDGET)] == seen[..Min(|seen|, BUDGET)] + bytes[..accepted]
  {
  }

  /** The copying side of the supervisor. */
  class Copier {
    const sink: Sink
    var total: nat
    var exceeded: bool
    var copied: seq<byte>
    var made: nat
    /** Everything read so far, from both streams in the order it was read. */
    ghost var seen: seq<byte>

    ghost predicate Valid()
      reads this
    {
      total == |seen| && exceeded == (|seen| > BUDGET) && Budgetary(sink, Now())
    }

    ghost function Now(): Copy
      reads this
    {
      Copy(seen, copied, made)
    }

    constructor (quiet: bool, writes: seq<WriteEvent>)
      ensures Valid() && Now() == Copy([], [], 0) && sink == Sink(quiet, writes)
    {
      sink := Sink(quiet, writes);
      total, exceeded, copied, made, seen := 0, false, [], 0, [];
    }

    /** The inner write loop: in any number of pieces, or cut short by a failing write. */
    method WriteOut(bytes: seq<byte>) returns (ghost left: nat)
      modifies this`copied, this`made
      ensures Attempt(made, left) == Attempted(sink, old(made), |bytes|)
      ensures copied == old(copied) + bytes[..|bytes| - left]
    {
      var offset := 0;
      while offset < |bytes|
        invariant 0 <= offset <= |bytes| && copied == old(copied) + bytes[..offset]
        invariant Attempted(sink, made, |bytes| - offset) == Attempted(sink, old(made), |bytes|)
        decreases if made < |sink.writes| then |sink.writes| - made else 0, |bytes| - offset
      {
        var event := if made < |sink.writes| then sink.writes[made] else Taken(|bytes| - offset);
        made := made + 1;
        match event {
          case WriteInterrupted =>
          case WriteFailed =>
            return |bytes| - offset;
          case Taken(n) =>
            if n == 0 {
              return |bytes| - offset;
            }
            var written := Min(n, |bytes| - offset);
            copied := copied + bytes[offset..offset + written];
            offset := offset + written;
            assert bytes[..offset] == bytes[..offset - written] + bytes[offset - written..offset];
        }
      }
      left := 0;
    }

    /** One chunk of output. */
    method Chunk(bytes: seq<byte>)
      requires Valid()
      modifies this
      ensures Valid() && Now() == Fed(sink, old(Now()), bytes)
    {
      FedBudgetary(sink, Now(), bytes);
      var accepted := 0;
      if total < BUDGET {
        accepted := Min(|bytes|, BUDGET - total);
      }
      if !sink.quiet && accepted > 0 {
        ghost var left := WriteOut(bytes[..accepted]);
        assert bytes[..accepted][..accepted - left] == bytes[..accepted - left];
      }
      seen := seen + bytes;
      total := total + |bytes|;
      if total > BUDGET {
        exceeded := true;
      }
    }

    /** `forward_output`. */
    method Forward(events: seq<ReadEvent>) returns (open: bool)
      requires Valid()
      modifies this
      ensures Valid() && open == StaysOpen(events) && Now() == Forwarded(sink, old(Now()), events)
    {
      var k := 0;
      assert events[0..] == events;
      while k < |events|
        invariant 0 <= k <= |events| && Valid()
        invariant Forwarded(sink, Now(), events[k..]) == Forwarded(sink, old(Now()), events)
        invariant StaysOpen(events[k..]) == StaysOpen(events)
      {
        var event := events[k];
        assert events[k..][0] == event && events[k..][1..] == events[k + 1..];
        match event {
          case Data(bytes) =>
            if bytes == [] {
              return false;
            }
            Chunk(bytes);
          case Interrupted =>
          case Again =>
            return true;
          case ReadFailed =>
            return false;
        }
        k := k + 1;
      }
      open := true;
    }
  }

  /** Forwarding reads exactly the readable octets. */
  lemma {:induction false} ForwardedSeen(s: Sink, c: Copy, events: seq<ReadEvent>)
    ensures Forwarded(s, c, events).seen == c.seen + Drained(events)
    decreases |events|
  {
    if events == [] {
      assert c.seen + [] == c.seen;
    } else {
      match events[0] {
        case Data(bytes) =>
          if bytes != [] {
            ForwardedSeen(s, Fed(s, c, bytes), events[1..]);
            assert c.seen + bytes + Drained(events[1..]) == c.seen + (bytes + Drained(events[1..]));
          }
        case Interrupted => ForwardedSeen(s, c, events[1..]);
        case Again =>
        case ReadFailed =>
      }
    }
  }

  // ---------------------------------------------------------------------------------------------
  // Monitoring
  // ---------------------------------------------------------------------------------------------

  /** Why a job is ended by the supervisor, if it is. */
  datatype Reason = Unset | Wall | Output | Monitor | Wait

  datatype Status = Exited(code: nat) | Signaled(number: nat) | Unclear

  datatype WaitEvent = Running | Reaped(status: Status) | WaitError

  /** What one pass of the loop meets. */
  datatype Tick = Tick(now: int, pollFailed: bool, stdoutReady: bool, stdoutReads: seq<ReadEvent>,
                       stderrReady: bool, stderrReads: seq<ReadEvent>, wait: WaitEvent)

  datatype Watch = Watch(childDone: bool, reaped: bool, killed: bool, reason: Reason, status: Status,
                         stdoutOpen: bool, stderrOpen: bool, seen: seq<byte>)

  const START := Watch(false, false, false, Unset, Unclear, true, true, [])

  predicate Done(w: Watch) {
    w.childDone && !w.stdoutOpen && !w.stderrOpen
  }

  /** The wall check and the kill it, or an earlier reason, leads to. */
  function Enforced(w: Watch, started: int, now: int): Watch {
    var reason := if !w.childDone && w.reason == Unset && (now < 0 || now - started >= WALL_MS)
                  then Wall else w.reason;
    w.(reason := reason, killed := w.killed || (!w.childDone && reason != Unset))
  }

  function Polled(w: Watch, failed: bool): Watch {
    if failed then w.(reason := Monitor, killed := true) else w
  }

  /** What one pass reads from the two streams, and which of them stay open. */
  datatype Intake = Intake(bytes: seq<byte>, stdoutOpen: bool, stderrOpen: bool)

  function IntakeOf(stdoutOpen: bool, stderrOpen: bool, t: Tick): Intake {
    var one := stdoutOpen && t.stdoutReady;
    var two := stderrOpen && t.stderrReady;
    Intake((if one then Drained(t.stdoutReads) else []) + (if two then Drained(t.stderrReads) else []),
           if one then StaysOpen(t.stdoutReads) else stdoutOpen,
           if two then StaysOpen(t.stderrReads) else stderrOpen)
  }

  function Collected(w: Watch, i: Intake): Watch {
    w.(seen := w.seen + i.bytes, stdoutOpen := i.stdoutOpen, stderrOpen := i.stderrOpen)
  }

  function Budgeted(w: Watch): Watch {
    if !w.childDone && |w.seen| > BUDGET && w.reason == Unset then w.(reason := Output) else w
  }

  function Waited(w: Watch, event: WaitEvent): Watch {
    if w.childDone then w
    else
      match event
      case Running => w
      case Reaped(status) => w.(childDone := true, reaped := true, killed := true, status := status)
      case WaitError =>
        w.(childDone := true, status := Exited(0), reason := if w.reason == Unset then Wait else w.reason)
  }

  /** One pass, given what it reads. */
  function Passed(w: Watch, started: int, t: Tick, i: Intake): Watch {
    Waited(Budgeted(Collected(Polled(Enforced(w, started, t.now), t.pollFailed), i)), t.wait)
  }

  function Step(w: Watch, started: int, t: Tick): Watch {
    Passed(w, started, t, IntakeOf(w.stdoutOpen, w.stderrOpen, t))
  }

  /** The state after as many of the ticks as the loop takes. */
  function Run(w: Watch, started: int, ticks: seq<Tick>): Watch
    decreases |ticks|
  {
    if Done(w) || ticks == [] then w else Run(Step(w, started, ticks[0]), started, ticks[1..])
  }

  /** What one pass copies. */
  function Gathered(s: Sink, c: Copy, stdoutOpen: bool, stderrOpen: bool, t: Tick): Copy {
    var one := if stdoutOpen && t.stdoutReady then Forwarded(s, c, t.stdoutReads) else c;
    if stderrOpen && t.stderrReady then Forwarded(s, one, t.stderrReads) else one
  }

  /** What the same ticks copy. */
  function CopyRun(s: Sink, c: Copy, w: Watch, started: int, ticks: seq<Tick>): Copy
    decreases |ticks|
  {
    if Done(w) || ticks == [] then c
    else
      CopyRun(s, Gathered(s, c, w.stdoutOpen, w.stderrOpen, ticks[0]), Step(w, started, ticks[0]), started, ticks[1..])
  }

  /** The exit code reported for a finished job. */
  function Result(w: Watch): nat {
    match w.reason
    case Unset =>
      match w.status {
        case Exited(code) => code
        case Signaled(number) => 128 + number
        case Unclear => 125
      }
    case Wall => 124
    case _ => 125
  }

  // ---------------------------------------------------------------------------------------------
  // What holds in every run
  // ---------------------------------------------------------------------------------------------

  /** Who has been killed, by what has been decided. */
  predicate Inv(w: Watch) {
    && (w.reaped ==> w.childDone && w.killed)
    && (w.childDone && !w.reaped ==> w.reason != Unset)
    && (w.reason == Wall || w.reason == Monitor ==> w.killed)
    && (w.reason == Wait ==> w.childDone && !w.reaped && !w.killed)
    && (w.reason == Unset && !w.reaped ==> !w.killed)
    && (|w.seen| > BUDGET && !w.childDone ==> w.reason != Unset)
  }

  lemma InvStep(w: Watch, started: int, t: Tick)
    requires Inv(w)
    ensures Inv(Step(w, started, t))
  {
  }

  lemma {:induction false} InvRun(w: Watch, started: int, ticks: seq<Tick>)
    requires Inv(w)
    ensures Inv(Run(w, started, ticks))
    decreases |ticks|
  {
    if !Done(w) && ticks != [] {
      InvStep(w, started, ticks[0]);
      InvRun(Step(w, started, ticks[0]), started, ticks[1..]);
    }
  }

  /**
   * What the reported reason says about the process group once the job is over. A reaped child's
   * group has always been killed; a child the supervisor lost sight of has not, if that is all that
   * went wrong.
   */
  lemma KillByReason(started: int, ticks: seq<Tick>)
    ensures var w := Run(START, started, ticks);
            && (w.reaped ==> w.killed)
            && (Done(w) && (w.reason == Unset || w.reason == Wall || w.reason == Monitor) ==> w.killed)
            && (w.reason == Wait ==> !w.killed)
            && (Done(w) && w.reason == Unset ==> w.reaped)
            && (Done(w) && !w.killed ==> !w.reaped && (w.reason == Wait || w.reason == Output))
  {
    InvRun(START, started, ticks);
  }

  /** If waiting for the child never fails, every finished job's group has been killed. */
  lemma {:induction false} ReapedIfNoWaitError(w: Watch, started: int, ticks: seq<Tick>)
    requires forall k :: 0 <= k < |ticks| ==> ticks[k].wait != WaitError
    requires w.childDone ==> w.reaped
    ensures Run(w, started, ticks).childDone ==> Run(w, started, ticks).reaped
    decreases |ticks|
  {
    if !Done(w) && ticks != [] {
      ReapedIfNoWaitError(Step(w, started, ticks[0]), started, ticks[1..]);
    }
  }

  lemma AllKilledIfNoWaitError(started: int, ticks: seq<Tick>)
    requires forall k :: 0 <= k < |ticks| ==> ticks[k].wait != WaitError
    ensures Done(Run(START, started, ticks)) ==> Run(START, started, ticks).killed
  {
    ReapedIfNoWaitError(START, started, ticks);
    InvRun(START, started, ticks);
  }

  // ---------------------------------------------------------------------------------------------
  // Exactly when a finished job's group has been spared
  // ---------------------------------------------------------------------------------------------

  /** How many of the ticks the loop takes. */
  function Passes(w: Watch, started: int, ticks: seq<Tick>): (n: nat)
    ensures n <= |ticks|
    decreases |ticks|
  {
    if Done(w) || ticks == [] then 0 else 1 + Passes(Step(w, started, ticks[0]), started, ticks[1..])
  }

  /** Whether a pass starts at or after the wall limit, or without a clock. */
  predicate Late(t: Tick, started: int) {
    t.now < 0 || t.now - started >= WALL_MS
  }

  /** A job that is running and has given no reason to end it. */
  predicate Fresh(w: Watch) {
    !w.childDone && w.reason == Unset
  }

  predicate NoPollFailed(ticks: seq<Tick>, from: nat, to: nat)
    requires to <= |ticks|
  {
    forall j :: from <= j < to ==> !ticks[j].pollFailed
  }

  /** Pass `k` starts with a fresh job, and polling never fails from then on. */
  predicate FreshAt(w: Watch, started: int, ticks: seq<Tick>, k: nat) {
    && k < Passes(w, started, ticks) && Fresh(Run(w, started, ticks[..k]))
    && NoPollFailed(ticks, k, Passes(w, started, ticks))
  }

  /** Pass `k` loses sight of a job it has no reason to end, in time. */
  predicate LosesSight(w: Watch, started: int, ticks: seq<Tick>, k: nat) {
    FreshAt(w, started, ticks, k) && ticks[k].wait == WaitError && !Late(ticks[k], started)
  }

  /** Pass `k` finds a job it has had no reason to end at its limit. */
  predicate Overruns(w: Watch, started: int, ticks: seq<Tick>, k: nat) {
    FreshAt(w, started, ticks, k) && Late(ticks[k], started)
  }

  /** The pass in which a job without a reason can be lost without being killed. */
  lemma FreshStep(w: Watch, started: int, t: Tick)
    requires Inv(w) && Fresh(w)
    ensures var after := Step(w, started, t);
            after.childDone && !after.killed <==> t.wait == WaitError && !Late(t, started) && !t.pollFailed
    ensures Step(w, started, t).childDone <==> t.wait != Running
  {
    var enforced := Enforced(w, started, t.now);
    var polled := Polled(enforced, t.pollFailed);
    var collected := Collected(polled, IntakeOf(w.stdoutOpen, w.stderrOpen, t));
    assert collected.killed == polled.killed && collected.childDone == polled.childDone;
    assert Budgeted(collected).killed == collected.killed;
  }

  lemma StaleStep(w: Watch, started: int, t: Tick)
    requires !Fresh(w)
    ensures var after := Step(w, started, t);
            && !Fresh(after) && after.reason == (if t.pollFailed then Monitor else w.reason)
            && (w.killed ==> after.killed)
            && (w.childDone ==> after.childDone && after.killed == (w.killed || t.pollFailed))
            && (!w.childDone ==> after.killed)
  {
  }

  lemma {:induction false} StaleRun(w: Watch, started: int, ticks: seq<Tick>)
    requires !Fresh(w)
    ensures var r := Run(w, started, ticks);
            && !Fresh(r) && (w.killed ==> r.killed)
            && (w.childDone ==> r.killed == (w.killed || !NoPollFailed(ticks, 0, Passes(w, started, ticks))))
            && (!w.childDone && Done(r) ==> r.killed)
    decreases |ticks|
  {
    if !Done(w) && ticks != [] {
      var rest, after := ticks[1..], Step(w, started, ticks[0]);
      StaleStep(w, started, ticks[0]);
      StaleRun(after, started, rest);
      NoPollShift(ticks, 0, Passes(after, started, rest));
    }
  }

  /** Looking for failed polls one tick later in the rest of the list. */
  lemma NoPollShift(ticks: seq<Tick>, k: nat, n: nat)
    requires ticks != [] && n < |ticks|
    ensures NoPollFailed(ticks, k + 1, n + 1) <==> NoPollFailed(ticks[1..], k, n)
    ensures NoPollFailed(ticks, 0, n + 1) <==> !ticks[0].pollFailed && NoPollFailed(ticks[1..], 0, n)
  {
    if NoPollFailed(ticks[1..], k, n) {
      forall j | k + 1 <= j < n + 1
        ensures !ticks[j].pollFailed
      {
        assert ticks[j] == ticks[1..][j - 1];
      }
    }
    if NoPollFailed(ticks[1..], 0, n) && !ticks[0].pollFailed {
      forall j | 0 <= j < n + 1
        ensures !ticks[j].pollFailed
      {
        assert j == 0 || ticks[j] == ticks[1..][j - 1];
      }
    }
  }

  /** Being fresh in the rest of the ticks is being fresh one tick later. */
  lemma FreshShift(w: Watch, started: int, ticks: seq<Tick>, k: nat)
    requires ticks != [] && !Done(w)
    ensures FreshAt(w, started, ticks, k + 1) <==> FreshAt(Step(w, started, ticks[0]), started, ticks[1..], k)
  {
    var rest, after := ticks[1..], Step(w, started, ticks[0]);
    if k < Passes(after, started, rest) {
      assert ticks[..k + 1][1..] == rest[..k];
      assert Run(w, started, ticks[..k + 1]) == Run(after, started, rest[..k]);
      NoPollShift(ticks, k, Passes(after, started, rest));
    }
  }

  /** Once there is a reason, or the child is gone, no later pass starts with a fresh job. */
  lemma StaleNeverFresh(w: Watch, started: int, ticks: seq<Tick>, k: nat)
    requires !Fresh(w)
    ensures !FreshAt(w, started, ticks, k)
  {
    if k < Passes(w, started, ticks) {
      StaleRun(w, started, ticks[..k]);
    }
  }

  ghost predicate Spared(w: Watch, started: int, ticks: seq<Tick>) {
    exists k: nat :: LosesSight(w, started, ticks, k)
  }

  /** One pass of a fresh job that stays fresh decides nothing. */
  lemma SparedLater(w: Watch, started: int, ticks: seq<Tick>)
    requires Inv(w) && Fresh(w) && ticks != [] && Fresh(Step(w, started, ticks[0]))
    ensures Spared(w, started, ticks) <==> Spared(Step(w, started, ticks[0]), started, ticks[1..])
  {
    var rest, after := ticks[1..], Step(w, started, ticks[0]);
    FreshStep(w, started, ticks[0]);
    if Spared(w, started, ticks) {
      var k: nat :| LosesSight(w, started, ticks, k);
      FreshShift(w, started, ticks, k - 1);
      assert LosesSight(after, started, rest, k - 1);
    }
    if Spared(after, started, rest) {
      var k: nat :| LosesSight(after, started, rest, k);
      FreshShift(w, started, ticks, k);
      assert LosesSight(w, started, ticks, k + 1);
    }
  }

  /** One pass that gives a reason or ends the child decides everything. */
  lemma SparedNow(w: Watch, started: int, ticks: seq<Tick>)
    requires Inv(w) && Fresh(w) && ticks != [] && !Fresh(Step(w, started, ticks[0]))
    ensures Spared(w, started, ticks) <==> LosesSight(w, started, ticks, 0)
  {
    if Spared(w, started, ticks) {
      var k: nat :| LosesSight(w, started, ticks, k);
      if k > 0 {
        FreshShift(w, started, ticks, k - 1);
        StaleNeverFresh(Step(w, started, ticks[0]), started, ticks[1..], k - 1);
      }
    }
  }

  lemma {:induction false} SparedRun(w: Watch, started: int, ticks: seq<Tick>)
    requires Inv(w) && Fresh(w) && Done(Run(w, started, ticks))
    ensures !Run(w, started, ticks).killed <==> Spared(w, started, ticks)
    decreases |ticks|
  {
    var rest, after := ticks[1..], Step(w, started, ticks[0]);
    InvStep(w, started, ticks[0]);
    if Fresh(after) {
      SparedRun(after, started, rest);
      SparedLater(w, started, ticks);
    } else {
      SparedNow(w, started, ticks);
      FreshStep(w, started, ticks[0]);
      StaleRun(after, started, rest);
      NoPollShift(ticks, 0, Passes(after, started, rest));
      assert ticks[..0] == [] && Run(w, started, []) == w;
    }
  }

  /**
   * A finished job's group is alive if and only if some pass lost sight of the child while there
   * was neither a reason nor an expired limit, and polling did not fail from that pass on.
   */
  lemma SparedExactly(started: int, ticks: seq<Tick>)
    requires Done(Run(START, started, ticks))
    ensures !Run(START, started, ticks).killed <==> exists k: nat :: LosesSight(START, started, ticks, k)
  {
    SparedRun(START, started, ticks);
    assert Spared(START, started, ticks) <==> exists k: nat :: LosesSight(START, started, ticks, k);
  }

  /** Two runs that end with the group alive: a failed wait alone, and one just past the budget. */
  lemma SurvivingGroups(flood: seq<byte>)
    requires |flood| > BUDGET
    ensures var quiet := Tick(0, false, true, [Data([])], true, [Data([])], WaitError);
            var w := Run(START, 0, [quiet]);
            Done(w) && !w.killed && w.reason == Wait && Result(w) == 125
    ensures var loud := Tick(0, false, true, [Data(flood), Data([])], true, [Data([])], WaitError);
            var w := Run(START, 0, [loud]);
            Done(w) && !w.killed && w.reason == Output && Result(w) == 125
  {
  }

  // ---------------------------------------------------------------------------------------------
  // Exactly when a job has overrun its limit
  // ---------------------------------------------------------------------------------------------

  /** Once there is a reason, or the child is gone, the verdict stays unless polling fails. */
  lemma {:induction false} ReasonStays(w: Watch, started: int, ticks: seq<Tick>)
    requires !Fresh(w)
    ensures Run(w, started, ticks).reason
            == if NoPollFailed(ticks, 0, Passes(w, started, ticks)) then w.reason else Monitor
    decreases |ticks|
  {
    if !Done(w) && ticks != [] {
      var rest, after := ticks[1..], Step(w, started, ticks[0]);
      StaleStep(w, started, ticks[0]);
      ReasonStays(after, started, rest);
      NoPollShift(ticks, 0, Passes(after, started, rest));
    }
  }

  /** A pass finds a fresh job at its limit or gives another verdict. */
  lemma WallStep(w: Watch, started: int, t: Tick)
    requires Fresh(w)
    ensures Step(w, started, t).reason == Wall <==> Late(t, started) && !t.pollFailed
    ensures Late(t, started) ==> !Fresh(Step(w, started, t))
  {
    var polled := Polled(Enforced(w, started, t.now), t.pollFailed);
    var collected := Collected(polled, IntakeOf(w.stdoutOpen, w.stderrOpen, t));
    assert collected.reason == polled.reason;
    assert Budgeted(collected).reason == Wall <==> collected.reason == Wall;
  }

  ghost predicate Overrun(w: Watch, started: int, ticks: seq<Tick>) {
    exists k: nat :: Overruns(w, started, ticks, k)
  }

  lemma OverrunLater(w: Watch, started: int, ticks: seq<Tick>)
    requires Fresh(w) && ticks != [] && !Overruns(w, started, ticks, 0)
    ensures Overrun(w, started, ticks) <==> Overrun(Step(w, started, ticks[0]), started, ticks[1..])
  {
    var rest, after := ticks[1..], Step(w, started, ticks[0]);
    if Overrun(w, started, ticks) {
      var k: nat :| Overruns(w, started, ticks, k);
      FreshShift(w, started, ticks, k - 1);
      assert Overruns(after, started, rest, k - 1);
    }
    if Overrun(after, started, rest) {
      var k: nat :| Overruns(after, started, rest, k);
      FreshShift(w, started, ticks, k);
      assert Overruns(w, started, ticks, k + 1);
    }
  }

  lemma StaleNeverOverruns(w: Watch, started: int, ticks: seq<Tick>)
    requires !Fresh(w)
    ensures !Overrun(w, started, ticks)
  {
    forall k: nat
      ensures !Overruns(w, started, ticks, k)
    {
      StaleNeverFresh(w, started, ticks, k);
    }
  }

  lemma {:induction false} WallRun(w: Watch, started: int, ticks: seq<Tick>)
    requires w.reason != Wall
    ensures Run(w, started, ticks).reason == Wall <==> Overrun(w, started, ticks)
    decreases |ticks|
  {
    if !Fresh(w) {
      ReasonStays(w, started, ticks);
      StaleNeverOverruns(w, started, ticks);
    } else if ticks != [] {
      var rest, after := ticks[1..], Step(w, started, ticks[0]);
      assert ticks[..0] == [] && Run(w, started, []) == w;
      WallStep(w, started, ticks[0]);
      NoPollShift(ticks, 0, Passes(after, started, rest));
      if after.reason == Wall {
        ReasonStays(after, started, rest);
        StaleNeverOverruns(after, started, rest);
        if !Overruns(w, started, ticks, 0) {
          OverrunLater(w, started, ticks);
        }
      } else {
        WallRun(after, started, rest);
        OverrunLater(w, started, ticks);
      }
    }
  }

  /**
   * The verdict is "wall" if and only if some pass that began at or after the limit, or without a
   * clock, found the child running with no reason against it, and polling did not fail from then on.
   */
  lemma WallExactly(w: Watch, started: int, ticks: seq<Tick>)
    requires w.reason != Wall
    ensures Run(w, started, ticks).reason == Wall <==> exists k: nat :: Overruns(w, started, ticks, k)
  {
    WallRun(w, started, ticks);
    assert Overrun(w, started, ticks) <==> exists k: nat :: Overruns(w, started, ticks, k);
  }

  // ---------------------------------------------------------------------------------------------
  // The loop
  // ---------------------------------------------------------------------------------------------

  /** `monitor_job`, over the ticks it is given; `done` tells whether they sufficed. */
  method MonitorJob(clock: int, ticks: seq<Tick>, copier: Copier) returns (done: bool, result: nat, ghost w: Watch)
    requires copier.Valid() && copier.seen == []
    modifies copier
    ensures copier.Valid()
    ensures copier.Now() == CopyRun(copier.sink, old(copier.Now()), START, if clock < 0 then 0 else clock, ticks)
    ensures !copier.sink.quiet ==>
              (copier.copied == w.seen[..Min(|w.seen|, BUDGET)] <==> !Faulty(copier.sink, 0, copier.made))
    ensures w == Run(START, if clock < 0 then 0 else clock, ticks) && copier.seen == w.seen
    ensures done == Done(w) && (done ==> result == Result(w))
  {
    var started := if clock < 0 then 0 else clock;
    var childDone, reaped, groupKilled, stdoutOpen, stderrOpen := false, false, false, true, true;
    var reason, status := Unset, Unclear;
    w := START;
    var k := 0;
    assert ticks[0..] == ticks;
    while (!childDone || stdoutOpen || stderrOpen) && k < |ticks|
      invariant 0 <= k <= |ticks| && copier.Valid()
      invariant CopyRun(copier.sink, copier.Now(), w, started, ticks[k..])
                == CopyRun(copier.sink, old(copier.Now()), START, started, ticks)
      invariant w == Watch(childDone, reaped, groupKilled, reason, status, stdoutOpen, stderrOpen, copier.seen)
      invariant Run(w, started, ticks[k..]) == Run(START, started, ticks)
    {
      RunStep(w, started, ticks, k);
      CopyStep(copier.sink, copier.Now(), w, started, ticks, k);
      ghost var bytes;
      childDone, reaped, groupKilled, reason, status, stdoutOpen, stderrOpen, bytes :=
        Pass(childDone, reaped, groupKilled, reason, status, stdoutOpen, stderrOpen, started, ticks[k], copier, w);
      w := Step(w, started, ticks[k]);
      k := k + 1;
    }
    done := childDone && !stdoutOpen && !stderrOpen;
    result := Report(reason, status, w);
  }

  lemma RunStep(w: Watch, started: int, ticks: seq<Tick>, k: nat)
    requires k < |ticks| && !Done(w)
    ensures Run(w, started, ticks[k..]) == Run(Step(w, started, ticks[k]), started, ticks[k + 1..])
  {
  }

  lemma CopyStep(s: Sink, c: Copy, w: Watch, started: int, ticks: seq<Tick>, k: nat)
    requires k < |ticks| && !Done(w)
    ensures CopyRun(s, c, w, started, ticks[k..])
            == CopyRun(s, Gathered(s, c, w.stdoutOpen, w.stderrOpen, ticks[k]), Step(w, started, ticks[k]), started,
                       ticks[k + 1..])
  {
  }

  /** One pass of the loop. */
  method Pass(wasDone: bool, wasReaped: bool, wasKilled: bool, was: Reason, statusWas: Status,
              stdoutWas: bool, stderrWas: bool, started: int, t: Tick, copier: Copier, ghost w: Watch)
    returns (childDone: bool, reaped: bool, groupKilled: bool, reason: Reason, status: Status,
             stdoutOpen: bool, stderrOpen: bool, ghost bytes: seq<byte>)
    requires copier.Valid()
    requires w == Watch(wasDone, wasReaped, wasKilled, was, statusWas, stdoutWas, stderrWas, copier.seen)
    modifies copier
    ensures copier.Valid() && copier.Now() == Gathered(copier.sink, old(copier.Now()), stdoutWas, stderrWas, t)
    ensures Intake(bytes, stdoutOpen, stderrOpen) == IntakeOf(stdoutWas, stderrWas, t)
    ensures Passed(w, started, t, Intake(bytes, stdoutOpen, stderrOpen))
            == Watch(childDone, reaped, groupKilled, reason, status, stdoutOpen, stderrOpen, copier.seen)
  {
    reason, groupKilled := Enforce(wasDone, wasKilled, was, started, t, w);
    stdoutOpen, stderrOpen, bytes := Collect(t, stdoutWas, stderrWas, copier);
    ghost var polled := w.(reason := reason, killed := groupKilled);
    ghost var collected := Collected(polled, Intake(bytes, stdoutOpen, stderrOpen));
    childDone, reaped, groupKilled, reason, status :=
      Settle(wasDone, wasReaped, groupKilled, reason, statusWas, copier.exceeded, t.wait, collected);
  }

  /** The start of a pass: the wall limit, the kill, and a failed poll. */
  method Enforce(childDone: bool, wasKilled: bool, was: Reason, started: int, t: Tick, ghost w: Watch)
    returns (reason: Reason, groupKilled: bool)
    requires w.childDone == childDone && w.killed == wasKilled && w.reason == was
    ensures Polled(Enforced(w, started, t.now), t.pollFailed) == w.(reason := reason, killed := groupKilled)
  {
    reason, groupKilled := was, wasKilled;
    if !childDone && reason == Unset && (t.now < 0 || t.now - started >= WALL_MS) {
      reason := Wall;
    }
    if !childDone && reason != Unset && !groupKilled {
      groupKilled := true;
    }
    if t.pollFailed {
      reason, groupKilled := Monitor, true;
    }
  }

  /** Both streams of one pass. */
  method Collect(t: Tick, stdoutWas: bool, stderrWas: bool, copier: Copier)
    returns (stdoutOpen: bool, stderrOpen: bool, ghost bytes: seq<byte>)
    requires copier.Valid()
    modifies copier
    ensures copier.Valid() && copier.Now() == Gathered(copier.sink, old(copier.Now()), stdoutWas, stderrWas, t)
    ensures Intake(bytes, stdoutOpen, stderrOpen) == IntakeOf(stdoutWas, stderrWas, t)
    ensures copier.seen == old(copier.seen) + bytes
  {
    GatheredSeen(copier.sink, copier.Now(), stdoutWas, stderrWas, t);
    stdoutOpen, stderrOpen, bytes := stdoutWas, stderrWas, IntakeOf(stdoutWas, stderrWas, t).bytes;
    if stdoutOpen && t.stdoutReady {
      stdoutOpen := copier.Forward(t.stdoutReads);
    }
    if stderrOpen && t.stderrReady {
      stderrOpen := copier.Forward(t.stderrReads);
    }
  }

  lemma GatheredSeen(s: Sink, c: Copy, stdoutOpen: bool, stderrOpen: bool, t: Tick)
    ensures Gathered(s, c, stdoutOpen, stderrOpen, t).seen == c.seen + IntakeOf(stdoutOpen, stderrOpen, t).bytes
  {
    ForwardedSeen(s, c, t.stdoutReads);
    var one := if stdoutOpen && t.stdoutReady then Forwarded(s, c, t.stdoutReads) else c;
    ForwardedSeen(s, one, t.stderrReads);
  }

  /** The end of a pass: the budget and the child's own fate. */
  method Settle(wasDone: bool, wasReaped: bool, wasKilled: bool, was: Reason, statusWas: Status, exceeded: bool,
                event: WaitEvent, ghost w: Watch)
    returns (childDone: bool, reaped: bool, groupKilled: bool, reason: Reason, status: Status)
    requires w.childDone == wasDone && w.reaped == wasReaped && w.killed == wasKilled
    requires w.reason == was && w.status == statusWas
    requires exceeded == (|w.seen| > BUDGET)
    ensures Waited(Budgeted(w), event)
            == w.(childDone := childDone, reaped := reaped, killed := groupKilled, reason := reason, status := status)
  {
    childDone, reaped, groupKilled, reason, status := wasDone, wasReaped, wasKilled, was, statusWas;
    if !childDone && exceeded && reason == Unset {
      reason := Output;
    }
    if !childDone {
      match event {
        case Running =>
        case Reaped(s) =>
          childDone, reaped, status := true, true, s;
          if !groupKilled {
            groupKilled := true;
          }
        case WaitError =>
          status, childDone := Exited(0), true;
          if reason == Unset {
            reason := Wait;
          }
      }
    }
  }

  /** The report at the end: the reason if there is one, else what the child's status says. */
  method Report(reason: Reason, status: Status, ghost w: Watch) returns (result: nat)
    requires w.reason == reason && w.status == status
    ensures result == Result(w)
    ensures reason != Unset ==> (result == 124 <==> reason == Wall) && (result == 125 <==> reason != Wall)
    ensures forall n: nat :: reason == Unset && status == Exited(n) ==> result == n
    ensures forall n: nat :: reason == Unset && status == Signaled(n) ==> result == n + 128
    ensures reason == Unset && status == Unclear ==> result == 125
  {
    if reason != Unset {
      result := if reason == Wall then 124 else 125;
    } else {
      match status {
        case Exited(code) => result := code;
        case Signaled(number) => result := 128 + number;
        case Unclear => result := 125;
      }
    }
  }
}
