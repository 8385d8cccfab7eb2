/**
 * The loader's cold publish protocol.  The 192 contract octets live in PSRAM behind a data cache
 * whose lines may be evicted or cleaned at any moment.  The loader invalidates any old contract,
 * quiesces the display, stages everything but the magic word, writes back and invalidates, and
 * commits the magic through the uncached alias as its last write.
 */
module ColdHandoff {
  import opened Wrappers
  import opened Checks
  import opened Bytes
  import opened ColdContract

  /** One cached octet. */
  datatype Line = Line(value: byte, dirty: bool)

  /** The contract octets: memory, and the part of it that is cached. */
  datatype Memory = Memory(psram: seq<byte>, cache: map<nat, Line>)

  predicate WellFormed(m: Memory) {
    |m.psram| == CONTRACT_SIZE && forall i :: i in m.cache ==> i < CONTRACT_SIZE
  }

  /** Clean lines agree with memory. */
  predicate Coherent(m: Memory) {
    WellFormed(m) && forall i :: i in m.cache && !m.cache[i].dirty ==> m.cache[i].value == m.psram[i]
  }

  function CachedOctet(m: Memory, i: nat): byte
    requires WellFormed(m) && i < CONTRACT_SIZE
  {
    if i in m.cache then m.cache[i].value else m.psram[i]
  }

  /** What a cached reader sees.  An uncached reader sees `psram`. */
  function CachedView(m: Memory): (s: seq<byte>)
    requires WellFormed(m)
    ensures |s| == CONTRACT_SIZE
  {
    seq(CONTRACT_SIZE, i requires 0 <= i < CONTRACT_SIZE => CachedOctet(m, i))
  }

  // ---------------------------------------------------------------------------------------------
  // What can happen to the memory
  // ---------------------------------------------------------------------------------------------

  /** An octet leaves the cache; a dirty one is written back first. */
  function Evict(m: Memory, i: nat): Memory
    requires WellFormed(m)
  {
    if i !in m.cache then m
    else Memory(if m.cache[i].dirty then m.psram[i := m.cache[i].value] else m.psram, m.cache - {i})
  }

  /** A dirty octet is written back and stays cached. */
  function Clean(m: Memory, i: nat): Memory
    requires WellFormed(m)
  {
    if i !in m.cache || !m.cache[i].dirty then m
    else Memory(m.psram[i := m.cache[i].value], m.cache[i := Line(m.cache[i].value, false)])
  }

  /** An access brings an octet in (as part of the line it shares with another one). */
  function Fill(m: Memory, i: nat): Memory
    requires WellFormed(m)
  {
    if i in m.cache || i >= CONTRACT_SIZE then m else m.(cache := m.cache[i := Line(m.psram[i], false)])
  }

  function Store(m: Memory, i: nat, value: byte): Memory
    requires WellFormed(m) && i < CONTRACT_SIZE
  {
    m.(cache := m.cache[i := Line(value, true)])
  }

  /** `esp_cache_msync` towards memory, completed: dirty octets written back, lines kept clean. */
  function WrittenBack(m: Memory): Memory
    requires WellFormed(m)
  {
    Memory(seq(CONTRACT_SIZE, i requires 0 <= i < CONTRACT_SIZE =>
                 if i in m.cache && m.cache[i].dirty then m.cache[i].value else m.psram[i]),
           map i | i in m.cache :: Line(m.cache[i].value, false))
  }

  /** The same with the invalidate flag: nothing stays cached. */
  function WrittenBackInvalidated(m: Memory): Memory
    requires WellFormed(m)
  {
    WrittenBack(m).(cache := map[])
  }

  /** `cold_commit`: one word stored through the uncached alias. */
  function Committed(m: Memory): Memory
    requires WellFormed(m)
  {
    m.(psram := Le32(MAGIC) + m.psram[4..])
  }

  /** The magic word is zero in memory and wherever it is cached. */
  predicate MagicZero(m: Memory) {
    WellFormed(m) && forall i :: 0 <= i < 4 ==> ZeroAt(m, i)
  }

  predicate ZeroAt(m: Memory, i: nat)
    requires WellFormed(m) && i < CONTRACT_SIZE
  {
    m.psram[i] == 0 && CachedOctet(m, i) == 0
  }

  // ---------------------------------------------------------------------------------------------
  // Consequences for the readers
  // ---------------------------------------------------------------------------------------------

  /** While the magic is zero neither kind of reader can accept the contract. */
  lemma MagicZeroRejected(m: Memory, hw: Hardware)
    requires MagicZero(m)
    ensures Validate(m.psram, hw) == Rejected("magic")
    ensures Validate(CachedView(m), hw) == Rejected("magic")
  {
    assert ZeroAt(m, 0) && ZeroAt(m, 1) && ZeroAt(m, 2) && ZeroAt(m, 3);
    ZeroMagic(m.psram);
    assert forall i :: 0 <= i < 4 ==> CachedView(m)[i] == CachedOctet(m, i);
    ZeroMagic(CachedView(m));
  }

  lemma ZeroMagic(blob: seq<byte>)
    requires |blob| == CONTRACT_SIZE && blob[0] == 0 && blob[1] == 0 && blob[2] == 0 && blob[3] == 0
    ensures U32(blob, 0) == 0
  {
  }

  /** A completed invalidation: zeros in memory and through the cache. */
  predicate Wiped(m: Memory) {
    WellFormed(m) && m.psram == Zeros(CONTRACT_SIZE) == CachedView(m)
  }

  /** Once the magic is zero for every reader it stays so. */
  ghost predicate Sticky(trace: seq<Memory>) {
    forall k, l :: 0 <= k <= l < |trace| && MagicZero(trace[k]) ==> MagicZero(trace[l])
  }

  /** Whether the contract was wiped in some state from `from` on. */
  ghost predicate WipedSince(trace: seq<Memory>, from: nat) {
    exists k :: from <= k < |trace| && Wiped(trace[k])
  }

  lemma StickyStep(trace: seq<Memory>, m: Memory)
    requires trace != [] && Sticky(trace) && (MagicZero(trace[|trace| - 1]) ==> MagicZero(m))
    ensures Sticky(trace + [m])
  {
    forall k, l | 0 <= k <= l < |trace| + 1 && MagicZero((trace + [m])[k])
      ensures MagicZero((trace + [m])[l])
    {
      if l == |trace| > k {
        assert MagicZero(trace[|trace| - 1]);
      }
    }
  }

  /** Everything is staged except the magic word. */
  predicate StagedIn(m: Memory, contract: seq<byte>) {
    && MagicZero(m) && Coherent(m) && |contract| == CONTRACT_SIZE && contract[..4] == Le32(MAGIC)
    && m.psram[4..] == contract[4..]
    && forall i :: i in m.cache ==> !m.cache[i].dirty
  }

  /** Staged, with no magic octet cached: the state in which one word completes the contract. */
  predicate AwaitsMagic(m: Memory, contract: seq<byte>)
    requires |contract| == CONTRACT_SIZE
  {
    && Coherent(m) && m.psram == Overlay(contract, 0, [0, 0, 0, 0])
    && (forall i :: i in m.cache ==> i >= 4 && !m.cache[i].dirty)
  }

  lemma AwaitsMagicIsStaged(m: Memory, contract: seq<byte>)
    requires |contract| == CONTRACT_SIZE && contract[..4] == Le32(MAGIC) && AwaitsMagic(m, contract)
    ensures StagedIn(m, contract) && forall i :: 0 <= i < 4 ==> i !in m.cache
  {
    assert m.psram[4..] == contract[4..];
    assert forall i :: 0 <= i < 4 ==> ZeroAt(m, i);
  }

  /** Of what the cache does, only a fill of the magic itself could end that. */
  lemma AwaitsMagicStays(m: Memory, contract: seq<byte>, i: nat, m': Memory)
    requires |contract| == CONTRACT_SIZE && AwaitsMagic(m, contract)
    requires m' == Evict(m, i) || m' == Clean(m, i) || (i >= 4 && m' == Fill(m, i))
    ensures AwaitsMagic(m', contract)
  {
  }

  lemma MagicOctets()
    ensures Le32(MAGIC) == [0x44, 0x58, 0x4E, 0x4D]
  {
  }

  /**
   * Why the staging step must invalidate and not only write back: after the commit an uncached
   * reader always sees the contract, but a cached reader sees it exactly when no magic octet was
   * left in the cache.
   */
  lemma CommitVisibility(m: Memory, contract: seq<byte>)
    requires StagedIn(m, contract)
    ensures Committed(m).psram == contract
    ensures CachedView(Committed(m)) == contract <==> forall i :: 0 <= i < 4 ==> i !in m.cache
  {
    var c := Committed(m);
    MagicOctets();
    assert c.psram == contract[..4] + contract[4..] == contract;
    assert forall i :: 4 <= i < CONTRACT_SIZE ==> c.psram[i] == m.psram[i];
    if forall i :: 0 <= i < 4 ==> i !in m.cache {
      forall i | 0 <= i < CONTRACT_SIZE
        ensures CachedView(c)[i] == contract[i]
      {
        assert i < 4 || m.psram[i] == contract[i];
      }
    } else {
      var i :| 0 <= i < 4 && i in m.cache;
      assert ZeroAt(m, i);
      assert CachedView(c)[i] == 0 && contract[..4][i] == contract[i] != 0;
    }
  }

  lemma WrittenBackView(m: Memory)
    requires Coherent(m)
    ensures WrittenBack(m).psram == CachedView(m) == CachedView(WrittenBack(m))
    ensures Coherent(WrittenBack(m)) && Coherent(WrittenBackInvalidated(m))
    ensures CachedView(WrittenBackInvalidated(m)) == CachedView(m)
    ensures MagicZero(m) ==> MagicZero(WrittenBack(m)) && MagicZero(WrittenBackInvalidated(m))
  {
    forall i | 0 <= i < 4
      ensures ZeroAt(m, i) ==> ZeroAt(WrittenBack(m), i) && ZeroAt(WrittenBackInvalidated(m), i)
    {
    }
  }

  /** Either write-back, completed. */
  function Flushed(m: Memory, invalidate: bool): (r: Memory)
    requires Coherent(m)
    ensures Coherent(r) && r.psram == CachedView(m) == CachedView(r) && (MagicZero(m) ==> MagicZero(r))
    ensures (forall i :: i in r.cache ==> !r.cache[i].dirty) && (invalidate ==> r.cache == map[])
  {
    WrittenBackView(m);
    if invalidate then WrittenBackInvalidated(m) else WrittenBack(m)
  }

  /** Evictions, cleaning and fills are invisible to a cached reader and cannot revive the magic. */
  lemma Invisible(m: Memory, i: nat, m': Memory)
    requires Coherent(m) && (m' == Evict(m, i) || m' == Clean(m, i) || m' == Fill(m, i))
    ensures Coherent(m') && CachedView(m') == CachedView(m)
    ensures MagicZero(m) ==> MagicZero(m')
  {
    forall k | 0 <= k < 4
      ensures ZeroAt(m, k) ==> ZeroAt(m', k)
    {
    }
  }

  lemma StoreEffect(m: Memory, i: nat, value: byte)
    requires Coherent(m) && i < CONTRACT_SIZE
    ensures Coherent(Store(m, i, value)) && CachedView(Store(m, i, value)) == CachedView(m)[i := value]
    ensures MagicZero(m) && (i >= 4 || value == 0) ==> MagicZero(Store(m, i, value))
  {
    forall k | 0 <= k < 4 && (i >= 4 || value == 0)
      ensures ZeroAt(m, k) ==> ZeroAt(Store(m, i, value), k)
    {
    }
  }

  /** A `memset` or `memcpy` during which the cache keeps everything. */
  function Stored(m: Memory, start: nat, values: seq<byte>): (r: Memory)
    requires WellFormed(m) && start + |values| <= CONTRACT_SIZE
    ensures WellFormed(r)
    decreases |values|
  {
    if values == [] then m else Stored(Store(m, start, values[0]), start + 1, values[1..])
  }

  /** Such stores stay in the cache: memory is as it was, and every octet written is cached. */
  lemma {:induction false} StoredEffect(m: Memory, start: nat, values: seq<byte>)
    requires Coherent(m) && start + |values| <= CONTRACT_SIZE
    ensures var r := Stored(m, start, values);
            && Coherent(r) && r.psram == m.psram && CachedView(r) == Overlay(CachedView(m), start, values)
            && (forall i :: i in m.cache || start <= i < start + |values| ==> i in r.cache)
    decreases |values|
  {
    if values == [] {
      assert Overlay(CachedView(m), start, values) == CachedView(m);
    } else {
      StoreEffect(m, start, values[0]);
      StoredEffect(Store(m, start, values[0]), start + 1, values[1..]);
      OverlayStep(CachedView(m), start, values);
    }
  }

  lemma OverlayStep(s: seq<byte>, start: nat, values: seq<byte>)
    requires values != [] && start + |values| <= |s|
    ensures Overlay(s[start := values[0]], start + 1, values[1..]) == Overlay(s, start, values)
  {
  }

  lemma OverlayExtend(s: seq<byte>, start: nat, values: seq<byte>, i: nat)
    requires i < |values| && start + |values| <= |s|
    ensures Overlay(s, start, values[..i])[start + i := values[i]] == Overlay(s, start, values[..i + 1])
  {
  }

  lemma OverlayAll(s: seq<byte>, t: seq<byte>)
    requires |s| == |t|
    ensures Overlay(s, 0, t) == t
  {
  }

  /** The stores of the staging step, magic zero, everything else from the contract. */
  function StagingStores(m: Memory, contract: seq<byte>): Memory
    requires WellFormed(m) && |contract| == CONTRACT_SIZE
  {
    Stored(Stored(m, 0, [0, 0, 0, 0]), 4, contract[4..])
  }

  lemma StagingStoresEffect(m: Memory, contract: seq<byte>)
    requires Coherent(m) && |contract| == CONTRACT_SIZE
    ensures var r := StagingStores(m, contract);
            && Coherent(r) && CachedView(r) == Overlay(contract, 0, [0, 0, 0, 0])
            && forall i :: 0 <= i < 4 ==> i in r.cache
  {
    var first := Stored(m, 0, [0, 0, 0, 0]);
    StoredEffect(m, 0, [0, 0, 0, 0]);
    StoredEffect(first, 4, contract[4..]);
    StagedView(CachedView(m), contract);
  }

  /** The magic octets, if cached, still read zero after the uncached commit. */
  lemma StaleMagic(m: Memory, hw: Hardware)
    requires WellFormed(m) && forall i :: 0 <= i < 4 ==> i in m.cache && m.cache[i].value == 0
    ensures Validate(CachedView(Committed(m)), hw) == Rejected("magic")
  {
    ZeroMagic(CachedView(Committed(m)));
  }

  /**
   * Staging followed by a plain write-back and the commit: memory holds the contract, a cached
   * reader rejects it. With the invalidating write-back both see the contract.
   */
  lemma WritebackAloneIsStale(m: Memory, contract: seq<byte>, hw: Hardware)
    requires Coherent(m) && |contract| == CONTRACT_SIZE && contract[..4] == Le32(MAGIC)
    ensures var kept := Committed(WrittenBack(StagingStores(m, contract)));
            kept.psram == contract && Validate(CachedView(kept), hw) == Rejected("magic")
    ensures var dropped := Committed(WrittenBackInvalidated(StagingStores(m, contract)));
            dropped.psram == contract && CachedView(dropped) == contract
  {
    var r := StagingStores(m, contract);
    StagingStoresEffect(m, contract);
    WrittenBackView(r);
    assert forall i :: 0 <= i < 4 ==> CachedView(r)[i] == 0;
    StaleMagic(WrittenBack(r), hw);
    CommitCompletes(WrittenBack(r), contract);
    CommitCompletes(WrittenBackInvalidated(r), contract);
  }

  lemma CommitCompletes(m: Memory, contract: seq<byte>)
    requires WellFormed(m) && |contract| == CONTRACT_SIZE && contract[..4] == Le32(MAGIC)
    requires m.psram == Overlay(contract, 0, [0, 0, 0, 0])
    ensures Committed(m).psram == contract
    ensures m.cache == map[] ==> CachedView(Committed(m)) == contract
  {
    assert m.psram[4..] == contract[4..];
    assert contract == contract[..4] + contract[4..];
  }

  // ---------------------------------------------------------------------------------------------
  // The loader
  // ---------------------------------------------------------------------------------------------

  datatype Outcome = Jumped | Aborted(reason: string)

  function OutcomeOf(problem: Option<string>): Outcome {
    match problem
    case None => Jumped
    case Some(reason) => Aborted(reason)
  }

  type Address = n: nat | n < WORD

  /**
   * How everything outside the loader turns out in one boot: the cache operation and the commands
   * of the early sequence, the addresses the heap gives, the clearing of that memory, the quiescing
   * of the display hardware, loading and verifying the payload, the display state before the
   * handoff, the interrupt routes, the DMA permission unit, the PMP window, the display state
   * before staging, the cache operation of the staging, and that of a clean-up after a failure.
   */
  datatype Plan = Plan(invalidated: bool, commanded: bool, front: Address, descriptors: Address, cleared: bool,
                       quiesced: bool, payload: Option<string>, stateKept: bool, gdmaRouted: bool, sdmmcRouted: bool,
                       dmaPermitted: bool, pmp: Option<string>, usbRouted: bool, registersMatch: bool, flushed: bool,
                       cleaned: bool)

  /** A step that has to succeed. */
  function Step(ok: bool, reason: string): Option<string> {
    When(!ok, reason)
  }

  predicate Reservable(p: Plan) {
    p.front != 0 && p.descriptors != 0 && ReservationPasses(p.front, p.descriptors)
  }

  /** The steps of a boot up to the display handoff, and those after it, in their order. */
  function PrepareSteps(p: Plan): seq<Option<string>> {
    [Step(p.invalidated && p.commanded, "mipi-dsi-early-dark"),
     Step(Reservable(p) && p.cleared && p.quiesced, "mipi-dsi-prepare"),
     p.payload, Step(p.stateKept, "mipi-dsi-handoff")]
  }

  function PublishSteps(p: Plan): seq<Option<string>> {
    [Step(p.gdmaRouted, "gdma-route"), Step(p.sdmmcRouted, "sdmmc-route"), Step(p.dmaPermitted, "dma-pms"),
     p.pmp, Step(p.usbRouted, "usb-serial-jtag-route"),
     Step(p.registersMatch && p.flushed, "mipi-dsi-cold-stage")]
  }

  function BootSteps(revision: nat, p: Plan): seq<Option<string>> {
    [Step(revision == 103, "unsupported-silicon-revision")] + PrepareSteps(p) + PublishSteps(p)
  }

  /** What stops the two halves of a boot. */
  function PrepareProblem(p: Plan): Option<string> {
    var s := PrepareSteps(p);
    Then(s[0], Then(s[1], Then(s[2], s[3])))
  }

  function PublishProblem(p: Plan): Option<string> {
    var s := PublishSteps(p);
    Then(s[0], Then(s[1], Then(s[2], Then(s[3], Then(s[4], s[5])))))
  }

  lemma BootFirst(revision: nat, p: Plan)
    ensures First(BootSteps(revision, p))
            == Then(Step(revision == 103, "unsupported-silicon-revision"),
                    Then(PrepareProblem(p), PublishProblem(p)))
  {
    var a, b := PrepareSteps(p), PublishSteps(p);
    FirstOfFour(a[0], a[1], a[2], a[3]);
    FirstOfSix(b[0], b[1], b[2], b[3], b[4], b[5]);
    var first := [Step(revision == 103, "unsupported-silicon-revision")];
    FirstJoin(first, PrepareSteps(p));
    FirstJoin(first + PrepareSteps(p), PublishSteps(p));
    FirstOfOne(first[0]);
  }

  /** The static state of the cold path. */
  class Loader {
    /** What the hardware does in this boot, and whether nothing ever gets from the cache into memory. */
    const plan: Plan
    const stuck: bool
    var memory: Memory
    var frontPointer: nat
    var descriptorPointer: nat
    var policyReady: bool
    var externalReady: bool
    var quiescenceReady: bool
    var handoffReady: bool
    var contractStaged: bool
    /** Every state the contract memory has gone through, the current one last. */
    ghost var trace: seq<Memory>
    /** Where in the trace an invalidation first completed; -1 before that. */
    ghost var invalidatedAt: int

    ghost predicate Valid()
      reads this
    {
      TraceGood() && FlagsOrdered() && (stuck ==> !plan.invalidated && !plan.cleaned && !plan.flushed)
    }

    /** A zero magic has never been revived, and the recorded invalidation did wipe the contract. */
    ghost predicate TraceGood()
      reads this`memory, this`trace, this`invalidatedAt
    {
      && Coherent(memory)
      && |trace| > 0 && trace[|trace| - 1] == memory && Sticky(trace)
      && invalidatedAt < |trace|
      && (invalidatedAt >= 0 ==> Wiped(trace[invalidatedAt]) && MagicZero(memory))
    }

    /** Each readiness flag implies the ones it was gated on. */
    ghost predicate FlagsOrdered()
      reads this
    {
      && (externalReady ==> invalidatedAt >= 0)
      && (policyReady ==> Reservation())
      && (quiescenceReady ==> externalReady && policyReady)
      && (handoffReady ==> quiescenceReady)
      && (contractStaged ==> handoffReady && AwaitsMagic(memory, Published()))
    }

    /** The addresses are those of a reservation that passed its checks. */
    ghost predicate Reservation()
      reads this`frontPointer, this`descriptorPointer
    {
      Reserved(BusAddress(frontPointer), BusAddress(descriptorPointer))
    }

    function Published(): (blob: seq<byte>)
      reads this`frontPointer, this`descriptorPointer
      ensures |blob| == CONTRACT_SIZE
    {
      Contract(BusAddress(frontPointer), BusAddress(descriptorPointer))
    }

    /** Static initialisation, over whatever a previous boot left in memory. */
    constructor (m: Memory, plan: Plan, stuck: bool)
      requires Coherent(m) && (stuck ==> !plan.invalidated && !plan.cleaned && !plan.flushed)
      ensures Valid() && memory == m && trace == [m] && invalidatedAt == -1
      ensures this.plan == plan && this.stuck == stuck
      ensures !policyReady && !externalReady && !quiescenceReady && !handoffReady && !contractStaged
    {
      memory, this.plan, this.stuck := m, plan, stuck;
      frontPointer, descriptorPointer := 0, 0;
      policyReady, externalReady, quiescenceReady, handoffReady, contractStaged := false, false, false, false, false;
      trace, invalidatedAt := [m], -1;
    }

    /** One atomic change of the memory. */
    method Become(m: Memory)
      requires Valid() && Coherent(m) && (MagicZero(memory) ==> MagicZero(m))
      requires contractStaged ==> AwaitsMagic(m, Published())
      modifies this`memory, this`trace
      ensures Valid() && memory == m && trace == old(trace) + [m]
    {
      StickyStep(trace, m);
      memory := m;
      trace := trace + [m];
    }

    /**
     * Any number of evictions, cleanings and fills. Between staging and commit nothing accesses the
     * line of the magic through the cache, so no magic octet is filled.
     */
    method Environment()
      requires Valid()
      modifies this`memory, this`trace
      ensures Valid() && CachedView(memory) == old(CachedView(memory)) && old(trace) <= trace
      ensures stuck ==> memory.psram == old(memory.psram)
    {
      var steps: nat := *;
      while steps > 0
        invariant Valid() && CachedView(memory) == old(CachedView(memory)) && old(trace) <= trace
        invariant stuck ==> memory.psram == old(memory.psram)
      {
        Disturbance();
        steps := steps - 1;
      }
    }

    method Disturbance()
      requires Valid()
      modifies this`memory, this`trace
      ensures Valid() && CachedView(memory) == old(CachedView(memory)) && trace == old(trace) + [memory]
      ensures stuck ==> memory.psram == old(memory.psram)
    {
      var i: nat, keep: bool, fill: bool := *, *, *;
      if contractStaged && i < 4 {
        i := 4;
      }
      var m := if fill || stuck then Fill(memory, i)
               else if keep then Clean(memory, i) else Evict(memory, i);
      Invisible(memory, i, m);
      if contractStaged {
        AwaitsMagicStays(memory, Published(), i, m);
      }
      Become(m);
    }

    /** A cached store, of zero where it goes to the magic. */
    method StoreOctet(i: nat, value: byte)
      requires Valid() && !contractStaged && i < CONTRACT_SIZE && (i >= 4 || value == 0)
      modifies this`memory, this`trace
      ensures Valid() && CachedView(memory) == old(CachedView(memory))[i := value] && old(trace) <= trace
      ensures stuck ==> memory.psram == old(memory.psram)
    {
      Environment();
      StoreEffect(memory, i, value);
      Become(Store(memory, i, value));
    }

    /** `memset` or `memcpy` into the contract. */
    method StoreOctets(start: nat, values: seq<byte>)
      requires Valid() && !contractStaged && start + |values| <= CONTRACT_SIZE
      requires start >= 4 || forall b :: b in values ==> b == 0
      modifies this`memory, this`trace
      ensures Valid() && CachedView(memory) == Overlay(old(CachedView(memory)), start, values)
      ensures old(trace) <= trace && (stuck ==> memory.psram == old(memory.psram))
    {
      ghost var before := CachedView(memory);
      for i := 0 to |values|
        invariant Valid() && CachedView(memory) == Overlay(before, start, values[..i]) && old(trace) <= trace
        invariant stuck ==> memory.psram == old(memory.psram)
      {
        assert values[i] in values;
        StoreOctet(start + i, values[i]);
        OverlayExtend(before, start, values, i);
      }
      assert values[..|values|] == values;
    }

    /** `cold_cache_writeback[_invalidate]`; a failed call may still have done part of the work. */
    method CacheWriteback(invalidate: bool, works: bool) returns (ok: bool)
      requires Valid() && !contractStaged && (stuck ==> !works)
      modifies this`memory, this`trace
      ensures Valid() && CachedView(memory) == old(CachedView(memory)) && old(trace) <= trace
      ensures ok ==> memory.psram == CachedView(memory) && forall i :: i in memory.cache ==> !memory.cache[i].dirty
      ensures ok && invalidate ==> memory.cache == map[]
      ensures ok ==> |trace| > |old(trace)|
      ensures ok == works && (stuck ==> memory.psram == old(memory.psram))
    {
      Environment();
      ok := works;
      if ok {
        Become(Flushed(memory, invalidate));
      }
    }

    method ClearContract()
      requires Valid() && !contractStaged
      modifies this`memory, this`trace
      ensures Valid() && CachedView(memory) == Zeros(CONTRACT_SIZE)
      ensures old(trace) <= trace && (stuck ==> memory.psram == old(memory.psram))
    {
      StoreOctets(0, Zeros(CONTRACT_SIZE));
      OverlayAll(old(CachedView(memory)), Zeros(CONTRACT_SIZE));
    }

    /** `cold_invalidate_contract`: once its write-back completes, zeros for every reader. */
    method InvalidateContract(works: bool) returns (ok: bool)
      requires Valid() && !contractStaged && (stuck ==> !works)
      modifies this`memory, this`trace, this`invalidatedAt
      ensures Valid() && old(trace) <= trace
      ensures CachedView(memory) == Zeros(CONTRACT_SIZE) && (ok ==> Wiped(memory))
      ensures invalidatedAt == if ok && old(invalidatedAt) < 0 then |trace| - 1 else old(invalidatedAt)
      ensures ok ==> |trace| > |old(trace)|
      ensures ok == works && (stuck ==> memory.psram == old(memory.psram))
    {
      ClearContract();
      ok := CacheWriteback(false, works);
      if ok {
        WipedIsZero(memory);
        if invalidatedAt < 0 {
          invalidatedAt := |trace| - 1;
        }
      }
    }

    /** `micronux_mipi_dsi_cold_early_dark`. */
    method EarlyDark() returns (ok: bool)
      requires Valid() && !contractStaged
      modifies this
      ensures Valid() && old(trace) <= trace && !contractStaged && policyReady == old(policyReady)
      ensures ok == (plan.invalidated && plan.commanded)
      ensures (ok ==> externalReady) && (plan.invalidated ==> invalidatedAt >= 0)
      ensures stuck ==> memory.psram == old(memory.psram)
      ensures invalidatedAt == old(invalidatedAt) || (old(invalidatedAt) < 0 && invalidatedAt >= |old(trace)|)
      ensures CachedView(memory) == Zeros(CONTRACT_SIZE)
    {
      ok := InvalidateContract(plan.invalidated);
      if ok {
        Environment();
        ok := plan.commanded;
        if ok {
          externalReady := true;
        }
      }
    }

    /** `micronux_mipi_dsi_cold_fail_cleanup`, whose results are ignored. */
    method FailCleanup()
      requires Valid() && !contractStaged
      modifies this`memory, this`trace, this`invalidatedAt
      ensures Valid() && old(trace) <= trace && CachedView(memory) == Zeros(CONTRACT_SIZE)
      ensures plan.cleaned ==> MagicZero(memory) && invalidatedAt >= 0
      ensures stuck ==> memory.psram == old(memory.psram)
      ensures invalidatedAt == old(invalidatedAt) || (old(invalidatedAt) < 0 && invalidatedAt >= |old(trace)|)
    {
      var _ := InvalidateContract(plan.cleaned);
      Environment();
    }

    /** `cold_reserve_dma_memory`. */
    method ReserveDmaMemory() returns (ok: bool)
      requires Valid() && !policyReady
      modifies this
      ensures Valid() && old(trace) <= trace && invalidatedAt == old(invalidatedAt)
      ensures externalReady == old(externalReady) && !contractStaged
      ensures CachedView(memory) == old(CachedView(memory))
      ensures frontPointer == plan.front && descriptorPointer == plan.descriptors
      ensures (ok <==> policyReady) && ok == (Reservable(plan) && plan.cleared)
    {
      frontPointer, descriptorPointer := plan.front, plan.descriptors;
      Environment();
      ok := frontPointer != 0 && descriptorPointer != 0
            && ReservationPasses(frontPointer, descriptorPointer) && plan.cleared;
      if ok {
        ReservationMeaning(frontPointer, descriptorPointer);
        policyReady := true;
      }
    }

    /** `micronux_mipi_dsi_cold_prepare`. */
    method Prepare() returns (ok: bool)
      requires Valid() && !policyReady
      modifies this
      ensures Valid() && old(trace) <= trace && invalidatedAt == old(invalidatedAt) && !contractStaged
      ensures externalReady == old(externalReady)
      ensures CachedView(memory) == old(CachedView(memory))
      ensures ok == (externalReady && Reservable(plan) && plan.cleared && plan.quiesced)
      ensures ok ==> quiescenceReady && frontPointer == plan.front && descriptorPointer == plan.descriptors
    {
      if !externalReady {
        return false;
      }
      ok := ReserveDmaMemory();
      if ok {
        Environment();
        ok := plan.quiesced;
        if ok {
          quiescenceReady := true;
        }
      }
    }

    /** `micronux_mipi_dsi_cold_handoff`. */
    method Handoff() returns (ok: bool)
      requires Valid() && !contractStaged
      modifies this`memory, this`trace, this`handoffReady
      ensures Valid() && old(trace) <= trace && CachedView(memory) == old(CachedView(memory))
      ensures ok == (externalReady && quiescenceReady && policyReady && plan.stateKept)
      ensures ok ==> handoffReady
    {
      Environment();
      ok := externalReady && quiescenceReady && policyReady && plan.stateKept;
      if ok {
        handoffReady := true;
      }
    }

    /** Everything but the magic goes through the cache and is then pushed out of it. */
    method StageOctets(contract: seq<byte>) returns (ok: bool)
      requires Valid() && !contractStaged && |contract| == CONTRACT_SIZE
      modifies this`memory, this`trace
      ensures Valid() && old(trace) <= trace
      ensures ok ==> memory.cache == map[] && memory.psram == Overlay(contract, 0, [0, 0, 0, 0])
      ensures ok == plan.flushed
    {
      StoreOctets(0, [0, 0, 0, 0]);
      StoreOctets(4, contract[4..]);
      StagedView(old(CachedView(memory)), contract);
      ok := CacheWriteback(true, plan.flushed);
    }

    /** `micronux_mipi_dsi_cold_stage`. */
    method Stage() returns (ok: bool)
      requires Valid() && !contractStaged
      modifies this`memory, this`trace, this`contractStaged
      ensures Valid() && old(trace) <= trace
      ensures (ok <==> contractStaged) && (ok ==> memory.cache == map[])
      ensures ok == (handoffReady && policyReady && plan.registersMatch && plan.flushed)
    {
      if !(handoffReady && policyReady && plan.registersMatch) {
        Environment();
        return false;
      }
      var contract := Published();
      ok := StageOctets(contract);
      if ok {
        contractStaged := true;
      }
    }

    /** `micronux_mipi_dsi_cold_commit`: the last write. */
    method Commit()
      requires Valid() && contractStaged
      modifies this`memory, this`trace
      ensures trace == old(trace) + [memory] && memory == Committed(old(memory))
      ensures memory.psram == Published() && CachedView(memory) == Published()
    {
      CommittedContract(memory, BusAddress(frontPointer), BusAddress(descriptorPointer));
      memory := Committed(memory);
      trace := trace + [memory];
    }

    /** `fail`: clean up if the external sequence was started, then abort. */
    method Fail(reason: string, externalStarted: bool) returns (outcome: Outcome)
      requires Valid() && !contractStaged
      modifies this`memory, this`trace, this`invalidatedAt
      ensures outcome == Aborted(reason) && Valid() && old(trace) <= trace
      ensures invalidatedAt == old(invalidatedAt) || (old(invalidatedAt) < 0 && invalidatedAt >= |old(trace)|)
      ensures externalStarted ==> CachedView(memory) == Zeros(CONTRACT_SIZE)
      ensures externalStarted && plan.cleaned ==> MagicZero(memory) && invalidatedAt >= 0
      ensures stuck ==> memory.psram == old(memory.psram)
      ensures !externalStarted ==> invalidatedAt == old(invalidatedAt) && memory == old(memory) && trace == old(trace)
    {
      if externalStarted {
        FailCleanup();
      }
      outcome := Aborted(reason);
    }

    /** The preparation half of `app_main`, up to the display handoff. */
    method PrepareBoot() returns (problem: Option<string>)
      requires Valid() && !policyReady && !contractStaged
      modifies this
      ensures Valid() && !contractStaged && old(trace) <= trace
      ensures invalidatedAt == old(invalidatedAt) || (old(invalidatedAt) < 0 && invalidatedAt >= |old(trace)|)
      ensures problem == PrepareProblem(plan) && (problem == None ==> handoffReady)
      ensures problem == None ==> frontPointer == plan.front && descriptorPointer == plan.descriptors
      ensures plan.invalidated ==> invalidatedAt >= 0
      ensures problem == None ==> plan.invalidated
      ensures stuck ==> memory.psram == old(memory.psram)
    {
      var ok := EarlyDark();
      if !ok {
        return Some("mipi-dsi-early-dark");
      }
      ok := Prepare();
      if !ok {
        return Some("mipi-dsi-prepare");
      }
      Environment(); // storage, manifest, kernel and device tree loading, verification
      if plan.payload.Some? {
        return plan.payload;
      }
      ok := Handoff();
      if !ok {
        return Some("mipi-dsi-handoff");
      }
      problem := None;
    }

    /** The publishing half: interrupt routes, DMA and PMP windows, then the staged contract. */
    method PublishBoot() returns (problem: Option<string>)
      requires Valid() && !contractStaged
      modifies this`memory, this`trace, this`contractStaged
      ensures Valid() && old(trace) <= trace
      ensures problem == None <==> contractStaged
      ensures handoffReady ==> problem == PublishProblem(plan)
    {
      problem := InstallPolicies();
      if problem.Some? {
        return;
      }
      var ok := Stage();
      if !ok || !contractStaged {
        return Some(if ok then "mipi-dsi-cold-stage-invariant" else "mipi-dsi-cold-stage");
      }
    }

    /** Interrupt routes, DMA permissions, PMP window. */
    method InstallPolicies() returns (problem: Option<string>)
      requires Valid() && !contractStaged
      modifies this`memory, this`trace
      ensures Valid() && old(trace) <= trace
      ensures var steps := PublishSteps(plan);
              problem == Then(steps[0], Then(steps[1], Then(steps[2], Then(steps[3], steps[4]))))
    {
      Environment();
      if !plan.gdmaRouted {
        return Some("gdma-route");
      }
      Environment();
      if !plan.sdmmcRouted {
        return Some("sdmmc-route");
      }
      Environment();
      if !plan.dmaPermitted {
        return Some("dma-pms");
      }
      Environment();
      if plan.pmp.Some? {
        return plan.pmp;
      }
      Environment();
      if !plan.usbRouted {
        return Some("usb-serial-jtag-route");
      }
      problem := None;
    }

    /** The state every successful boot hands to Linux: only the very last write revives the magic. */
    ghost predicate Handed()
      reads this
    {
      && Reservation() && WellFormed(memory) && memory.psram == Published() == CachedView(memory)
      && externalReady && quiescenceReady && policyReady && handoffReady && contractStaged
      && 0 <= invalidatedAt < |trace| - 1 && Wiped(trace[invalidatedAt])
      && trace[|trace| - 1] == memory && Sticky(trace[..|trace| - 1])
    }

    /** The state every failed boot leaves behind. */
    ghost predicate Abandoned()
      reads this
    {
      Coherent(memory) && !contractStaged && trace != [] && trace[|trace| - 1] == memory && Sticky(trace)
    }

    /** Giving up a boot that began with `start` states behind it. */
    method AbandonBoot(reason: string, ghost start: nat) returns (outcome: Outcome)
      requires Valid() && !contractStaged && start <= |trace| && (invalidatedAt < 0 || start <= invalidatedAt)
      modifies this`memory, this`trace, this`invalidatedAt
      ensures outcome == Aborted(reason) && Abandoned() && old(trace) <= trace
      ensures CachedView(memory) == Zeros(CONTRACT_SIZE)
      ensures plan.cleaned || old(invalidatedAt) >= 0 ==> MagicZero(memory) && WipedSince(trace, start)
      ensures stuck ==> memory.psram == old(memory.psram)
    {
      outcome := Fail(reason, true);
    }

    method FinishBoot() returns (outcome: Outcome)
      requires Valid() && contractStaged
      modifies this`memory, this`trace
      ensures outcome == Jumped && Handed() && old(trace) <= trace
    {
      Environment(); // interrupts off, cores stalled, interrupt controller prepared
      ghost var quiet := trace;
      Commit();
      assert trace[..|trace| - 1] == quiet;
      outcome := Jumped;
    }

    /**
     * The cold profile of `app_main`, whatever fails and whatever the cache does.
     *
     * It jumps if and only if every step succeeds, and else aborts with the reason of the first that
     * fails. In every boot a magic that is zero for all readers stays zero in every later state; only
     * the very last state of a boot that jumps shows anything else, and that shows every reader the
     * whole contract of the addresses reserved. Such a boot has wiped the contract on its way. A boot
     * that fails on supported silicon leaves every cached reader a zero contract, and every reader a
     * zero magic if the invalidation at its start or the one at its end gets through; a cache that
     * nothing leaves leaves memory as it was. On other silicon it stops before touching an old contract.
     */
    method AppMain(revision: nat) returns (outcome: Outcome)
      requires Valid() && invalidatedAt == -1
      requires !policyReady && !externalReady && !quiescenceReady && !handoffReady && !contractStaged
      modifies this
      ensures old(trace) <= trace
      ensures outcome == OutcomeOf(First(BootSteps(revision, plan)))
      ensures outcome.Jumped? ==>
                && Handed() && |old(trace)| <= invalidatedAt
                && frontPointer == plan.front && descriptorPointer == plan.descriptors
      ensures outcome.Aborted? ==> Abandoned()
      ensures outcome.Aborted? && revision == SILICON_REVISION ==> CachedView(memory) == Zeros(CONTRACT_SIZE)
      ensures outcome.Aborted? && revision == SILICON_REVISION && (plan.invalidated || plan.cleaned) ==>
                MagicZero(memory) && WipedSince(trace, |old(trace)|)
      ensures outcome.Aborted? && WipedSince(trace, 0) ==> MagicZero(memory)
      ensures stuck ==> outcome.Aborted? && memory.psram == old(memory.psram)
      ensures revision != SILICON_REVISION ==> memory == old(memory) && trace == old(trace)
    {
      BootFirst(revision, plan);
      if revision != SILICON_REVISION {
        outcome := Fail("unsupported-silicon-revision", false);
        return;
      }
      outcome := Boot();
    }

    /** The same on supported silicon. */
    method Boot() returns (outcome: Outcome)
      requires Valid() && invalidatedAt == -1
      requires !policyReady && !externalReady && !quiescenceReady && !handoffReady && !contractStaged
      modifies this
      ensures old(trace) <= trace && outcome == OutcomeOf(Then(PrepareProblem(plan), PublishProblem(plan)))
      ensures outcome.Jumped? ==>
                && Handed() && |old(trace)| <= invalidatedAt
                && frontPointer == plan.front && descriptorPointer == plan.descriptors
      ensures outcome.Aborted? ==> Abandoned() && CachedView(memory) == Zeros(CONTRACT_SIZE)
      ensures outcome.Aborted? && (plan.invalidated || plan.cleaned) ==>
                MagicZero(memory) && WipedSince(trace, |old(trace)|)
      ensures stuck ==> outcome.Aborted? && memory.psram == old(memory.psram)
    {
      ghost var start := |trace|;
      var problem := PrepareBoot();
      if problem == None {
        problem := PublishBoot();
      }
      if problem.Some? {
        outcome := AbandonBoot(problem.value, start);
      } else {
        outcome := FinishBoot();
      }
    }
  }

  /** A boot jumps if and only if nothing fails. */
  lemma JumpsExactly(revision: nat, p: Plan)
    ensures First(BootSteps(revision, p)) == None
            <==> && revision == 103 && p.invalidated && p.commanded && Reservable(p) && p.cleared && p.quiesced
                 && p.payload == None && p.stateKept && p.gdmaRouted && p.sdmmcRouted && p.dmaPermitted
                 && p.pmp == None && p.usbRouted && p.registersMatch && p.flushed
  {
    BootFirst(revision, p);
  }

  lemma StagedView(before: seq<byte>, contract: seq<byte>)
    requires |before| == CONTRACT_SIZE == |contract|
    ensures Overlay(Overlay(before, 0, [0, 0, 0, 0]), 4, contract[4..]) == Overlay(contract, 0, [0, 0, 0, 0])
  {
  }

  /** With no magic octet cached, setting the magic completes the contract for every reader. */
  lemma CommittedContract(m: Memory, front: nat, descriptors: nat)
    requires AwaitsMagic(m, Contract(front, descriptors))
    ensures Committed(m).psram == Contract(front, descriptors) == CachedView(Committed(m))
  {
    assert Contract(front, descriptors)[..4] == Le32(MAGIC);
    AwaitsMagicIsStaged(m, Contract(front, descriptors));
    CommitVisibility(m, Contract(front, descriptors));
  }

  /** What Linux concludes after a jump. */
  lemma JumpedIsAccepted(m: Memory, front: nat, descriptors: nat, hw: Hardware)
    requires WellFormed(m) && m.psram == Contract(front, descriptors) == CachedView(m)
    requires Reserved(front, descriptors) && HardwareReady(hw, front, descriptors)
    ensures Validate(m.psram, hw) == Accepted && Validate(CachedView(m), hw) == Accepted
  {
    LoaderContractAccepted(front, descriptors, hw);
  }

  /**
   * Why the invalidation only counts once its write-back completes: zeros that never leave the
   * cache hide an old contract from cached readers but not from memory.
   */
  lemma UnwrittenZeros(blob: seq<byte>, hw: Hardware)
    requires |blob| == CONTRACT_SIZE && Validate(blob, hw) == Accepted
    ensures var m := Stored(Memory(blob, map[]), 0, Zeros(CONTRACT_SIZE));
            && Coherent(m) && Validate(m.psram, hw) == Accepted
            && CachedView(m) == Zeros(CONTRACT_SIZE) && Validate(CachedView(m), hw) == Rejected("magic")
  {
    ZeroStores(blob);
    ZeroMagic(Zeros(CONTRACT_SIZE));
  }

  lemma ZeroStores(blob: seq<byte>)
    requires |blob| == CONTRACT_SIZE
    ensures var m := Stored(Memory(blob, map[]), 0, Zeros(CONTRACT_SIZE));
            Coherent(m) && m.psram == blob && CachedView(m) == Zeros(CONTRACT_SIZE)
  {
    var before := Memory(blob, map[]);
    StoredEffect(before, 0, Zeros(CONTRACT_SIZE));
    OverlayAll(CachedView(before), Zeros(CONTRACT_SIZE));
  }

  lemma WipedIsZero(m: Memory)
    requires Wiped(m)
    ensures MagicZero(m)
  {
  }
}
