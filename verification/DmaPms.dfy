/**
 * The DMA permission unit: 31 masters with a read and a write permission register each, 32 address
 * regions, and the allowlist the loader installs in them and reads back.
 */
module DmaPms {
  import opened Bytes
  import opened ColdContract

  const REGION_COUNT := 32
  const PERMISSION_COUNT := 62
  const SDMMC_READ := 40
  const SDMMC_WRITE := 41
  const WINDOW := Range(0x4FF8_0000, 0x4FF8_2000)
  const EMPTY := Range(0xFFFF_F000, 0)
  const SDMMC_MASK := 1

  /** The display's share: none, or four regions and the channel they belong to. */
  datatype Display = Inactive | Active(regions: seq<Range>, channel: nat)

  predicate Complete(d: Display) {
    d.Active? ==> |d.regions| == 4
  }

  // ---------------------------------------------------------------------------------------------
  // The register file and what it grants
  // ---------------------------------------------------------------------------------------------

  /**
   * Permission registers in the loader's table order, read before write for each master, and the
   * bounds of the regions.
   */
  datatype Registers = Registers(permission: seq<nat>, low: seq<nat>, high: seq<nat>)

  predicate Shaped(regs: Registers) {
    |regs.permission| == PERMISSION_COUNT && |regs.low| == REGION_COUNT && |regs.high| == REGION_COUNT
  }

  predicate Bit(v: nat, n: nat)
    decreases n
  {
    if n == 0 then v % 2 == 1 else Bit(v / 2, n - 1)
  }

  /** Whether the master and direction of permission register `i` may access address `a`. */
  predicate Granted(regs: Registers, i: nat, a: nat)
    requires Shaped(regs) && i < PERMISSION_COUNT
  {
    exists r :: 0 <= r < REGION_COUNT && Bit(regs.permission[i], r) && regs.low[r] <= a < regs.high[r]
  }

  /** The address bits a region register keeps. */
  function Masked(a: nat): nat {
    a / 0x1000 * 0x1000
  }

  predicate Covers(r: Range, a: nat) {
    Masked(r.start) <= a < Masked(r.end)
  }

  /** The allowlist: SD card to its bounce window, display channel to its own regions, no one else. */
  predicate Allowed(d: Display, i: nat, a: nat)
    requires Complete(d)
  {
    || ((i == SDMMC_READ || i == SDMMC_WRITE) && WINDOW.start <= a < WINDOW.end)
    || (d.Active? && i == 2 * d.channel
        && (Covers(d.regions[0], a) || Covers(d.regions[1], a) || Covers(d.regions[2], a)))
    || (d.Active? && i == 2 * d.channel + 1 && (Covers(d.regions[2], a) || Covers(d.regions[3], a)))
  }

  /** Nothing outside the allowlist is granted. */
  ghost predicate Within(regs: Registers, d: Display)
    requires Shaped(regs) && Complete(d)
  {
    forall i: nat, a: nat :: i < PERMISSION_COUNT && Granted(regs, i, a) ==> Allowed(d, i, a)
  }

  ghost predicate Exact(regs: Registers, d: Display)
    requires Shaped(regs) && Complete(d)
  {
    forall i: nat, a: nat :: i < PERMISSION_COUNT ==> (Granted(regs, i, a) <==> Allowed(d, i, a))
  }

  // ---------------------------------------------------------------------------------------------
  // The values the loader means to install
  // ---------------------------------------------------------------------------------------------

  function Mask(d: Display, i: nat): nat {
    if i == SDMMC_READ || i == SDMMC_WRITE then SDMMC_MASK
    else if d.Active? && i == 2 * d.channel then READ_MASK
    else if d.Active? && i == 2 * d.channel + 1 then WRITE_MASK
    else 0
  }

  function Region(d: Display, r: nat): Range
    requires Complete(d)
  {
    if r == 0 then WINDOW
    else if d.Active? && r <= 4 then d.regions[r - 1]
    else EMPTY
  }

  /** The first `n` regions hold what they should. */
  predicate RegionsSet(regs: Registers, d: Display, n: nat)
    requires Shaped(regs) && Complete(d) && n <= REGION_COUNT
  {
    forall r :: 0 <= r < n ==>
      regs.low[r] == Masked(Region(d, r).start) && regs.high[r] == Masked(Region(d, r).end)
  }

  /** Every register holds what the loader means to install. */
  predicate Installed(regs: Registers, d: Display)
    requires Shaped(regs) && Complete(d)
  {
    RegionsSet(regs, d, REGION_COUNT) && forall i :: 0 <= i < PERMISSION_COUNT ==> regs.permission[i] == Mask(d, i)
  }

  lemma {:induction false} NoBits(n: nat)
    ensures !Bit(0, n)
  {
    if n > 0 {
      NoBits(n - 1);
    }
  }

  /** The three masks, bit by bit. */
  lemma MaskBits(n: nat)
    ensures Bit(SDMMC_MASK, n) <==> n == 0
    ensures Bit(READ_MASK, n) <==> 1 <= n <= 3
    ensures Bit(WRITE_MASK, n) <==> 3 <= n <= 4
  {
    if n >= 1 {
      NoBits(n - 1);
      assert Bit(1, n) == Bit(0, n - 1) && Bit(14, n) == Bit(7, n - 1) && Bit(24, n) == Bit(12, n - 1);
    }
    if n >= 2 {
      NoBits(n - 2);
      assert Bit(7, n - 1) == Bit(3, n - 2) && Bit(12, n - 1) == Bit(6, n - 2);
    }
    if n >= 3 {
      NoBits(n - 3);
      assert Bit(3, n - 2) == Bit(1, n - 3) && Bit(6, n - 2) == Bit(3, n - 3);
    }
    if n >= 4 {
      NoBits(n - 4);
      assert Bit(1, n - 3) == Bit(0, n - 4) && Bit(3, n - 3) == Bit(1, n - 4);
    }
    if n >= 5 {
      NoBits(n - 5);
      assert Bit(1, n - 4) == Bit(0, n - 5);
    }
  }

  /** With the regions set, a register that holds its mask grants exactly its share. */
  lemma ShareExact(regs: Registers, d: Display, i: nat, a: nat)
    requires Shaped(regs) && Complete(d) && (d.Active? ==> d.channel < 4) && i < PERMISSION_COUNT
    requires RegionsSet(regs, d, REGION_COUNT) && regs.permission[i] == Mask(d, i)
    ensures Granted(regs, i, a) <==> Allowed(d, i, a)
  {
    forall r | 0 <= r < REGION_COUNT
      ensures !Bit(0, r)
      ensures Bit(SDMMC_MASK, r) <==> r == 0
      ensures Bit(READ_MASK, r) <==> 1 <= r <= 3
      ensures Bit(WRITE_MASK, r) <==> 3 <= r <= 4
    {
      NoBits(r);
      MaskBits(r);
    }
    if Allowed(d, i, a) {
      ShareGranted(regs, d, i, a);
    }
  }

  lemma ShareGranted(regs: Registers, d: Display, i: nat, a: nat)
    requires Shaped(regs) && Complete(d) && (d.Active? ==> d.channel < 4) && i < PERMISSION_COUNT
    requires RegionsSet(regs, d, REGION_COUNT) && regs.permission[i] == Mask(d, i) && Allowed(d, i, a)
    ensures Granted(regs, i, a)
  {
    var r := if i == SDMMC_READ || i == SDMMC_WRITE then 0
             else if i == 2 * d.channel then
               (if Covers(d.regions[0], a) then 1 else if Covers(d.regions[1], a) then 2 else 3)
             else if Covers(d.regions[2], a) then 3 else 4;
    MaskBits(r);
    assert Bit(regs.permission[i], r) && regs.low[r] <= a < regs.high[r];
  }

  predicate Denied(regs: Registers)
    requires Shaped(regs)
  {
    forall i :: 0 <= i < PERMISSION_COUNT ==> regs.permission[i] == 0
  }

  /** Each permission register is clear or holds its mask. */
  predicate Partial(regs: Registers, d: Display)
    requires Shaped(regs)
  {
    forall i :: 0 <= i < PERMISSION_COUNT ==> regs.permission[i] == 0 || regs.permission[i] == Mask(d, i)
  }

  lemma DeniedGrantsNothing(regs: Registers, d: Display, i: nat, a: nat)
    requires Shaped(regs) && i < PERMISSION_COUNT && regs.permission[i] == 0
    ensures !Granted(regs, i, a)
  {
    forall r | 0 <= r < REGION_COUNT
      ensures !Bit(0, r)
    {
      NoBits(r);
    }
  }

  /** What every register state after the zeroing loop satisfies. */
  ghost predicate Safe(regs: Registers, d: Display)
    requires Complete(d)
  {
    && Shaped(regs)
    && (Denied(regs)
        || (RegionsSet(regs, d, REGION_COUNT) && Partial(regs, d) && (d.Active? ==> d.channel < 4)))
  }

  lemma SafeIsWithin(regs: Registers, d: Display)
    requires Complete(d) && Safe(regs, d)
    ensures Within(regs, d)
  {
    forall i: nat, a: nat | i < PERMISSION_COUNT && Granted(regs, i, a)
      ensures Allowed(d, i, a)
    {
      if regs.permission[i] == 0 {
        DeniedGrantsNothing(regs, d, i, a);
      } else {
        ShareExact(regs, d, i, a);
      }
    }
  }

  lemma InstalledIsExact(regs: Registers, d: Display)
    requires Shaped(regs) && Complete(d) && (d.Active? ==> d.channel < 4) && Installed(regs, d)
    ensures Exact(regs, d)
  {
    forall i: nat, a: nat | i < PERMISSION_COUNT
      ensures Granted(regs, i, a) <==> Allowed(d, i, a)
    {
      ShareExact(regs, d, i, a);
    }
  }

  /** With the loader's own reservation no master reaches kernel, user or communication memory. */
  lemma NeverReachable(front: nat, descriptors: nat, i: nat, a: nat)
    requires Reserved(front, descriptors)
    requires || KERNEL_RAM.start <= a < KERNEL_RAM.end || USER_POOL.start <= a < USER_POOL.end
             || COMMS_POOL.start <= a < COMMS_POOL.end
    ensures !Allowed(Active(PolicyRegions(front, descriptors), 0), i, a)
    ensures !Allowed(Inactive, i, a)
  {
    PolicyIsExact(front, descriptors);
  }

  /** And the regions mean the very ranges they were computed from: the unit's masking cuts nothing. */
  lemma ReservationUnmasked(front: nat, descriptors: nat, k: nat, a: nat)
    requires Reserved(front, descriptors) && k < 4
    ensures var r := PolicyRegions(front, descriptors)[k]; Covers(r, a) <==> r.start <= a < r.end
  {
    PolicyIsExact(front, descriptors);
  }

  // ---------------------------------------------------------------------------------------------
  // What Linux reads of it
  // ---------------------------------------------------------------------------------------------

  /** Linux reads regions 1 to 4 and the two registers of channel 0. */
  predicate ReadFrom(hw: Hardware, regs: Registers)
    requires Shaped(regs)
  {
    && hw.pmsRegions == seq(4, k requires 0 <= k < 4 => Range(regs.low[k + 1], regs.high[k + 1]))
    && hw.readMask == regs.permission[0] && hw.writeMask == regs.permission[1]
  }

  /** The hardware as the loader leaves it, the permission unit aside. */
  predicate ReadyOtherwise(hw: Hardware, front: nat, descriptors: nat) {
    HardwareReady(hw.(pmsRegions := PolicyRegions(front, descriptors), readMask := READ_MASK, writeMask := WRITE_MASK),
                  front, descriptors)
  }

  lemma ReservationAligned(front: nat, descriptors: nat, k: nat)
    requires Reserved(front, descriptors) && k < 4
    ensures var r := PolicyRegions(front, descriptors)[k]; Masked(r.start) == r.start && Masked(r.end) == r.end
  {
    PolicyIsExact(front, descriptors);
  }

  /** What the loader installs for its reservation is what Linux demands before it takes the contract. */
  lemma InstalledIsAccepted(regs: Registers, front: nat, descriptors: nat, hw: Hardware)
    requires Reserved(front, descriptors) && ReadyOtherwise(hw, front, descriptors)
    requires Shaped(regs) && Installed(regs, Active(PolicyRegions(front, descriptors), 0)) && ReadFrom(hw, regs)
    ensures HardwareReady(hw, front, descriptors) && Validate(Contract(front, descriptors), hw) == Accepted
  {
    var d := Active(PolicyRegions(front, descriptors), 0);
    forall k | 0 <= k < 4
      ensures hw.pmsRegions[k] == d.regions[k]
    {
      ReservationAligned(front, descriptors, k);
      assert Region(d, k + 1) == d.regions[k];
    }
    assert regs.permission[0] == Mask(d, 0) && regs.permission[1] == Mask(d, 1);
    assert hw.pmsRegions == d.regions;
    LoaderContractAccepted(front, descriptors, hw);
  }

  /** Conversely an accepted contract settles, for each address, what the display channel may reach. */
  lemma AcceptedGrants(blob: seq<byte>, hw: Hardware, regs: Registers, i: nat, a: nat)
    requires Validate(blob, hw) == Accepted && Shaped(regs) && ReadFrom(hw, regs) && i < 2
    ensures |blob| == CONTRACT_SIZE
    ensures Granted(regs, i, a) <==> Allowed(Active(PolicyRegions(Front(blob), Descriptors(blob)), 0), i, a)
  {
    AcceptedIsLoaderContract(blob, hw);
    ChannelGrants(regs, Front(blob), Descriptors(blob), i, a);
  }

  lemma ChannelGrants(regs: Registers, front: nat, descriptors: nat, i: nat, a: nat)
    requires Shaped(regs) && Reserved(front, descriptors) && i < 2
    requires regs.permission[0] == READ_MASK && regs.permission[1] == WRITE_MASK
    requires PolicyRegions(front, descriptors)
             == seq(4, k requires 0 <= k < 4 => Range(regs.low[k + 1], regs.high[k + 1]))
    ensures Granted(regs, i, a) <==> Allowed(Active(PolicyRegions(front, descriptors), 0), i, a)
  {
    var d := Active(PolicyRegions(front, descriptors), 0);
    forall r | 0 <= r < REGION_COUNT
      ensures Bit(regs.permission[i], r) ==>
                1 <= r <= 4 && (regs.low[r] <= a < regs.high[r] <==> Covers(d.regions[r - 1], a))
    {
      MaskBits(r);
      if 1 <= r <= 4 {
        ReservationAligned(front, descriptors, r - 1);
      }
    }
    MaskBits(1);
    MaskBits(2);
    MaskBits(3);
    MaskBits(4);
  }

  // ---------------------------------------------------------------------------------------------
  // Installing it
  // ---------------------------------------------------------------------------------------------

  /** How many registers the installation writes after clearing. */
  function Writes(d: Display): nat {
    2 * REGION_COUNT + if d.Active? then 4 else 2
  }

  /**
   * The permission unit. A faithful one stores what is written; an unfaithful one may do anything
   * at all to its registers on a write.
   */
  class Unit {
    const faithful: bool
    var regs: Registers
    /** Every state the registers have been in. */
    ghost var trace: seq<Registers>

    ghost predicate Valid()
      reads this
    {
      Shaped(regs) && trace != [] && trace[|trace| - 1] == regs
    }

    /** One register write: the only member that assigns `regs`, so the trace misses no state. */
    method Write(next: Registers)
      requires Valid() && Shaped(next)
      modifies this`regs, this`trace
      ensures Valid() && (faithful ==> regs == next) && trace == old(trace) + [regs]
    {
      var junk: Registers := *;
      regs := if faithful then next else if Shaped(junk) then junk else regs;
      trace := trace + [regs];
    }

    method WritePermission(i: nat, value: nat)
      requires Valid() && i < PERMISSION_COUNT
      modifies this`regs, this`trace
      ensures Valid() && trace == old(trace) + [regs]
      ensures faithful ==> regs == old(regs).(permission := old(regs).permission[i := value])
    {
      Write(regs.(permission := regs.permission[i := value]));
    }

    /** `write_region`. */
    method WriteRegion(r: nat, range: Range)
      requires Valid() && r < REGION_COUNT
      modifies this`regs, this`trace
      ensures Valid() && old(trace) <= trace && |trace| == |old(trace)| + 2
      ensures faithful ==> regs.permission == old(regs).permission
      ensures faithful ==> regs.low == old(regs).low[r := Masked(range.start)]
      ensures faithful ==> regs.high == old(regs).high[r := Masked(range.end)]
      ensures faithful ==>
                forall k :: |old(trace)| <= k < |trace| ==>
                  Shaped(trace[k]) && trace[k].permission == old(regs).permission
    {
      Write(regs.(low := regs.low[r := Masked(range.start)]));
      Write(regs.(high := regs.high[r := Masked(range.end)]));
    }

    /** `region_matches`. */
    method RegionMatches(r: nat, range: Range) returns (matches: bool)
      requires Valid() && r < REGION_COUNT
      ensures matches == (regs.low[r] == Masked(range.start) && regs.high[r] == Masked(range.end))
    {
      matches := regs.low[r] == Masked(range.start) && regs.high[r] == Masked(range.end);
    }

    method ClearPermissions()
      requires Valid()
      modifies this`regs, this`trace
      ensures Valid() && old(trace) <= trace && |trace| == |old(trace)| + PERMISSION_COUNT
      ensures faithful ==> Denied(regs)
    {
      for i := 0 to PERMISSION_COUNT
        invariant Valid() && old(trace) <= trace && |trace| == |old(trace)| + i
        invariant faithful ==> forall j :: 0 <= j < i ==> regs.permission[j] == 0
      {
        WritePermission(i, 0);
      }
    }

    /** Every state since `from` grants nothing beyond the allowlist. */
    ghost predicate SafeSince(from: nat, d: Display)
      requires Complete(d)
      reads this
    {
      from <= |trace| && forall k :: from <= k < |trace| ==> Safe(trace[k], d)
    }

    method WriteRegions(d: Display, ghost from: nat)
      requires Valid() && Complete(d) && (faithful ==> Denied(regs) && SafeSince(from, d))
      modifies this`regs, this`trace
      ensures Valid() && old(trace) <= trace && |trace| == |old(trace)| + 2 * REGION_COUNT
      ensures faithful ==> Denied(regs) && RegionsSet(regs, d, REGION_COUNT) && SafeSince(from, d)
    {
      for r := 0 to REGION_COUNT
        invariant Valid() && old(trace) <= trace && |trace| == |old(trace)| + 2 * r
        invariant faithful ==> Denied(regs) && SafeSince(from, d)
        invariant faithful ==> RegionsSet(regs, d, r)
      {
        WriteRegion(r, Region(d, r));
      }
    }

    /** One permission register on top of finished regions. */
    method Grant(d: Display, i: nat, ghost from: nat)
      requires Valid() && Complete(d) && i < PERMISSION_COUNT && (d.Active? ==> d.channel < 4)
      requires faithful ==> RegionsSet(regs, d, REGION_COUNT) && Partial(regs, d) && SafeSince(from, d)
      modifies this`regs, this`trace
      ensures Valid() && old(trace) <= trace && |trace| == |old(trace)| + 1
      ensures faithful ==> RegionsSet(regs, d, REGION_COUNT) && Partial(regs, d) && SafeSince(from, d)
      ensures faithful ==> regs.permission == old(regs).permission[i := Mask(d, i)]
    {
      WritePermission(i, Mask(d, i));
    }

    /** All regions, then the permissions. */
    method Install(d: Display, ghost from: nat)
      requires Valid() && Complete(d) && (d.Active? ==> d.channel < 4)
      requires faithful ==> Denied(regs) && SafeSince(from, d)
      modifies this`regs, this`trace
      ensures Valid() && old(trace) <= trace && |trace| == |old(trace)| + Writes(d)
      ensures faithful ==> Installed(regs, d) && SafeSince(from, d)
    {
      WriteRegions(d, from);
      Grant(d, SDMMC_READ, from);
      Grant(d, SDMMC_WRITE, from);
      if d.Active? {
        Grant(d, 2 * d.channel, from);
        Grant(d, 2 * d.channel + 1, from);
      }
    }

    method ReadBack(d: Display) returns (ok: bool)
      requires Valid() && Complete(d)
      ensures ok == Installed(regs, d)
    {
      for r := 0 to REGION_COUNT
        invariant RegionsSet(regs, d, r)
      {
        var matches := RegionMatches(r, Region(d, r));
        if !matches {
          return false;
        }
      }
      for i := 0 to PERMISSION_COUNT
        invariant forall j :: 0 <= j < i ==> regs.permission[j] == Mask(d, j)
      {
        if regs.permission[i] != Mask(d, i) {
          return false;
        }
      }
      ok := true;
    }

    /** `micronux_dma_pms_prepare`; `from` is the state after the 62nd clearing write. */
    method Prepare(d: Display) returns (ok: bool, ghost from: nat)
      requires Valid() && Complete(d)
      modifies this`regs, this`trace
      ensures Valid() && old(trace) <= trace && from == |old(trace)| + PERMISSION_COUNT - 1 < |trace|
      ensures |trace| == from + 1 + if d.Active? && d.channel >= 4 then 0 else Writes(d)
      ensures ok ==> Installed(regs, d) && Exact(regs, d)
      ensures d.Active? && d.channel >= 4 ==> !ok
      ensures faithful ==> forall k :: from <= k < |trace| ==> Shaped(trace[k]) && Within(trace[k], d)
      ensures faithful && (d.Active? ==> d.channel < 4) ==> ok
      ensures faithful && !ok ==> forall i: nat, a: nat :: i < PERMISSION_COUNT ==> !Granted(regs, i, a)
    {
      ClearPermissions();
      from := |trace| - 1;
      if d.Active? && d.channel >= 4 {
        NothingGranted(d);
        TraceWithin(d, from);
        return false, from;
      }
      Install(d, from);
      ok := ReadBack(d);
      if ok {
        InstalledIsExact(regs, d);
      }
      TraceWithin(d, from);
    }

    lemma NothingGranted(d: Display)
      requires Valid()
      ensures Denied(regs) ==> forall i: nat, a: nat :: i < PERMISSION_COUNT ==> !Granted(regs, i, a)
    {
      if Denied(regs) {
        forall i: nat, a: nat | i < PERMISSION_COUNT
          ensures !Granted(regs, i, a)
        {
          DeniedGrantsNothing(regs, d, i, a);
        }
      }
    }

    lemma TraceWithin(d: Display, from: nat)
      requires Complete(d)
      ensures SafeSince(from, d) ==>
                forall k :: from <= k < |trace| ==> Shaped(trace[k]) && Within(trace[k], d)
    {
      if SafeSince(from, d) {
        forall k | from <= k < |trace|
          ensures Shaped(trace[k]) && Within(trace[k], d)
        {
          SafeIsWithin(trace[k], d);
        }
      }
    }
  }
}
