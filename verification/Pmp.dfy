/**
 * The loader's physical memory protection map (section 3.7 of the RISC-V Privileged Architecture):
 * what sixteen entries allow user mode, the audited early-deny map, and the installation of the
 * Linux window in entries 13 and 14.
 */
module Pmp {
  import opened Bytes

  const ENTRY_COUNT := 16
  const LOWER_ENTRY := 13
  const LINUX_ENTRY := 14
  const WINDOW_START := 0x4840_0000
  const WINDOW_END := 0x49F0_0000

  const OFF := 0x00
  const TOR := 0x08
  const NAPOT := 0x18
  const LINUX_CONFIG := 0x0F

  datatype Access = Read | Write | Execute

  /** Configuration octets and address registers; an address register holds bits 31..2 of an address. */
  datatype Map = Map(cfg: seq<nat>, addr: seq<nat>)

  predicate Shaped(m: Map) {
    |m.cfg| == ENTRY_COUNT && |m.addr| == ENTRY_COUNT && forall i :: 0 <= i < ENTRY_COUNT ==> m.addr[i] < 0x4000_0000
  }

  // ---------------------------------------------------------------------------------------------
  // What a map allows
  // ---------------------------------------------------------------------------------------------

  function Mode(cfg: nat): nat {
    cfg / 8 % 4
  }

  predicate Permits(cfg: nat, access: Access) {
    match access
    case Read => cfg % 2 == 1
    case Write => cfg / 2 % 2 == 1
    case Execute => cfg / 4 % 2 == 1
  }

  /** The size of the naturally aligned range an address register encodes by its trailing ones. */
  function NapotSize(addr: nat): (size: nat)
    ensures size >= 8
  {
    if addr % 2 == 0 then 8 else 2 * NapotSize(addr / 2)
  }

  function Lower(m: Map, i: nat): nat
    requires Shaped(m) && i < ENTRY_COUNT
  {
    if i == 0 then 0 else 4 * m.addr[i - 1]
  }

  /** Whether entry `i` covers an address: off, top of range, four octets, or a power of two. */
  predicate Covers(m: Map, i: nat, a: nat)
    requires Shaped(m) && i < ENTRY_COUNT
  {
    var mode := Mode(m.cfg[i]);
    if mode == 0 then false
    else if mode == 1 then Lower(m, i) <= a < 4 * m.addr[i]
    else if mode == 2 then 4 * m.addr[i] <= a < 4 * m.addr[i] + 4
    else a / NapotSize(m.addr[i]) == 4 * m.addr[i] / NapotSize(m.addr[i])
  }

  /** User mode from entry `i` on: the lowest covering entry decides, none means no. */
  predicate AllowedFrom(m: Map, i: nat, a: nat, access: Access)
    requires Shaped(m)
    decreases ENTRY_COUNT - i
  {
    i < ENTRY_COUNT
    && if Covers(m, i, a) then Permits(m.cfg[i], access) else AllowedFrom(m, i + 1, a, access)
  }

  predicate Allowed(m: Map, a: nat, access: Access)
    requires Shaped(m)
  {
    AllowedFrom(m, 0, a, access)
  }

  predicate InWindow(a: nat) {
    WINDOW_START <= a < WINDOW_END
  }

  // ---------------------------------------------------------------------------------------------
  // The audited map
  // ---------------------------------------------------------------------------------------------

  /** The address an audited entry must read back as. */
  function ExpectedAddress(i: nat, installed: bool): nat {
    if i == 0 then 0x27FF_FFFC
    else if i == 1 then 0x3FF0_FFFC
    else if i == 2 then 0x4FC0_FFFC
    else if i == 3 then 0x4FF0_0000
    else if i == 4 then 0x4FFC_0000
    else if i == 6 then 0x41FF_FFFC
    else if i == 11 then 0x5010_BFFC
    else if i == LOWER_ENTRY && installed then WINDOW_START
    else if i == LINUX_ENTRY && installed then WINDOW_END
    else if i == 15 then 0x5007_FFFC
    else 0
  }

  function ExpectedConfig(i: nat, installed: bool): nat {
    if i in {0, 1, 2, 6, 11, 15} then NAPOT
    else if i == 4 then TOR
    else if i == LINUX_ENTRY && installed then LINUX_CONFIG
    else OFF
  }

  predicate Expected(m: Map, i: nat, installed: bool)
    requires Shaped(m) && i < ENTRY_COUNT
  {
    4 * m.addr[i] == ExpectedAddress(i, installed) && m.cfg[i] == ExpectedConfig(i, installed)
  }

  predicate Audited(m: Map, installed: bool)
    requires Shaped(m)
  {
    forall i :: 0 <= i < ENTRY_COUNT ==> Expected(m, i, installed)
  }

  /** An entry that permits nothing, or the window's own. */
  predicate GuardedAt(m: Map, i: nat)
    requires Shaped(m) && i < ENTRY_COUNT
  {
    || m.cfg[i] == OFF || m.cfg[i] == TOR || m.cfg[i] == NAPOT
    || (i == LINUX_ENTRY && m.cfg[i] == LINUX_CONFIG
        && 4 * m.addr[i - 1] == WINDOW_START && 4 * m.addr[i] == WINDOW_END)
  }

  predicate Guarded(m: Map)
    requires Shaped(m)
  {
    forall i :: 0 <= i < ENTRY_COUNT ==> GuardedAt(m, i)
  }

  /** Guarded maps allow nothing outside the window. */
  lemma {:induction false} GuardedWithin(m: Map, i: nat, a: nat, access: Access)
    requires Shaped(m) && Guarded(m) && AllowedFrom(m, i, a, access)
    ensures InWindow(a)
    decreases ENTRY_COUNT - i
  {
    assert GuardedAt(m, i);
    if !Covers(m, i, a) {
      GuardedWithin(m, i + 1, a, access);
    }
  }

  lemma AuditedGuarded(m: Map, installed: bool)
    requires Shaped(m) && Audited(m, installed)
    ensures Guarded(m)
  {
    forall i | 0 <= i < ENTRY_COUNT
      ensures GuardedAt(m, i)
    {
      assert Expected(m, i, installed);
      if i == LINUX_ENTRY {
        assert Expected(m, LOWER_ENTRY, installed);
      }
    }
  }

  /** `n` trailing ones below a zero encode a range of 2^(n+3) octets. */
  lemma {:induction false} NapotPower(addr: nat, high: nat, n: nat)
    requires addr == high * (2 * Pow2(n)) + Pow2(n) - 1
    ensures NapotSize(addr) == 8 * Pow2(n)
    decreases n
  {
    if n == 0 {
      assert addr == high * 2;
    } else {
      var half := Pow2(n - 1);
      assert high * (2 * (2 * half)) == 2 * (high * (2 * half));
      assert addr == 2 * (high * (2 * half) + half - 1) + 1;
      NapotPower(addr / 2, high, n - 1);
    }
  }

  /** Addresses a range's size apart are not in the same one. */
  lemma Apart(a: nat, b: nat, size: nat)
    requires size > 0 && (a + size <= b || b + size <= a)
    ensures a / size != b / size
  {
  }

  lemma Powers()
    ensures Pow2(12) == 0x1000 && Pow2(14) == 0x4000 && Pow2(23) == 0x80_0000 && Pow2(25) == 0x200_0000
  {
  }

  lemma NapotMiss(addr: nat, high: nat, n: nat, p: nat, a: nat)
    requires p == Pow2(n) && addr == high * (2 * p) + p - 1
    requires a + 8 * p <= 4 * addr || 4 * addr + 8 * p <= a
    ensures a / NapotSize(addr) != 4 * addr / NapotSize(addr)
  {
    NapotPower(addr, high, n);
    Apart(a, 4 * addr, 8 * p);
  }

  /** The audited power-of-two ranges below entry 14 lie outside the window. */
  lemma NapotOutside(addr: nat, a: nat)
    requires addr in {0x9FF_FFFF, 0xFFC_3FFF, 0x13F0_3FFF, 0x107F_FFFF, 0x1404_2FFF}
    requires InWindow(a)
    ensures a / NapotSize(addr) != 4 * addr / NapotSize(addr)
  {
    Powers();
    if addr == 0x9FF_FFFF {
      NapotMiss(addr, 2, 25, 0x200_0000, a);
    } else if addr == 0xFFC_3FFF {
      NapotMiss(addr, 0x1FF8, 14, 0x4000, a);
    } else if addr == 0x13F0_3FFF {
      NapotMiss(addr, 0x27E0, 14, 0x4000, a);
    } else if addr == 0x107F_FFFF {
      NapotMiss(addr, 0x10, 23, 0x80_0000, a);
    } else {
      NapotMiss(addr, 0xA021, 12, 0x1000, a);
    }
  }

  lemma NapotUncovered(m: Map, i: nat, a: nat, addr: nat)
    requires Shaped(m) && i < ENTRY_COUNT && m.cfg[i] == NAPOT && m.addr[i] == addr
    requires a / NapotSize(addr) != 4 * addr / NapotSize(addr)
    ensures !Covers(m, i, a)
  {
  }

  lemma AuditedNapot(m: Map, i: nat, a: nat)
    requires Shaped(m) && i in {0, 1, 2, 6, 11} && Expected(m, i, true) && InWindow(a)
    ensures !Covers(m, i, a)
  {
    var addr := m.addr[i];
    assert a / NapotSize(addr) != 4 * addr / NapotSize(addr) by {
      NapotOutside(addr, a);
    }
    NapotUncovered(m, i, a, addr);
  }

  /** No entry before the window's covers any of it. */
  lemma WindowUncovered(m: Map, i: nat, a: nat)
    requires Shaped(m) && Audited(m, true) && i < LINUX_ENTRY && InWindow(a)
    ensures !Covers(m, i, a)
  {
    assert Expected(m, i, true);
    if i in {0, 1, 2, 6, 11} {
      AuditedNapot(m, i, a);
    } else if i == 4 {
      assert Expected(m, 3, true);
    }
  }

  lemma {:induction false} WindowReached(m: Map, i: nat, a: nat, access: Access)
    requires Shaped(m) && Audited(m, true) && i <= LINUX_ENTRY && InWindow(a)
    ensures AllowedFrom(m, i, a, access)
    decreases LINUX_ENTRY - i
  {
    if i < LINUX_ENTRY {
      WindowUncovered(m, i, a);
      WindowReached(m, i + 1, a, access);
    } else {
      assert Expected(m, LOWER_ENTRY, true) && Expected(m, LINUX_ENTRY, true);
    }
  }

  /** The installed map opens exactly the Linux window to user mode, for every kind of access. */
  lemma AuditedWindow(m: Map, a: nat, access: Access)
    requires Shaped(m) && Audited(m, true)
    ensures Allowed(m, a, access) <==> InWindow(a)
  {
    AuditedGuarded(m, true);
    if InWindow(a) {
      WindowReached(m, 0, a, access);
    } else if Allowed(m, a, access) {
      GuardedWithin(m, 0, a, access);
    }
  }

  /** Before the installation user mode has nothing. */
  lemma {:induction false} AuditedDeny(m: Map, i: nat, a: nat, access: Access)
    requires Shaped(m) && Audited(m, false)
    ensures !AllowedFrom(m, i, a, access)
    decreases ENTRY_COUNT - i
  {
    if i < ENTRY_COUNT {
      assert Expected(m, i, false);
      AuditedDeny(m, i + 1, a, access);
    }
  }

  // ---------------------------------------------------------------------------------------------
  // Installing the window
  // ---------------------------------------------------------------------------------------------

  function Switched(m: Map, i: nat): Map
    requires Shaped(m) && i < ENTRY_COUNT
  {
    m.(cfg := m.cfg[i := OFF])
  }

  function Set(m: Map, i: nat, address: nat, config: nat): Map
    requires Shaped(m) && i < ENTRY_COUNT
  {
    Map(m.cfg[i := config], m.addr[i := address / 4])
  }

  /** A map that allows user mode nothing outside the window. */
  ghost predicate Within(m: Map) {
    Shaped(m) && forall a: nat, access :: Allowed(m, a, access) ==> InWindow(a)
  }

  lemma GuardedIsWithin(m: Map)
    requires Shaped(m) && Guarded(m)
    ensures Within(m)
  {
    forall a: nat, access | Allowed(m, a, access)
      ensures InWindow(a)
    {
      GuardedWithin(m, 0, a, access);
    }
  }

  /** The two entry writes the installation makes, each from the state it is made in. */
  predicate Planned(m: Map, i: nat, address: nat, config: nat)
    requires Shaped(m)
  {
    || (i == LOWER_ENTRY && address == WINDOW_START && config == OFF && m.cfg[LINUX_ENTRY] == OFF)
    || (i == LINUX_ENTRY && address == WINDOW_END && config == LINUX_CONFIG && 4 * m.addr[LOWER_ENTRY] == WINDOW_START)
  }

  /** None of the three register states an entry write passes through allows more than the window. */
  lemma StepsWithin(m: Map, i: nat, address: nat, config: nat)
    requires Shaped(m) && Guarded(m) && i < ENTRY_COUNT && Planned(m, i, address, config)
    ensures Within(Switched(m, i)) && Within(Set(m, i, address, OFF)) && Within(Set(m, i, address, config))
    ensures Guarded(Set(m, i, address, config))
  {
    forall j | 0 <= j < ENTRY_COUNT
      ensures GuardedAt(Switched(m, i), j) && GuardedAt(Set(m, i, address, OFF), j)
      ensures GuardedAt(Set(m, i, address, config), j)
    {
      assert GuardedAt(m, j);
    }
    GuardedIsWithin(Switched(m, i));
    GuardedIsWithin(Set(m, i, address, OFF));
    GuardedIsWithin(Set(m, i, address, config));
  }

  lemma InstalledAudited(m: Map)
    requires Shaped(m) && Audited(m, false)
    ensures Guarded(m) && m.cfg[LINUX_ENTRY] == OFF
    ensures Audited(Set(Set(m, LOWER_ENTRY, WINDOW_START, OFF), LINUX_ENTRY, WINDOW_END, LINUX_CONFIG), true)
  {
    AuditedGuarded(m, false);
    var after := Set(Set(m, LOWER_ENTRY, WINDOW_START, OFF), LINUX_ENTRY, WINDOW_END, LINUX_CONFIG);
    forall i | 0 <= i < ENTRY_COUNT
      ensures Expected(after, i, true)
    {
      assert Expected(m, i, false);
    }
    assert Expected(m, LINUX_ENTRY, false);
  }

  /**
   * The protection unit. A faithful one stores what is written; an unfaithful one may do anything
   * at all to its registers on a write.
   */
  class Unit {
    const faithful: bool
    var regs: Map
    /** Every state the registers have been in. */
    ghost var trace: seq<Map>

    ghost predicate Valid()
      reads this
    {
      Shaped(regs) && trace != [] && trace[|trace| - 1] == regs
    }

    /** One register write: the only member that assigns `regs`, so the trace misses no state. */
    method Store(next: Map)
      requires Valid() && Shaped(next)
      modifies this
      ensures Valid() && (faithful ==> regs == next) && trace == old(trace) + [regs]
    {
      var junk: Map := *;
      regs := if faithful then next else if Shaped(junk) then junk else regs;
      trace := trace + [regs];
    }

    /** `PMP_RESET_AND_ENTRY_SET`: the entry is switched off before its address changes. */
    method ResetAndSet(i: nat, address: nat, config: nat)
      requires Valid() && i < ENTRY_COUNT && address < 0x1_0000_0000
      modifies this
      ensures Valid() && old(trace) <= trace
      ensures faithful ==>
                && trace == old(trace) + [Switched(old(regs), i), Set(old(regs), i, address, OFF), regs]
                && regs == Set(old(regs), i, address, config)
    {
      Store(regs.(cfg := regs.cfg[i := OFF]));
      Store(regs.(addr := regs.addr[i := address / 4]));
      Store(regs.(cfg := regs.cfg[i := config]));
    }

    /** `audit_m7_early_pmp`. */
    method Audit(installed: bool) returns (ok: bool)
      requires Valid()
      ensures ok == Audited(regs, installed)
    {
      for i := 0 to ENTRY_COUNT
        invariant forall j :: 0 <= j < i ==> Expected(regs, j, installed)
      {
        if 4 * regs.addr[i] != ExpectedAddress(i, installed) || regs.cfg[i] != ExpectedConfig(i, installed) {
          assert !Expected(regs, i, installed);
          return false;
        }
      }
      ok := true;
    }

    /** `prepare_pmp_for_linux` with the early-deny profile; `ok` is false where it stops the boot. */
    method Prepare() returns (ok: bool)
      requires Valid()
      modifies this
      ensures Valid() && old(trace) <= trace
      ensures ok ==> forall a: nat, access :: Allowed(regs, a, access) <==> InWindow(a)
      ensures faithful ==> ok == old(Audited(regs, false))
      ensures faithful && old(Audited(regs, false)) ==> |trace| == |old(trace)| + 6
      ensures faithful && old(Audited(regs, false)) ==>
                forall k :: |old(trace)| <= k < |trace| ==> Within(trace[k])
      ensures !old(Audited(regs, false)) ==> !ok && trace == old(trace)
    {
      var before := Audit(false);
      if !before {
        return false;
      }
      ghost var was := regs;
      ResetAndSet(LOWER_ENTRY, WINDOW_START, OFF);
      ResetAndSet(LINUX_ENTRY, WINDOW_END, LINUX_CONFIG);
      ok := regs.cfg[LOWER_ENTRY] == OFF && regs.cfg[LINUX_ENTRY] == LINUX_CONFIG
            && 4 * regs.addr[LOWER_ENTRY] == WINDOW_START && 4 * regs.addr[LINUX_ENTRY] == WINDOW_END;
      if ok {
        ok := Audit(true);
      }
      if faithful {
        InstalledAudited(was);
        StepsWithin(was, LOWER_ENTRY, WINDOW_START, OFF);
        StepsWithin(Set(was, LOWER_ENTRY, WINDOW_START, OFF), LINUX_ENTRY, WINDOW_END, LINUX_CONFIG);
      }
      if ok {
        forall a: nat, access
          ensures Allowed(regs, a, access) <==> InWindow(a)
        {
          AuditedWindow(regs, a, access);
        }
      }
    }
  }
}
