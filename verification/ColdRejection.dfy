/**
 * Which reason Linux gives when it rejects a display contract: the first, in a fixed order, of the
 * rules the contract or the hardware breaks.  Some reasons the validator knows are never given; they
 * have no rule here.
 */
module ColdRejection {
  import opened Wrappers
  import opened Checks
  import opened Bytes
  import opened Crc32
  import opened ColdContract

  function VerdictOf(problem: Option<string>): Verdict {
    match problem
    case None => Accepted
    case Some(reason) => Rejected(reason)
  }

  function HeaderRules(blob: seq<byte>): seq<Option<string>> {
    [When(|blob| < 8, "structure-size"),
     When(|blob| >= 8 && U32(blob, 0) != 0x4D4E_5844, "magic"),
     When(|blob| >= 8 && U16(blob, 4) != 3, "abi-version"),
     When(|blob| >= 8 && U16(blob, 6) != 192, "declared-size"),
     When(|blob| != 192, "structure-size"),
     When(|blob| == 192 && Crc(blob[..188]) != U32(blob, 188), "crc32")]
  }

  /** `frame-size-overflow` and `frame-size` cannot follow a panel profile that passed. */
  function ProfileRules(v: seq<nat>): seq<Option<string>>
    requires |v| == FIELD_COUNT
  {
    [When(v[FLAGS] >= 0x4000, "unknown-flags"), When(v[FLAGS] != 0x3FFF, "required-flags"),
     When(v[BOOT_MODE] != 1, "boot-mode"), When(v[OWNERSHIP] != 1, "ownership-state"),
     When(v[6..22] != PROFILE, "panel-profile"), When(v[FRAMEBUFFER_BYTES] != 2_048_000, "published-frame-size")]
  }

  /** Of the frame rules only the front buffer's alignment is left once bounds and layout have passed. */
  function AddressRules(v: seq<nat>): seq<Option<string>>
    requires |v| == FIELD_COUNT
  {
    [When(v[22] < 0x4800_0000 || v[22] + 2_048_000 > 0x4840_0000, "loader-front-bounds"),
     When(v[23] != 0x4930_0000 || v[24] != 0x4950_0000, "display-pool-layout"),
     When(v[22] % 4096 != 0, "framebuffer-alignment")]
  }

  function DescriptorRules(v: seq<nat>): seq<Option<string>>
    requires |v| == FIELD_COUNT
  {
    [When(v[26] + 4096 >= 0x1_0000_0000, "descriptor-overflow"),
     When(v[26] < 0x4FF0_0000 || v[26] + 4096 > 0x4FFC_0000 || v[26] % 4096 != 0 || v[27] != 192 || v[28] != 3,
          "descriptor-bounds"),
     When(v[26] < 0x4FF8_2000 && 0x4FF8_0000 < v[26] + 4096, "descriptor-sd-dma-overlap"),
     When(v[29] != 0, "dma-channel")]
  }

  function PeripheralRules(v: seq<nat>, hw: Hardware): seq<Option<string>>
    requires |v| == FIELD_COUNT
  {
    [When(!hw.irqDataAvailable, "gdma-linux-irq-data"), When(hw.linuxHwirq != v[32], "gdma-linux-hwirq"),
     When(v[30..48] != PERIPHERALS, "peripheral-contract")]
  }

  function ClockRules(v: seq<nat>, hw: Hardware): seq<Option<string>>
    requires |v| == FIELD_COUNT
  {
    [When(hw.siliconRevision != v[6], "silicon-readback"),
     When(!hw.gdmaReset || !hw.dsiReset || hw.gdmaCpuClock || hw.gdmaSysClock || hw.dsiSysClock
          || hw.dphyConfigClock || hw.dphyPllClock || hw.dpiClock, "display-reset-clock-state"),
     When(hw.dphyLdo, "dphy-ldo-enabled"), When(hw.i2cClock, "i2c-not-released")]
  }

  function DmaRules(v: seq<nat>, hw: Hardware): seq<Option<string>>
    requires |v| == FIELD_COUNT
  {
    var windows := [Range(v[22], v[22] + 2_048_000), Range(0x4930_0000, 0x4970_0000), Range(v[26], v[26] + 4096),
                    Range(0x5010_5000, 0x5010_6000)];
    [When(hw.irqRoute != v[32], "gdma-irq-route"),
     When(hw.pmsRegions != windows || hw.readMask != 14 || hw.writeMask != 24, "dma-pms-policy"),
     When(hw.descriptorBacking != Zeros(4096), "descriptor-storage-not-zero")]
  }

  function FieldRules(v: seq<nat>, hw: Hardware): seq<Option<string>>
    requires |v| == FIELD_COUNT
  {
    ProfileRules(v) + AddressRules(v) + DescriptorRules(v) + PeripheralRules(v, hw) + ClockRules(v, hw)
    + DmaRules(v, hw)
  }

  lemma HeaderNamed(blob: seq<byte>)
    ensures HeaderVerdict(blob) == VerdictOf(First(HeaderRules(blob)))
  {
    var r := HeaderRules(blob);
    FirstOfSix(r[0], r[1], r[2], r[3], r[4], r[5]);
  }

  lemma ProfileNamed(v: seq<nat>)
    requires |v| == FIELD_COUNT
    ensures ProfileVerdict(v) == VerdictOf(First(ProfileRules(v)))
  {
    var r := ProfileRules(v);
    FirstOfSix(r[0], r[1], r[2], r[3], r[4], r[5]);
    assert v[STRIDE] == v[6..22][4] && v[HEIGHT] == v[6..22][3];
  }

  lemma AddressNamed(v: seq<nat>)
    requires |v| == FIELD_COUNT
    ensures AddressVerdict(v[22..25]) == VerdictOf(First(AddressRules(v)))
  {
    var r, a := AddressRules(v), v[22..25];
    FirstOfThree(r[0], r[1], r[2]);
    assert a == [v[22], v[23], v[24]];
    assert a[1..] == [v[23], v[24]];
    if r[0].None? && r[1].None? {
      FramesNamed(a);
    }
  }

  lemma FramesNamed(a: seq<nat>)
    requires |a| == 3 && 0x4800_0000 <= a[0] && a[0] + 2_048_000 <= 0x4840_0000
    requires a[1] == BACKBUFFER && a[2] == SPAREBUFFER
    ensures FramesVerdict(a, 0) == (if a[0] % 4096 != 0 then Rejected("framebuffer-alignment") else Accepted)
    ensures !FramesOverlap(a)
  {
    assert FramesVerdict(a, 3) == Accepted;
    assert FramesVerdict(a, 2) == Accepted;
    assert FramesVerdict(a, 1) == Accepted;
  }

  lemma DescriptorNamed(v: seq<nat>)
    requires |v| == FIELD_COUNT
    ensures DescriptorVerdict(v) == VerdictOf(First(DescriptorRules(v)))
  {
    var r := DescriptorRules(v);
    FirstOfFour(r[0], r[1], r[2], r[3]);
  }

  lemma PeripheralNamed(v: seq<nat>, hw: Hardware)
    requires |v| == FIELD_COUNT
    ensures PeripheralVerdict(v, hw) == VerdictOf(First(PeripheralRules(v, hw)))
  {
    var r := PeripheralRules(v, hw);
    FirstOfThree(r[0], r[1], r[2]);
  }

  lemma HardwareNamed(v: seq<nat>, hw: Hardware)
    requires |v| == FIELD_COUNT
    ensures HardwareVerdict(v, hw) == VerdictOf(Then(First(ClockRules(v, hw)), First(DmaRules(v, hw))))
  {
    var r, s := ClockRules(v, hw), DmaRules(v, hw);
    FirstOfFour(r[0], r[1], r[2], r[3]);
    FirstOfThree(s[0], s[1], s[2]);
    ZeroBacking(hw.descriptorBacking);
  }

  lemma ZeroBacking(s: seq<byte>)
    ensures s == Zeros(4096) <==> |s| == PAGE_SIZE && forall b :: b in s ==> b == 0
  {
    if |s| == PAGE_SIZE && forall b :: b in s ==> b == 0 {
      forall i | 0 <= i < |s|
        ensures s[i] == Zeros(4096)[i]
      {
        assert s[i] in s;
      }
    }
  }

  lemma RulesJoin(v: seq<nat>, hw: Hardware)
    requires |v| == FIELD_COUNT
    ensures First(FieldRules(v, hw))
            == Then(First(ProfileRules(v)), Then(First(AddressRules(v)), Then(First(DescriptorRules(v)),
                 Then(First(PeripheralRules(v, hw)), Then(First(ClockRules(v, hw)), First(DmaRules(v, hw)))))))
  {
    var a := ProfileRules(v) + AddressRules(v);
    FirstJoin(ProfileRules(v), AddressRules(v));
    FirstJoin(a, DescriptorRules(v));
    FirstJoin(a + DescriptorRules(v), PeripheralRules(v, hw));
    FirstJoin(a + DescriptorRules(v) + PeripheralRules(v, hw), ClockRules(v, hw));
    FirstJoin(a + DescriptorRules(v) + PeripheralRules(v, hw) + ClockRules(v, hw), DmaRules(v, hw));
  }

  lemma FieldsNamed(v: seq<nat>, hw: Hardware)
    requires |v| == FIELD_COUNT
    ensures FieldsVerdict(v, hw) == VerdictOf(First(FieldRules(v, hw)))
  {
    ProfileNamed(v);
    AddressNamed(v);
    DescriptorNamed(v);
    PeripheralNamed(v, hw);
    HardwareNamed(v, hw);
    RulesJoin(v, hw);
  }

  /** Every verdict, reason included: the first rule broken by the header, then by the fields. */
  lemma RejectionIsFirst(blob: seq<byte>, hw: Hardware)
    ensures var header := First(HeaderRules(blob));
            if header.Some? then Validate(blob, hw) == Rejected(header.value)
            else |blob| == CONTRACT_SIZE && Validate(blob, hw) == VerdictOf(First(FieldRules(Unpack(blob), hw)))
  {
    HeaderNamed(blob);
    if HeaderVerdict(blob).Accepted? {
      FieldsNamed(Unpack(blob), hw);
    }
  }
}
