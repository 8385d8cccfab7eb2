/**
 * The ABI-v3 display contract: the 192 octets the loader publishes, the rules Linux applies before
 * it touches the display, and the memory reservation both sides must agree on.
 */
module ColdContract {
  import opened Bytes
  import opened Crc32

  const MAGIC := 0x4D4E_5844
  const ABI_VERSION := 3
  const CONTRACT_SIZE := 0xC0
  const REQUIRED_FLAGS := 0x3FFF
  const FRAME_SIZE := 2_048_000
  const PAGE_SIZE := 0x1000
  const BACKBUFFER := 0x4930_0000
  const SPAREBUFFER := 0x4950_0000
  const SLOT_SIZE := 0x20_0000
  const DESCRIPTOR_SIZE := 192
  const DESCRIPTOR_COUNT := 3
  const FIFO := 0x5010_5000
  const CLIC_IRQ := 18
  const SILICON_REVISION := 103
  const READ_MASK := 0xE
  const WRITE_MASK := 0x18

  datatype Range = Range(start: nat, end: nat)

  const LOADER_PSRAM := Range(0x4800_0000, 0x4840_0000)
  const KERNEL_RAM := Range(0x4840_0000, 0x4930_0000)
  const DISPLAY_POOL := Range(0x4930_0000, 0x4970_0000)
  const USER_POOL := Range(0x4970_0000, 0x49F0_0000)
  const COMMS_POOL := Range(0x49F0_0000, 0x4A00_0000)
  const DESCRIPTOR_SRAM := Range(0x4FF0_0000, 0x4FFC_0000)
  const SD_DMA_SRAM := Range(0x4FF8_0000, 0x4FF8_2000)
  const FIFO_WINDOW := Range(0x5010_5000, 0x5010_6000)

  predicate Overlaps(a: Range, b: Range) {
    a.start < b.end && b.start < a.end
  }

  // Positions of the fields that vary or are checked on their own.
  const FLAGS := 3
  const BOOT_MODE := 4
  const OWNERSHIP := 5
  const HEIGHT := 9
  const STRIDE := 10
  const FRAMEBUFFER0 := 22
  const FRAMEBUFFER_BYTES := 25
  const DESCRIPTOR_ADDRESS := 26
  const DESCRIPTOR_BYTES := 27
  const DESCRIPTORS := 28
  const DMA_CHANNEL := 29
  const GDMA_CLIC_IRQ := 32
  const CRC32 := 48
  const FIELD_COUNT := 49

  /** silicon_revision .. vsync_front_porch */
  const PROFILE: seq<nat> :=
    [SILICON_REVISION, 1, 800, 1280, 1600, 1, 60_000_000, 1000, 2, 3, 20, 20, 40, 4, 10, 30]

  /** dsi_fifo_address .. quiesce_sequence_id */
  const PERIPHERALS: seq<nat> :=
    [FIFO, 24, CLIC_IRQ, 0, 7, 8, 100_000, 0x45, 0x95, 0x96, 0x11, 0x13, 0x17, 63, 10, 100, 0xCEA0_7F9B, 1]

  // ---------------------------------------------------------------------------------------------
  // The wire format `<IHH46I`
  // ---------------------------------------------------------------------------------------------

  function PackWords(ws: seq<nat>): (s: seq<byte>)
    ensures |s| == 4 * |ws|
  {
    if ws == [] then [] else Le32(ws[0]) + PackWords(ws[1..])
  }

  function Pack(v: seq<nat>): (s: seq<byte>)
    requires |v| >= 3
    ensures |s| == 4 * |v| - 4
  {
    Le32(v[0]) + Le16(v[1]) + Le16(v[2]) + PackWords(v[3..])
  }

  function Words(blob: seq<byte>, offset: nat, count: nat): (ws: seq<nat>)
    requires offset + 4 * count <= |blob|
    ensures |ws| == count
    ensures forall i :: 0 <= i < count ==> ws[i] < 0x1_0000_0000
    decreases count
  {
    if count == 0 then [] else [U32(blob, offset)] + Words(blob, offset + 4, count - 1)
  }

  function Unpack(blob: seq<byte>): (v: seq<nat>)
    requires |blob| == CONTRACT_SIZE
    ensures |v| == FIELD_COUNT
  {
    [U32(blob, 0), U16(blob, 4), U16(blob, 6)] + Words(blob, 8, 46)
  }

  predicate Fields32(ws: seq<nat>) {
    forall i :: 0 <= i < |ws| ==> ws[i] < 0x1_0000_0000
  }

  lemma {:induction false} WordsOfPack(ws: seq<nat>, blob: seq<byte>, offset: nat)
    requires Fields32(ws) && offset <= |blob| && blob[offset..] == PackWords(ws)
    ensures Words(blob, offset, |ws|) == ws
    decreases |ws|
  {
    if ws != [] {
      var tail := blob[offset..];
      assert blob[offset] == tail[0] && blob[offset + 1] == tail[1];
      assert blob[offset + 2] == tail[2] && blob[offset + 3] == tail[3];
      Le32ThenU32(ws[0], blob, offset);
      assert blob[offset + 4..] == tail[4..] == PackWords(ws[1..]);
      WordsOfPack(ws[1..], blob, offset + 4);
    }
  }

  lemma {:induction false} PackOfWords(blob: seq<byte>, offset: nat, count: nat)
    requires offset + 4 * count == |blob|
    ensures PackWords(Words(blob, offset, count)) == blob[offset..]
    decreases count
  {
    if count != 0 {
      PackOfWords(blob, offset + 4, count - 1);
      U32ThenLe32(blob, offset);
      var ws := Words(blob, offset, count);
      assert ws[1..] == Words(blob, offset + 4, count - 1);
      assert blob[offset..] == blob[offset..offset + 4] + blob[offset + 4..];
    }
  }

  /** Packing what was unpacked gives the octets back. */
  lemma PackOfUnpack(blob: seq<byte>)
    requires |blob| == CONTRACT_SIZE
    ensures Pack(Unpack(blob)) == blob
  {
    PackOfWords(blob, 8, 46);
    assert Unpack(blob)[3..] == Words(blob, 8, 46);
    U32ThenLe32(blob, 0);
    U16ThenLe16(blob, 4);
    U16ThenLe16(blob, 6);
    assert blob == blob[0..4] + blob[4..6] + blob[6..8] + blob[8..];
  }

  /** Unpacking what was packed gives the fields back, if each fits its width. */
  lemma UnpackOfPack(v: seq<nat>)
    requires |v| == FIELD_COUNT && Fields32(v) && v[1] < 0x1_0000 && v[2] < 0x1_0000
    ensures Unpack(Pack(v)) == v
  {
    var blob := Pack(v);
    Le32ThenU32(v[0], blob, 0);
    Le16ThenU16(v[1], blob, 4);
    Le16ThenU16(v[2], blob, 6);
    assert blob[8..] == PackWords(v[3..]);
    WordsOfPack(v[3..], blob, 8);
    assert v == [v[0], v[1], v[2]] + v[3..];
  }

  // ---------------------------------------------------------------------------------------------
  // Linux: `validate_cold_relinquish`
  // ---------------------------------------------------------------------------------------------

  /** Facts about the raw hardware that Linux re-reads before its first register write. */
  datatype Hardware = Hardware(
    siliconRevision: nat, irqDataAvailable: bool, linuxHwirq: nat,
    gdmaReset: bool, dsiReset: bool,
    gdmaCpuClock: bool, gdmaSysClock: bool, dsiSysClock: bool,
    dphyConfigClock: bool, dphyPllClock: bool, dpiClock: bool,
    i2cClock: bool, dphyLdo: bool, irqRoute: nat,
    pmsRegions: seq<Range>, readMask: nat, writeMask: nat, descriptorBacking: seq<byte>)

  datatype Verdict = Accepted | Rejected(reason: string)

  function HeaderVerdict(blob: seq<byte>): (r: Verdict)
    ensures r.Accepted? ==> |blob| == CONTRACT_SIZE
  {
    if |blob| < 8 then Rejected("structure-size")
    else if U32(blob, 0) != MAGIC then Rejected("magic")
    else if U16(blob, 4) != ABI_VERSION then Rejected("abi-version")
    else if U16(blob, 6) != CONTRACT_SIZE then Rejected("declared-size")
    else if |blob| != CONTRACT_SIZE then Rejected("structure-size")
    else if Crc(blob[..188]) != U32(blob, 188) then Rejected("crc32")
    else Accepted
  }

  function ProfileVerdict(v: seq<nat>): Verdict
    requires |v| == FIELD_COUNT
  {
    // Allowed and required flags are the same low 14 bits.
    if v[FLAGS] / 0x4000 != 0 then Rejected("unknown-flags")
    else if v[FLAGS] % 0x4000 != REQUIRED_FLAGS then Rejected("required-flags")
    else if v[BOOT_MODE] != 1 then Rejected("boot-mode")
    else if v[OWNERSHIP] != 1 then Rejected("ownership-state")
    else if v[6..22] != PROFILE then Rejected("panel-profile")
    else
      assert v[STRIDE] == v[6..22][4] && v[HEIGHT] == v[6..22][3];
      if v[HEIGHT] > 0xFFFF_FFFF / v[STRIDE] then Rejected("frame-size-overflow")
      else if v[HEIGHT] * v[STRIDE] != FRAME_SIZE then Rejected("frame-size")
      else if v[FRAMEBUFFER_BYTES] != FRAME_SIZE then Rejected("published-frame-size")
      else Accepted
  }

  function FrameRange(address: nat): Range {
    Range(address, address + FRAME_SIZE)
  }

  /** The checks on one framebuffer; `index` 0 is the loader's front buffer. */
  function FrameVerdict(address: nat, index: nat): Verdict {
    var end := address + FRAME_SIZE;
    if end > 0xFFFF_FFFF then Rejected("frame-address-overflow")
    else if address % PAGE_SIZE != 0 then Rejected("framebuffer-alignment")
    else if index != 0 && (address < DISPLAY_POOL.start || end > DISPLAY_POOL.end) then Rejected("display-pool-bounds")
    else if index != 0 && end > address + SLOT_SIZE then Rejected("display-slot-bounds")
    else Accepted
  }

  /** The first complaint about the framebuffers from `index` on. */
  function FramesVerdict(addresses: seq<nat>, index: nat): Verdict
    decreases |addresses| - index
  {
    if index >= |addresses| then Accepted
    else
      var first := FrameVerdict(addresses[index], index);
      if first.Rejected? then first else FramesVerdict(addresses, index + 1)
  }

  predicate FramesOverlap(addresses: seq<nat>) {
    exists i, j :: 0 <= i < j < |addresses| && Overlaps(FrameRange(addresses[i]), FrameRange(addresses[j]))
  }

  function AddressVerdict(addresses: seq<nat>): Verdict
    requires |addresses| == 3
  {
    var frontEnd := addresses[0] + FRAME_SIZE;
    if frontEnd > 0xFFFF_FFFF || addresses[0] < LOADER_PSRAM.start || frontEnd > LOADER_PSRAM.end
    then Rejected("loader-front-bounds")
    else if addresses[1..] != [BACKBUFFER, SPAREBUFFER] then Rejected("display-pool-layout")
    else
      var frames := FramesVerdict(addresses, 0);
      if frames.Rejected? then frames
      else if FramesOverlap(addresses) then Rejected("frame-overlap")
      else Accepted
  }

  function DescriptorVerdict(v: seq<nat>): Verdict
    requires |v| == FIELD_COUNT
  {
    var start, end := v[DESCRIPTOR_ADDRESS], v[DESCRIPTOR_ADDRESS] + PAGE_SIZE;
    if end > 0xFFFF_FFFF then Rejected("descriptor-overflow")
    else if start < DESCRIPTOR_SRAM.start || end > DESCRIPTOR_SRAM.end || start % PAGE_SIZE != 0
            || v[DESCRIPTOR_BYTES] != DESCRIPTOR_SIZE || v[DESCRIPTORS] != DESCRIPTOR_COUNT
    then Rejected("descriptor-bounds")
    else if Overlaps(Range(start, end), SD_DMA_SRAM) then Rejected("descriptor-sd-dma-overlap")
    else if v[DMA_CHANNEL] != 0 then Rejected("dma-channel")
    else Accepted
  }

  function PeripheralVerdict(v: seq<nat>, hw: Hardware): Verdict
    requires |v| == FIELD_COUNT
  {
    if !hw.irqDataAvailable then Rejected("gdma-linux-irq-data")
    else if hw.linuxHwirq != v[GDMA_CLIC_IRQ] then Rejected("gdma-linux-hwirq")
    else if v[30..48] != PERIPHERALS then Rejected("peripheral-contract")
    else Accepted
  }

  function ExpectedRegions(front: nat, descriptors: nat): seq<Range> {
    [FrameRange(front), DISPLAY_POOL, Range(descriptors, descriptors + PAGE_SIZE), FIFO_WINDOW]
  }

  function HardwareVerdict(v: seq<nat>, hw: Hardware): Verdict
    requires |v| == FIELD_COUNT
  {
    if hw.siliconRevision != v[6] then Rejected("silicon-readback")
    else if !hw.gdmaReset || !hw.dsiReset then Rejected("display-reset-clock-state")
    else if hw.gdmaCpuClock || hw.gdmaSysClock || hw.dsiSysClock
            || hw.dphyConfigClock || hw.dphyPllClock || hw.dpiClock then Rejected("display-reset-clock-state")
    else if hw.dphyLdo then Rejected("dphy-ldo-enabled")
    else if hw.i2cClock then Rejected("i2c-not-released")
    else if hw.irqRoute != v[GDMA_CLIC_IRQ] then Rejected("gdma-irq-route")
    else if hw.pmsRegions != ExpectedRegions(v[FRAMEBUFFER0], v[DESCRIPTOR_ADDRESS])
            || hw.readMask != READ_MASK || hw.writeMask != WRITE_MASK then Rejected("dma-pms-policy")
    else if |hw.descriptorBacking| != PAGE_SIZE || (exists b :: b in hw.descriptorBacking && b != 0)
    then Rejected("descriptor-storage-not-zero")
    else Accepted
  }

  function FieldsVerdict(v: seq<nat>, hw: Hardware): Verdict
    requires |v| == FIELD_COUNT
  {
    var a := ProfileVerdict(v);
    if a.Rejected? then a else
    var b := AddressVerdict(v[22..25]);
    if b.Rejected? then b else
    var c := DescriptorVerdict(v);
    if c.Rejected? then c else
    var d := PeripheralVerdict(v, hw);
    if d.Rejected? then d else
    HardwareVerdict(v, hw)
  }

  function Validate(blob: seq<byte>, hw: Hardware): Verdict {
    var header := HeaderVerdict(blob);
    if header.Rejected? then header else FieldsVerdict(Unpack(blob), hw)
  }

  /** The framebuffer loops of the validator. */
  method CheckFrames(addresses: seq<nat>) returns (r: Verdict)
    requires |addresses| == 3
    ensures r == if FramesVerdict(addresses, 0).Rejected? then FramesVerdict(addresses, 0)
                 else if FramesOverlap(addresses) then Rejected("frame-overlap") else Accepted
  {
    var ranges: seq<Range> := [];
    for index := 0 to |addresses|
      invariant ranges == seq(index, i requires 0 <= i < index => FrameRange(addresses[i]))
      invariant FramesVerdict(addresses, 0) == FramesVerdict(addresses, index)
    {
      var one := FrameVerdict(addresses[index], index);
      if one.Rejected? {
        return one;
      }
      ranges := ranges + [FrameRange(addresses[index])];
    }
    for i := 0 to |ranges|
      invariant forall a, b :: 0 <= a < i && a < b < |ranges| ==> !Overlaps(ranges[a], ranges[b])
    {
      for j := i + 1 to |ranges|
        invariant forall b :: i < b < j ==> !Overlaps(ranges[i], ranges[b])
      {
        if Overlaps(ranges[i], ranges[j]) {
          assert Overlaps(FrameRange(addresses[i]), FrameRange(addresses[j]));
          return Rejected("frame-overlap");
        }
      }
    }
    assert !FramesOverlap(addresses) by {
      forall i, j | 0 <= i < j < |addresses|
        ensures !Overlaps(FrameRange(addresses[i]), FrameRange(addresses[j]))
      {
        assert ranges[i] == FrameRange(addresses[i]) && ranges[j] == FrameRange(addresses[j]);
      }
    }
    r := Accepted;
  }

  /** `validate_cold_relinquish`. */
  method ValidateColdRelinquish(blob: seq<byte>, hw: Hardware) returns (r: Verdict)
    ensures r == Validate(blob, hw)
  {
    r := HeaderVerdict(blob);
    if r.Rejected? {
      return;
    }
    var v := Unpack(blob);
    r := ProfileVerdict(v);
    if r.Rejected? {
      return;
    }
    var addresses := v[22..25];
    var frontEnd := addresses[0] + FRAME_SIZE;
    if frontEnd > 0xFFFF_FFFF || addresses[0] < LOADER_PSRAM.start || frontEnd > LOADER_PSRAM.end {
      return Rejected("loader-front-bounds");
    }
    if addresses[1..] != [BACKBUFFER, SPAREBUFFER] {
      return Rejected("display-pool-layout");
    }
    r := CheckFrames(addresses);
    if r.Rejected? {
      return;
    }
    r := DescriptorVerdict(v);
    if r.Rejected? {
      return;
    }
    r := PeripheralVerdict(v, hw);
    if r.Rejected? {
      return;
    }
    r := HardwareVerdict(v, hw);
  }

  // ---------------------------------------------------------------------------------------------
  // The loader: reservation, policy and contract
  // ---------------------------------------------------------------------------------------------

  const WORD := 0x1_0000_0000

  /** `cold_dma_bus_address`: the uncached alias and the cached address are one bus address. */
  function BusAddress(address: nat): nat {
    if address >= 0x8000_0000 then address - 0x4000_0000 else address
  }

  /** Cached memory and its uncached alias, 1 GiB above, are the same memory. */
  lemma AliasesAgree(address: nat)
    requires 0x4000_0000 <= address < 0x8000_0000
    ensures BusAddress(address) == address == BusAddress(address + 0x4000_0000)
  {
  }

  function AlignDown(address: nat): nat {
    address - address % PAGE_SIZE
  }

  function AlignUp(address: nat): nat {
    AlignDown((address + 0xFFF) % WORD)
  }

  /** The placement checks of `cold_reserve_dma_memory`, in 32-bit arithmetic. */
  predicate ReservationPasses(frontPointer: nat, descriptorPointer: nat) {
    var front := BusAddress(frontPointer);
    var frontEnd := (front + FRAME_SIZE) % WORD;
    var descriptors := BusAddress(descriptorPointer);
    var descriptorsEnd := (descriptors + PAGE_SIZE) % WORD;
    !(frontEnd < front || front < LOADER_PSRAM.start || frontEnd > LOADER_PSRAM.end || front % PAGE_SIZE != 0
      || descriptorsEnd < descriptors || descriptors < DESCRIPTOR_SRAM.start || descriptorsEnd > DESCRIPTOR_SRAM.end
      || (descriptors < SD_DMA_SRAM.end && SD_DMA_SRAM.start < descriptorsEnd)
      || descriptors % PAGE_SIZE != 0
      || BACKBUFFER + FRAME_SIZE > SPAREBUFFER || SPAREBUFFER + FRAME_SIZE > DISPLAY_POOL.end)
  }

  /** What a reservation amounts to, in plain arithmetic. */
  predicate Reserved(front: nat, descriptors: nat) {
    && LOADER_PSRAM.start <= front && front + FRAME_SIZE <= LOADER_PSRAM.end && front % PAGE_SIZE == 0
    && DESCRIPTOR_SRAM.start <= descriptors && descriptors + PAGE_SIZE <= DESCRIPTOR_SRAM.end
    && descriptors % PAGE_SIZE == 0
    && !Overlaps(Range(descriptors, descriptors + PAGE_SIZE), SD_DMA_SRAM)
  }

  /** The windows the loader asks the DMA permission unit for. */
  function PolicyRegions(front: nat, descriptors: nat): seq<Range> {
    [Range(AlignDown(front), AlignUp((front + FRAME_SIZE) % WORD)),
     DISPLAY_POOL,
     Range(AlignDown(descriptors), AlignUp((descriptors + PAGE_SIZE) % WORD)),
     FIFO_WINDOW]
  }

  /** Every field of the staged contract but the CRC. */
  function LoaderFields(front: nat, descriptors: nat): (v: seq<nat>)
    ensures |v| == 48
  {
    [MAGIC, ABI_VERSION, CONTRACT_SIZE, REQUIRED_FLAGS, 1, 1] + PROFILE
    + [front, BACKBUFFER, SPAREBUFFER, FRAME_SIZE, descriptors, DESCRIPTOR_SIZE, DESCRIPTOR_COUNT, 0]
    + PERIPHERALS
  }

  /** The complete contract, magic included, sealed with its CRC. */
  function Contract(front: nat, descriptors: nat): (blob: seq<byte>)
    ensures |blob| == CONTRACT_SIZE
  {
    var body := Pack(LoaderFields(front, descriptors));
    body + Le32(Crc(body))
  }

  predicate HardwareReady(hw: Hardware, front: nat, descriptors: nat) {
    && hw.siliconRevision == SILICON_REVISION && hw.irqDataAvailable && hw.linuxHwirq == CLIC_IRQ
    && hw.gdmaReset && hw.dsiReset
    && !hw.gdmaCpuClock && !hw.gdmaSysClock && !hw.dsiSysClock
    && !hw.dphyConfigClock && !hw.dphyPllClock && !hw.dpiClock && !hw.i2cClock && !hw.dphyLdo
    && hw.irqRoute == CLIC_IRQ && hw.readMask == READ_MASK && hw.writeMask == WRITE_MASK
    && hw.pmsRegions == PolicyRegions(front, descriptors)
    && |hw.descriptorBacking| == PAGE_SIZE && (forall b :: b in hw.descriptorBacking ==> b == 0)
  }

  /** The 32-bit checks never wrap and mean exactly the plain conditions. */
  lemma ReservationMeaning(frontPointer: nat, descriptorPointer: nat)
    requires frontPointer < WORD && descriptorPointer < WORD
    ensures ReservationPasses(frontPointer, descriptorPointer)
            <==> Reserved(BusAddress(frontPointer), BusAddress(descriptorPointer))
  {
  }

  /** Page-isolated resources need no rounding: the PMS windows are the published ranges. */
  lemma PolicyIsExact(front: nat, descriptors: nat)
    requires Reserved(front, descriptors)
    ensures PolicyRegions(front, descriptors) == ExpectedRegions(front, descriptors)
  {
    Aligned(front);
    Aligned(front + FRAME_SIZE);
    Aligned(descriptors);
    Aligned(descriptors + PAGE_SIZE);
  }

  lemma Aligned(address: nat)
    requires address % PAGE_SIZE == 0 && address + 0xFFF < WORD
    ensures AlignDown(address) == address && AlignUp(address % WORD) == address
  {
  }

  lemma {:induction false} PackWordsAppend(ws: seq<nat>, w: nat)
    ensures PackWords(ws + [w]) == PackWords(ws) + Le32(w)
  {
    if ws == [] {
      assert (ws + [w])[1..] == [];
    } else {
      assert (ws + [w])[1..] == ws[1..] + [w];
      PackWordsAppend(ws[1..], w);
    }
  }

  lemma PackAppend(v: seq<nat>, w: nat)
    requires |v| >= 3
    ensures Pack(v + [w]) == Pack(v) + Le32(w)
  {
    assert (v + [w])[3..] == v[3..] + [w];
    PackWordsAppend(v[3..], w);
  }

  lemma LoaderFieldsFit(front: nat, descriptors: nat)
    requires front < WORD && descriptors < WORD
    ensures var v := LoaderFields(front, descriptors);
            Fields32(v) && v[0] == MAGIC && v[1] == ABI_VERSION && v[2] == CONTRACT_SIZE
  {
  }

  /** Linux decodes the loader's contract to the loader's fields. */
  lemma ContractFields(front: nat, descriptors: nat)
    requires front < WORD && descriptors < WORD
    ensures var blob := Contract(front, descriptors);
            && Unpack(blob) == LoaderFields(front, descriptors) + [Crc(blob[..188])]
            && blob[..188] == Pack(LoaderFields(front, descriptors))
            && Sealed(blob)
  {
    var v := LoaderFields(front, descriptors);
    LoaderFieldsFit(front, descriptors);
    SealedFields(v, Pack(v));
  }

  lemma SealedFields(v: seq<nat>, body: seq<byte>)
    requires |v| == 48 && Fields32(v) && v[1] < 0x1_0000 && v[2] < 0x1_0000 && body == Pack(v)
    ensures var blob := body + Le32(Crc(body));
            && Unpack(blob) == v + [Crc(body)] && blob[..188] == body && blob[188..] == Le32(Crc(body))
  {
    PackAppend(v, Crc(body));
    UnpackOfPack(v + [Crc(body)]);
  }

  lemma LastField(blob: seq<byte>)
    requires |blob| == CONTRACT_SIZE
    ensures Unpack(blob)[CRC32] == U32(blob, 188)
    ensures Unpack(blob)[0] == U32(blob, 0) && Unpack(blob)[1] == U16(blob, 4) && Unpack(blob)[2] == U16(blob, 6)
  {
    WordsAt(blob, 8, 46, 45);
  }

  lemma {:induction false} WordsAt(blob: seq<byte>, offset: nat, count: nat, i: nat)
    requires offset + 4 * count <= |blob| && i < count
    ensures Words(blob, offset, count)[i] == U32(blob, offset + 4 * i)
    decreases count
  {
    if i != 0 {
      WordsAt(blob, offset + 4, count - 1, i - 1);
    }
  }

  // ---------------------------------------------------------------------------------------------
  // Agreement
  // ---------------------------------------------------------------------------------------------

  /** Every reservation the loader accepts yields a contract Linux accepts. */
  lemma LoaderContractAccepted(front: nat, descriptors: nat, hw: Hardware)
    requires Reserved(front, descriptors) && HardwareReady(hw, front, descriptors)
    ensures Validate(Contract(front, descriptors), hw) == Accepted
  {
    var v := Unpack(Contract(front, descriptors));
    HeaderAccepted(front, descriptors);
    PolicyIsExact(front, descriptors);
    FieldsAccepted(front, descriptors, v, hw);
  }

  lemma HeaderAccepted(front: nat, descriptors: nat)
    requires front < WORD && descriptors < WORD
    ensures HeaderVerdict(Contract(front, descriptors)) == Accepted
    ensures Unpack(Contract(front, descriptors))[..48] == LoaderFields(front, descriptors)
  {
    var blob, v := Contract(front, descriptors), LoaderFields(front, descriptors);
    ContractFields(front, descriptors);
    LoaderFieldsFit(front, descriptors);
    assert Unpack(blob)[..48] == v;
    assert Unpack(blob)[0] == v[0] && Unpack(blob)[1] == v[1] && Unpack(blob)[2] == v[2];
    LastField(blob);
  }

  lemma FieldsAccepted(front: nat, descriptors: nat, v: seq<nat>, hw: Hardware)
    requires Reserved(front, descriptors) && HardwareReady(hw, front, descriptors)
    requires PolicyRegions(front, descriptors) == ExpectedRegions(front, descriptors)
    requires |v| == FIELD_COUNT && v[..48] == LoaderFields(front, descriptors)
    ensures FieldsVerdict(v, hw) == Accepted
  {
    var w := LoaderFields(front, descriptors);
    assert forall i :: 0 <= i < 48 ==> v[i] == v[..48][i];
    assert v[6..22] == w[6..22] == PROFILE;
    assert v[30..48] == w[30..48] == PERIPHERALS;
    assert v[22..25] == w[22..25] == [front, BACKBUFFER, SPAREBUFFER];
    FramesAccepted(front);
  }

  lemma FramesAccepted(front: nat)
    requires LOADER_PSRAM.start <= front && front + FRAME_SIZE <= LOADER_PSRAM.end && front % PAGE_SIZE == 0
    ensures AddressVerdict([front, BACKBUFFER, SPAREBUFFER]) == Accepted
  {
    var a := [front, BACKBUFFER, SPAREBUFFER];
    assert FramesVerdict(a, 3) == Accepted;
    assert FramesVerdict(a, 2) == Accepted;
    assert FramesVerdict(a, 1) == Accepted;
    assert a[1..] == [BACKBUFFER, SPAREBUFFER];
  }

  /** The front and descriptor addresses a contract publishes. */
  function Front(blob: seq<byte>): nat
    requires |blob| == CONTRACT_SIZE
  {
    Unpack(blob)[FRAMEBUFFER0]
  }

  function Descriptors(blob: seq<byte>): nat
    requires |blob| == CONTRACT_SIZE
  {
    Unpack(blob)[DESCRIPTOR_ADDRESS]
  }

  /** Nothing else is accepted: an accepted contract is, octet for octet, the loader's. */
  lemma AcceptedIsLoaderContract(blob: seq<byte>, hw: Hardware)
    requires Validate(blob, hw) == Accepted
    ensures |blob| == CONTRACT_SIZE && Reserved(Front(blob), Descriptors(blob))
    ensures blob == Contract(Front(blob), Descriptors(blob)) && Sealed(blob)
    ensures HardwareReady(hw, Front(blob), Descriptors(blob))
  {
    var v := Unpack(blob);
    LastField(blob);
    FieldsPinned(v, hw);
    PolicyIsExact(v[FRAMEBUFFER0], v[DESCRIPTOR_ADDRESS]);
    HardwarePinned(v, hw);
    AcceptedOctets(blob);
  }

  lemma AcceptedOctets(blob: seq<byte>)
    requires |blob| == CONTRACT_SIZE && U32(blob, 188) == Crc(blob[..188])
    requires Unpack(blob)[..48] == LoaderFields(Front(blob), Descriptors(blob))
    ensures blob == Contract(Front(blob), Descriptors(blob)) && Sealed(blob)
  {
    PackOfUnpack(blob);
    LastField(blob);
    SealOfFields(blob, Unpack(blob));
  }

  lemma SealOfFields(blob: seq<byte>, v: seq<nat>)
    requires |v| == FIELD_COUNT && Pack(v) == blob && v[48] == Crc(blob[..188])
    ensures blob[..188] == Pack(v[..48]) && blob == Pack(v[..48]) + Le32(Crc(Pack(v[..48]))) && Sealed(blob)
  {
    assert v == v[..48] + [v[48]];
    PackAppend(v[..48], v[48]);
  }

  lemma FieldsPinned(v: seq<nat>, hw: Hardware)
    requires |v| == FIELD_COUNT && FieldsVerdict(v, hw) == Accepted
    requires v[0] == MAGIC && v[1] == ABI_VERSION && v[2] == CONTRACT_SIZE
    ensures v[..48] == LoaderFields(v[FRAMEBUFFER0], v[DESCRIPTOR_ADDRESS])
    ensures Reserved(v[FRAMEBUFFER0], v[DESCRIPTOR_ADDRESS])
  {
    var a := v[22..25];
    assert a[1..] == [BACKBUFFER, SPAREBUFFER];
    assert v[22] == a[0] && v[23] == a[1..][0] && v[24] == a[1..][1];
    assert FramesVerdict(a, 0) == Accepted;
    assert v[..48] == [v[0], v[1], v[2], v[3], v[4], v[5]] + v[6..22]
                      + [v[22], v[23], v[24], v[25], v[26], v[27], v[28], v[29]] + v[30..48];
  }

  lemma HardwarePinned(v: seq<nat>, hw: Hardware)
    requires |v| == FIELD_COUNT && FieldsVerdict(v, hw) == Accepted
    requires PolicyRegions(v[FRAMEBUFFER0], v[DESCRIPTOR_ADDRESS])
             == ExpectedRegions(v[FRAMEBUFFER0], v[DESCRIPTOR_ADDRESS])
    ensures HardwareReady(hw, v[FRAMEBUFFER0], v[DESCRIPTOR_ADDRESS])
  {
  }

  /** Loader and Linux agree: acceptance is exactly being the contract of some reservation. */
  lemma AcceptedIff(blob: seq<byte>, hw: Hardware)
    ensures Validate(blob, hw) == Accepted
            <==> exists front, descriptors ::
                   && Reserved(front, descriptors) && HardwareReady(hw, front, descriptors)
                   && blob == Contract(front, descriptors)
  {
    if Validate(blob, hw) == Accepted {
      AcceptedIsLoaderContract(blob, hw);
    }
    forall front, descriptors |
      Reserved(front, descriptors) && HardwareReady(hw, front, descriptors) && blob == Contract(front, descriptors)
      ensures Validate(blob, hw) == Accepted
    {
      LoaderContractAccepted(front, descriptors, hw);
    }
  }

  /** Everything the display may touch under an accepted contract. */
  function DisplayMemory(front: nat, descriptors: nat): seq<Range> {
    [FrameRange(front), FrameRange(BACKBUFFER), FrameRange(SPAREBUFFER), Range(descriptors, descriptors + PAGE_SIZE)]
  }

  function ForeignMemory(): seq<Range> {
    [SD_DMA_SRAM, KERNEL_RAM, USER_POOL, COMMS_POOL]
  }

  /** The display's four pieces of memory are pairwise disjoint and clear of everybody else's. */
  lemma AcceptedMemoryDisjoint(blob: seq<byte>, hw: Hardware, i: nat, j: nat)
    requires Validate(blob, hw) == Accepted
    ensures |blob| == CONTRACT_SIZE
    ensures var mine := DisplayMemory(Front(blob), Descriptors(blob));
            && (i < j < 4 ==> !Overlaps(mine[i], mine[j]))
            && (i < 4 && j < 4 ==> !Overlaps(mine[i], ForeignMemory()[j]))
  {
    AcceptedIsLoaderContract(blob, hw);
    ReservedDisjoint(Front(blob), Descriptors(blob), i, j);
  }

  lemma ReservedDisjoint(front: nat, descriptors: nat, i: nat, j: nat)
    requires Reserved(front, descriptors)
    ensures var mine := DisplayMemory(front, descriptors);
            && (i < j < 4 ==> !Overlaps(mine[i], mine[j]))
            && (i < 4 && j < 4 ==> !Overlaps(mine[i], ForeignMemory()[j]))
  {
  }

  /**
   * Any damage confined to four consecutive octets of an accepted contract (a fortiori any single
   * wrong octet), CRC field included, is rejected whatever the hardware reports.
   */
  lemma DamageRejected(blob: seq<byte>, hw: Hardware, damaged: seq<byte>, hw': Hardware, at: nat)
    requires Validate(blob, hw) == Accepted
    requires |damaged| == |blob| && damaged != blob
    requires forall k :: 0 <= k < |blob| && !(at <= k < at + 4) ==> damaged[k] == blob[k]
    ensures Validate(damaged, hw').Rejected?
  {
    AcceptedIsLoaderContract(blob, hw);
    if Validate(damaged, hw') == Accepted {
      AcceptedIsLoaderContract(damaged, hw');
      SealedFourOctets(blob, damaged, at);
    }
  }
}
