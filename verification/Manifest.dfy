/**
 * The boot manifest: `m3-pack.py` checks a kernel image and a device tree and describes them in 128
 * sealed octets, the loader validates the description and loads the kernel it describes.
 */
module Manifest {
  import opened Wrappers
  import opened Bytes
  import opened Crc32
  import C = ColdContract

  const MAGIC := 0x3358_4E4D
  const ABI := 1
  const SIZE := 128
  const FLAG_DTB := 1
  const KERNEL_ADDRESS := 0x4840_0000
  const DISPLAY_POOL_ADDRESS := 0x4930_0000
  const COMMS_ADDRESS := 0x49F0_0000
  const WORD := 0x1_0000_0000
  const CACHE_ALIGNMENT := 128
  const READ_CHUNK := 0x8_0000
  const IMAGE_MAGIC: seq<byte> := [0x52, 0x49, 0x53, 0x43, 0x56, 0, 0, 0]
  const FDT_MAGIC: seq<byte> := [0xD0, 0x0D, 0xFE, 0xED]

  // ---------------------------------------------------------------------------------------------
  // The packer
  // ---------------------------------------------------------------------------------------------

  function U64(s: seq<byte>, offset: nat): nat
    requires offset + 8 <= |s|
  {
    U32(s, offset) + WORD * U32(s, offset + 4)
  }

  /** `read_image`: the memory span the image header asks for. */
  function ReadImage(image: seq<byte>, limit: nat): Result<nat, string> {
    if |image| < 64 then Err("too short")
    else
      var textOffset, memorySize := U64(image, 8), U64(image, 16);
      if image[48..56] != IMAGE_MAGIC then Err("no RISC-V header")
      else if textOffset != 0 then Err("text offset")
      else if memorySize < |image| then Err("memory span smaller than file")
      else if KERNEL_ADDRESS + memorySize > limit then Err("past the boundary")
      else Ok(memorySize)
  }

  /** The big-endian number at offset 4 of a device tree. */
  function DeclaredSize(dtb: seq<byte>): nat
    requires |dtb| >= 8
  {
    (((dtb[4] as nat) * 0x100 + dtb[5]) * 0x100 + dtb[6]) * 0x100 + dtb[7]
  }

  /** `read_dtb`. */
  predicate DtbReadable(dtb: seq<byte>) {
    |dtb| >= 40 && dtb[..4] == FDT_MAGIC && DeclaredSize(dtb) == |dtb|
  }

  /** What a manifest says. */
  datatype Payload = Payload(kernelFile: nat, kernelMemory: nat, dtbSize: nat,
                             kernelDigest: seq<byte>, dtbDigest: seq<byte>)

  predicate Fits(p: Payload) {
    && p.kernelFile < WORD && p.kernelMemory < WORD && p.dtbSize < WORD
    && |p.kernelDigest| == 32 && |p.dtbDigest| == 32
  }

  function HeaderWords(p: Payload): seq<nat> {
    [MAGIC, ABI, SIZE, FLAG_DTB, KERNEL_ADDRESS, p.kernelFile, p.kernelMemory, p.dtbSize]
  }

  /** The manifest of a payload around the given reserved octets. */
  function Encode(p: Payload, reserved: seq<byte>): (m: seq<byte>)
    requires Fits(p) && |reserved| == 28
    ensures |m| == SIZE
  {
    Body(p, reserved) + Le32(Crc(Body(p, reserved)))
  }

  /**
   * The packer as a whole. The digests are SHA-256 of the two inputs; a memory span that is no
   * 32-bit number cannot be packed.
   */
  function Package(image: seq<byte>, dtb: seq<byte>, limit: nat, imageDigest: seq<byte>, dtbDigest: seq<byte>)
    : Result<seq<byte>, string>
    requires |imageDigest| == 32 && |dtbDigest| == 32
  {
    match ReadImage(image, limit)
    case Err(reason) => Err(reason)
    case Ok(memorySize) =>
      if !DtbReadable(dtb) then Err("not a device tree")
      else if memorySize >= WORD then Err("cannot pack")
      else Ok(Encode(Payload(|image|, memorySize, |dtb|, imageDigest, dtbDigest), Zeros(28)))
  }

  /**
   * What the packer takes, octet by octet: a RISC-V image that is loaded at its start, asks for at
   * least its own size and ends at or below the limit, and a device tree of its declared size.
   */
  lemma PackageMeaning(image: seq<byte>, dtb: seq<byte>, limit: nat, imageDigest: seq<byte>, dtbDigest: seq<byte>)
    requires |imageDigest| == 32 && |dtbDigest| == 32
    ensures Package(image, dtb, limit, imageDigest, dtbDigest).Ok?
            <==> && |image| >= 64 && image[48..56] == [0x52, 0x49, 0x53, 0x43, 0x56, 0, 0, 0]
                 && U32(image, 8) == 0 == U32(image, 12)
                 && var span := U32(image, 16) + 0x1_0000_0000 * U32(image, 20);
                 && |image| <= span < 0x1_0000_0000 && 0x4840_0000 + span <= limit
                 && |dtb| >= 40 && dtb[..4] == [0xD0, 0x0D, 0xFE, 0xED]
                 && |dtb| == 0x1_0000 * U16([dtb[5], dtb[4]], 0) + U16([dtb[7], dtb[6]], 0)
  {
  }

  // ---------------------------------------------------------------------------------------------
  // The loader
  // ---------------------------------------------------------------------------------------------

  /** The checks of `validate_manifest`, early-deny profile, on the structure it has read. */
  function Check(m: seq<byte>): Result<Payload, string>
    requires |m| == SIZE
  {
    var w := C.Words(m[..32], 0, 8);
    if w[0] != MAGIC || w[1] != ABI || w[2] != SIZE || U32(m, 124) != Crc(m[..124]) then
      Err("metadata-validation")
    else if w[3] != FLAG_DTB || w[4] != KERNEL_ADDRESS || w[5] == 0 || w[6] < w[5] || w[7] < 40 then
      Err("metadata-contract")
    else if KERNEL_ADDRESS + w[6] > DISPLAY_POOL_ADDRESS then Err("kernel-memory-span")
    else Ok(Payload(w[5], w[6], w[7], m[32..64], m[64..96]))
  }

  /** `validate_manifest` on the contents of the metadata partition. */
  function Validate(partition: seq<byte>): Result<Payload, string> {
    if |partition| < SIZE then Err("metadata-partition") else Check(partition[..SIZE])
  }

  /** What the loader demands of a payload. */
  predicate Loadable(p: Payload) {
    && Fits(p) && p.kernelFile > 0 && p.kernelFile <= p.kernelMemory && p.dtbSize >= 40
    && KERNEL_ADDRESS + p.kernelMemory <= DISPLAY_POOL_ADDRESS
  }

  lemma HeaderReadBack(p: Payload, header: seq<byte>)
    requires Fits(p) && header == C.PackWords(HeaderWords(p))
    ensures C.Words(header, 0, 8) == HeaderWords(p)
  {
    assert header[0..] == header;
    C.WordsOfPack(HeaderWords(p), header, 0);
  }

  function Body(p: Payload, reserved: seq<byte>): (s: seq<byte>)
    requires Fits(p) && |reserved| == 28
    ensures |s| == 124
  {
    C.PackWords(HeaderWords(p)) + p.kernelDigest + p.dtbDigest + reserved
  }

  lemma BodyParts(p: Payload, reserved: seq<byte>, body: seq<byte>)
    requires Fits(p) && |reserved| == 28 && body == Body(p, reserved)
    ensures body[..32] == C.PackWords(HeaderWords(p)) && body[32..64] == p.kernelDigest
    ensures body[64..96] == p.dtbDigest && body[96..124] == reserved
  {
  }

  /** A body with its CRC appended is sealed, and the CRC reads back. */
  lemma SealParts(body: seq<byte>, m: seq<byte>)
    requires |body| == 124 && m == body + Le32(Crc(body))
    ensures m[..124] == body && U32(m, 124) == Crc(m[..124]) && Sealed(m)
    ensures m[..32] == body[..32] && m[32..64] == body[32..64] && m[64..96] == body[64..96]
  {
    assert m[..124] == body && m[124..] == Le32(Crc(body));
    assert m[124] == m[124..][0] && m[125] == m[124..][1] && m[126] == m[124..][2] && m[127] == m[124..][3];
    Le32ThenU32(Crc(body), m, 124);
  }

  lemma EncodeParts(p: Payload, reserved: seq<byte>)
    requires Fits(p) && |reserved| == 28
    ensures var m := Encode(p, reserved);
            && m[..32] == C.PackWords(HeaderWords(p)) && m[32..64] == p.kernelDigest && m[64..96] == p.dtbDigest
            && U32(m, 124) == Crc(m[..124]) && Sealed(m)
  {
    var body := Body(p, reserved);
    BodyParts(p, reserved, body);
    SealParts(body, Encode(p, reserved));
  }

  lemma CheckFromParts(m: seq<byte>, p: Payload)
    requires |m| == SIZE && Fits(p) && C.Words(m[..32], 0, 8) == HeaderWords(p)
    requires m[32..64] == p.kernelDigest && m[64..96] == p.dtbDigest && U32(m, 124) == Crc(m[..124])
    ensures Check(m).Ok? <==> Loadable(p)
    ensures Loadable(p) ==> Check(m) == Ok(p)
  {
  }

  lemma CheckOfEncode(p: Payload, reserved: seq<byte>)
    requires Fits(p) && |reserved| == 28
    ensures Check(Encode(p, reserved)).Ok? <==> Loadable(p)
    ensures Loadable(p) ==> Check(Encode(p, reserved)) == Ok(p)
  {
    var m := Encode(p, reserved);
    EncodeParts(p, reserved);
    HeaderReadBack(p, m[..32]);
    CheckFromParts(m, p);
  }

  /** A manifest at the head of the partition is read as exactly what it was made of, or refused. */
  lemma ValidateOfEncode(p: Payload, reserved: seq<byte>, rest: seq<byte>)
    requires Fits(p) && |reserved| == 28
    ensures Validate(Encode(p, reserved) + rest).Ok? <==> Loadable(p)
    ensures Loadable(p) ==> Validate(Encode(p, reserved) + rest) == Ok(p)
  {
    CheckOfEncode(p, reserved);
    assert (Encode(p, reserved) + rest)[..SIZE] == Encode(p, reserved);
  }

  /** What is accepted is loadable, its header is that of the payload read, and its CRC is right. */
  lemma CheckedParts(m: seq<byte>, p: Payload)
    requires |m| == SIZE && Check(m) == Ok(p)
    ensures Loadable(p) && C.Words(m[..32], 0, 8) == HeaderWords(p)
    ensures p.kernelDigest == m[32..64] && p.dtbDigest == m[64..96] && U32(m, 124) == Crc(m[..124])
  {
  }

  lemma BodyOf(p: Payload, m: seq<byte>)
    requires Fits(p) && |m| == SIZE && C.Words(m[..32], 0, 8) == HeaderWords(p)
    requires p.kernelDigest == m[32..64] && p.dtbDigest == m[64..96]
    ensures m[..124] == Body(p, m[96..124])
  {
    C.PackOfWords(m[..32], 0, 8);
    assert m[..32][0..] == m[..32];
    assert m[..124] == m[..32] + m[32..64] + m[64..96] + m[96..124];
  }

  lemma SealOf(m: seq<byte>, body: seq<byte>)
    requires |m| == SIZE && body == m[..124] && U32(m, 124) == Crc(body)
    ensures m == body + Le32(Crc(body)) && Sealed(m)
  {
    U32ThenLe32(m, 124);
    assert m == m[..124] + m[124..128];
  }

  /** And nothing else is accepted: the octets are the manifest of what was read from them. */
  lemma EncodeOfCheck(m: seq<byte>, p: Payload)
    requires |m| == SIZE && Check(m) == Ok(p)
    ensures Loadable(p) && m == Encode(p, m[96..124]) && Sealed(m)
  {
    CheckedParts(m, p);
    BodyOf(p, m);
    SealOf(m, Body(p, m[96..124]));
  }

  /**
   * Whatever the packer's limit, the loader accepts its output exactly when the memory span ends at
   * or below the display pool, and then reads the same sizes and digests.
   */
  lemma PackageAccepted(image: seq<byte>, dtb: seq<byte>, limit: nat, imageDigest: seq<byte>, dtbDigest: seq<byte>)
    requires |imageDigest| == 32 && |dtbDigest| == 32
    requires Package(image, dtb, limit, imageDigest, dtbDigest).Ok?
    ensures var m := Package(image, dtb, limit, imageDigest, dtbDigest).value;
            var span := ReadImage(image, limit).value;
            && |m| == SIZE
            && (Validate(m).Ok? <==> span <= DISPLAY_POOL_ADDRESS - KERNEL_ADDRESS)
            && (limit <= DISPLAY_POOL_ADDRESS ==> Validate(m).Ok?)
            && (Validate(m).Ok? ==> Validate(m) == Ok(Payload(|image|, span, |dtb|, imageDigest, dtbDigest)))
  {
    var span := ReadImage(image, limit).value;
    var p := Payload(|image|, span, |dtb|, imageDigest, dtbDigest);
    ValidateOfEncode(p, Zeros(28), []);
    assert Encode(p, Zeros(28)) + [] == Encode(p, Zeros(28));
  }

  function WideOctet(i: nat): byte {
    if i == 16 then 1 else if i == 18 then 0xF0 else if 48 <= i < 56 then IMAGE_MAGIC[i - 48] else 0
  }

  /** A bare image header that asks for one octet more than lies below the display pool. */
  function WideImage(): (image: seq<byte>)
    ensures |image| == 64 && forall i :: 0 <= i < 64 ==> image[i] == WideOctet(i)
  {
    seq(64, i requires 0 <= i < 64 => WideOctet(i))
  }

  lemma WideImageAccepted()
    ensures ReadImage(WideImage(), COMMS_ADDRESS) == Ok(0xF0_0001)
  {
  }

  /** The packer's default limit takes that image; the loader refuses the manifest made of it. */
  lemma DefaultLimitTooWide(dtb: seq<byte>, imageDigest: seq<byte>, dtbDigest: seq<byte>)
    requires DtbReadable(dtb) && |imageDigest| == 32 && |dtbDigest| == 32
    ensures var r := Package(WideImage(), dtb, COMMS_ADDRESS, imageDigest, dtbDigest);
            r.Ok? && Validate(r.value).Err?
  {
    WideImageAccepted();
    PackageAccepted(WideImage(), dtb, COMMS_ADDRESS, imageDigest, dtbDigest);
  }

  /** Damage within four consecutive octets of an accepted manifest is always refused. */
  lemma DamageRefused(partition: seq<byte>, damaged: seq<byte>, at: nat)
    requires Validate(partition).Ok? && |damaged| == |partition|
    requires damaged[..SIZE] != partition[..SIZE]
    requires forall k :: 0 <= k < |partition| && !(at <= k < at + 4) ==> damaged[k] == partition[k]
    ensures Validate(damaged).Err?
  {
    if Validate(damaged).Ok? {
      EncodeOfCheck(partition[..SIZE], Validate(partition).value);
      EncodeOfCheck(damaged[..SIZE], Validate(damaged).value);
      SealedFourOctets(partition[..SIZE], damaged[..SIZE], at);
    }
  }

  // ---------------------------------------------------------------------------------------------
  // Loading
  // ---------------------------------------------------------------------------------------------

  function AlignUp(value: nat, alignment: nat): nat
    requires alignment > 0
  {
    (value + alignment - 1) / alignment * alignment
  }

  /** After validation the rounded kernel allocation still ends below the display pool. */
  lemma AllocationSpanHolds(partition: seq<byte>)
    requires Validate(partition).Ok?
    ensures var p := Validate(partition).value;
            && p.kernelMemory <= AlignUp(p.kernelMemory, CACHE_ALIGNMENT)
            && p.kernelMemory + CACHE_ALIGNMENT - 1 < WORD
            && KERNEL_ADDRESS + AlignUp(p.kernelMemory, CACHE_ALIGNMENT) <= DISPLAY_POOL_ADDRESS
  {
    CheckedParts(partition[..SIZE], Validate(partition).value);
    AlignedSpan(Validate(partition).value.kernelMemory);
  }

  /** The boundary is itself aligned, so rounding up does not cross it. */
  lemma AlignedSpan(n: nat)
    requires KERNEL_ADDRESS + n <= DISPLAY_POOL_ADDRESS
    ensures n <= AlignUp(n, CACHE_ALIGNMENT) && KERNEL_ADDRESS + AlignUp(n, CACHE_ALIGNMENT) <= DISPLAY_POOL_ADDRESS
  {
  }

  function Percent(offset: nat, size: nat): nat
    requires size > 0
  {
    30 + offset * 50 / size
  }

  /** Progress reports that stay between 30 and 80 and never fall. */
  predicate Rising(progress: seq<nat>) {
    && (forall k :: 0 <= k < |progress| ==> 30 <= progress[k] <= 80)
    && (forall j, k :: 0 <= j < k < |progress| ==> progress[j] <= progress[k])
  }

  lemma PercentGrows(before: nat, after: nat, size: nat)
    requires before <= after <= size && size > 0
    ensures Percent(before, size) <= Percent(after, size) <= Percent(size, size) == 80
  {
    DivMono(before * 50, after * 50, size);
    DivMono(after * 50, size * 50, size);
    DivMod(0, 50, size);
  }

  /** `load_kernel`: the image in chunks, with the progress reported after each. */
  method LoadKernel(partition: seq<byte>, kernel: array<byte>, size: nat) returns (progress: seq<nat>)
    requires size <= |partition| && size <= kernel.Length
    modifies kernel
    ensures forall i :: 0 <= i < kernel.Length ==> kernel[i] == if i < size then partition[i] else old(kernel[i])
    ensures Rising(progress) && (size > 0 ==> progress != [] && progress[|progress| - 1] == 80)
  {
    progress := [];
    var offset, percent := 0, 30;
    while offset < size
      invariant 0 <= offset <= size && Rising(progress)
      invariant progress != [] ==> progress[|progress| - 1] == percent
      invariant size > 0 ==> percent == Percent(offset, size)
      invariant offset > 0 ==> progress != []
      invariant forall i :: 0 <= i < kernel.Length ==> kernel[i] == if i < offset then partition[i] else old(kernel[i])
    {
      var remaining := size - offset;
      var chunk := if remaining < READ_CHUNK then remaining else READ_CHUNK;
      ReadInto(partition, kernel, offset, chunk);
      PercentGrows(offset, offset + chunk, size);
      offset := offset + chunk;
      percent := Percent(offset, size);
      progress := progress + [percent];
    }
    if size > 0 {
      PercentGrows(size, size, size);
    }
  }

  lemma DivMono(a: nat, b: nat, d: nat)
    requires a <= b && d > 0
    ensures a / d <= b / d
  {
    var q, r := a / d, b / d;
    assert a == d * q + a % d && b == d * r + b % d;
    if q > r {
      MulMono(d, r + 1, q);
    }
  }

  /** One flash read into the kernel buffer. */
  method ReadInto(partition: seq<byte>, kernel: array<byte>, offset: nat, count: nat)
    requires offset + count <= |partition| && offset + count <= kernel.Length
    modifies kernel
    ensures forall i :: 0 <= i < kernel.Length ==>
              kernel[i] == if offset <= i < offset + count then partition[i] else old(kernel[i])
  {
    for n := 0 to count
      invariant forall i :: 0 <= i < kernel.Length ==>
                  kernel[i] == if offset <= i < offset + n then partition[i] else old(kernel[i])
    {
      kernel[offset + n] := partition[offset + n];
    }
  }
}
