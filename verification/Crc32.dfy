/**
 * The CRC-32 of section 8 of RFC 1952 (reflected polynomial 0xEDB88320), modelled one bit at a
 * time.  `zlib.crc32` in the Python tools and `esp_rom_crc32_le(0, ...)` in the loader compute it.
 */
module Crc32 {
  import opened Bytes

  /** The 32-bit shift register, least significant bit first. */
  type Register = r: seq<bool> | |r| == 32 witness seq(32, _ => false)

  /** The low `k` bits of a number, least significant first. */
  function LowBits(n: nat, k: nat): (bits: seq<bool>)
    ensures |bits| == k
  {
    if k == 0 then [] else [n % 2 == 1] + LowBits(n / 2, k - 1)
  }

  /** The number a bit string denotes. */
  function BitsValue(bits: seq<bool>): (n: nat)
    ensures n < Pow2(|bits|)
  {
    if bits == [] then 0 else (if bits[0] then 1 else 0) + 2 * BitsValue(bits[1..])
  }

  /** Bit `i` of the generator polynomial. */
  predicate Tap(i: nat)
    requires i < 32
  {
    0xEDB8_8320 / Pow2(i) % 2 == 1
  }

  /** One shift: the bit that falls out decides whether the polynomial is mixed in. */
  function Shift(r: Register): Register {
    seq(32, i requires 0 <= i < 32 => (i < 31 && r[i + 1]) != (r[0] && Tap(i)))
  }

  function Absorb(r: Register, bit: bool): Register {
    Shift(r[0 := r[0] != bit])
  }

  /** The register after absorbing a bit string, first bit first. */
  function Run(r: Register, bits: seq<bool>): Register
    decreases |bits|
  {
    if bits == [] then r else Run(Absorb(r, bits[0]), bits[1..])
  }

  /** A message as the bit string the register sees: octets in order, low bit first. */
  function Bits(data: seq<byte>): (bits: seq<bool>)
    ensures |bits| == 8 * |data|
  {
    if data == [] then [] else LowBits(data[0], 8) + Bits(data[1..])
  }

  function Ones(): Register {
    seq(32, _ => true)
  }

  function Complement(r: Register): Register {
    seq(32, i requires 0 <= i < 32 => !r[i])
  }

  function Crc(data: seq<byte>): (crc: nat)
    ensures crc < 0x1_0000_0000
  {
    Word32();
    BitsValue(Complement(Run(Ones(), Bits(data))))
  }

  lemma Word32()
    ensures Pow2(8) == 0x100 && Pow2(16) == 0x1_0000 && Pow2(31) == 0x8000_0000 && Pow2(32) == 0x1_0000_0000
  {
    assert Pow2(4) == 0x10;
    assert Pow2(12) == 0x1000;
    assert Pow2(16) == 0x1_0000;
    assert Pow2(20) == 0x10_0000;
    assert Pow2(24) == 0x100_0000;
    assert Pow2(28) == 0x1000_0000;
  }

  // ---------------------------------------------------------------------------------------------
  // Bit strings, numbers and messages determine each other
  // ---------------------------------------------------------------------------------------------

  lemma {:induction false} BitsValueOfLowBits(n: nat, k: nat)
    requires n < Pow2(k)
    ensures BitsValue(LowBits(n, k)) == n
  {
    if k != 0 {
      BitsValueOfLowBits(n / 2, k - 1);
      assert LowBits(n, k)[1..] == LowBits(n / 2, k - 1);
    }
  }

  lemma {:induction false} BitsValueInjective(u: seq<bool>, v: seq<bool>)
    requires |u| == |v| && BitsValue(u) == BitsValue(v)
    ensures u == v
  {
    if u != [] {
      BitsValueInjective(u[1..], v[1..]);
      assert u == [u[0]] + u[1..] && v == [v[0]] + v[1..];
    }
  }

  lemma {:induction false} BitsInjective(a: seq<byte>, b: seq<byte>)
    requires |a| == |b|
    requires Bits(a) == Bits(b)
    ensures a == b
  {
    if a != [] {
      assert Bits(a)[..8] == LowBits(a[0], 8) && Bits(a)[8..] == Bits(a[1..]);
      assert Bits(b)[..8] == LowBits(b[0], 8) && Bits(b)[8..] == Bits(b[1..]);
      Word32();
      BitsValueOfLowBits(a[0], 8);
      BitsValueOfLowBits(b[0], 8);
      BitsInjective(a[1..], b[1..]);
      assert a == [a[0]] + a[1..] && b == [b[0]] + b[1..];
    }
  }

  lemma {:induction false} BitsAt(a: seq<byte>, k: nat, j: nat)
    requires k < |a| && j < 8
    ensures Bits(a)[8 * k + j] == LowBits(a[k], 8)[j]
  {
    if k != 0 {
      BitsAt(a[1..], k - 1, j);
    }
  }

  // ---------------------------------------------------------------------------------------------
  // Error detection
  // ---------------------------------------------------------------------------------------------

  /** The polynomial has its top tap set; that is what makes every step reversible. */
  lemma TopTap()
    ensures Tap(31)
  {
    Word32();
  }

  lemma AbsorbAt(r: Register, bit: bool)
    ensures forall i :: 0 <= i < 31 ==> Absorb(r, bit)[i] == (r[i + 1] != ((r[0] != bit) && Tap(i)))
    ensures Absorb(r, bit)[31] == (r[0] != bit)
  {
    TopTap();
  }

  lemma {:induction false} RunConcat(r: Register, u: seq<bool>, v: seq<bool>)
    ensures Run(r, u + v) == Run(Run(r, u), v)
    decreases |u|
  {
    if u == [] {
      assert u + v == v;
    } else {
      assert (u + v)[1..] == u[1..] + v;
      RunConcat(Absorb(r, u[0]), u[1..], v);
    }
  }

  /** Where registers `r` and `s`, about to be fed `u` and `v`, have the same effective bit. */
  predicate SameEffect(r: Register, s: Register, u: seq<bool>, v: seq<bool>, i: nat)
    requires i < 32 && |u| == |v|
  {
    (r[i] != (i < |u| && u[i])) == (s[i] != (i < |v| && v[i]))
  }

  /**
   * Two registers that meet after absorbing at most 32 (different) bits each differed at the start
   * exactly by the bits they were fed.
   */
  lemma {:induction false} MeetingRegisters(r: Register, s: Register, u: seq<bool>, v: seq<bool>)
    requires |u| == |v| <= 32
    requires Run(r, u) == Run(s, v)
    ensures forall i :: 0 <= i < 32 ==> SameEffect(r, s, u, v, i)
    decreases |u|
  {
    if u != [] {
      var r', s' := Absorb(r, u[0]), Absorb(s, v[0]);
      MeetingRegisters(r', s', u[1..], v[1..]);
      forall i | 0 <= i < 32
        ensures SameEffect(r, s, u, v, i)
      {
        StepBack(r, s, u, v, i);
      }
    }
  }

  lemma StepBack(r: Register, s: Register, u: seq<bool>, v: seq<bool>, i: nat)
    requires 0 < |u| == |v| <= 32 && i < 32
    requires SameEffect(Absorb(r, u[0]), Absorb(s, v[0]), u[1..], v[1..], 31)
    requires i > 0 ==> SameEffect(Absorb(r, u[0]), Absorb(s, v[0]), u[1..], v[1..], i - 1)
    ensures SameEffect(r, s, u, v, i)
  {
    AbsorbAt(r, u[0]);
    AbsorbAt(s, v[0]);
  }

  /** A common continuation never makes two different registers meet. */
  lemma {:induction false} RunInjective(r: Register, s: Register, bits: seq<bool>)
    requires Run(r, bits) == Run(s, bits)
    ensures r == s
    decreases |bits|
  {
    if bits != [] {
      var r', s' := Absorb(r, bits[0]), Absorb(s, bits[0]);
      RunInjective(r', s', bits[1..]);
      MeetingRegisters(r, s, [bits[0]], [bits[0]]);
      forall i | 0 <= i < 32
        ensures r[i] == s[i]
      {
        assert SameEffect(r, s, [bits[0]], [bits[0]], i);
      }
    }
  }

  lemma CrcEqual(a: seq<byte>, b: seq<byte>)
    requires Crc(a) == Crc(b)
    ensures Run(Ones(), Bits(a)) == Run(Ones(), Bits(b))
  {
    var r, s := Run(Ones(), Bits(a)), Run(Ones(), Bits(b));
    BitsValueInjective(Complement(r), Complement(s));
    forall i | 0 <= i < 32
      ensures r[i] == s[i]
    {
      assert Complement(r)[i] == Complement(s)[i];
    }
  }

  /**
   * Burst detection: two different messages of one length whose bits agree outside some window of
   * 32 consecutive bits (not necessarily on an octet boundary) have different CRCs.
   */
  lemma BurstDetected(a: seq<byte>, b: seq<byte>, start: nat)
    requires |a| == |b| && a != b
    requires forall i :: 0 <= i < 8 * |a| && !(start <= i < start + 32) ==> Bits(a)[i] == Bits(b)[i]
    ensures Crc(a) != Crc(b)
  {
    if Crc(a) == Crc(b) {
      CrcEqual(a, b);
      SameRunSameWindow(Bits(a), Bits(b), start);
      BitsInjective(a, b);
    }
  }

  lemma SameRunSameBits(x: seq<bool>, y: seq<bool>, lo: nat, hi: nat)
    requires |x| == |y| && lo <= hi <= |x| && hi <= lo + 32
    requires x[..lo] == y[..lo] && x[hi..] == y[hi..]
    requires Run(Ones(), x) == Run(Ones(), y)
    ensures x == y
  {
    var r, u, v := Run(Ones(), x[..lo]), x[lo..hi], y[lo..hi];
    SplitRun(Ones(), x, lo, hi);
    SplitRun(Ones(), y, lo, hi);
    RunInjective(Run(r, u), Run(r, v), x[hi..]);
    MeetingRegisters(r, r, u, v);
    assert u == v by {
      forall i | 0 <= i < |u|
        ensures u[i] == v[i]
      {
        assert SameEffect(r, r, u, v, i);
      }
    }
    assert x == x[..lo] + u + x[hi..] && y == y[..lo] + v + y[hi..];
  }

  lemma SameRunSameWindow(x: seq<bool>, y: seq<bool>, start: nat)
    requires |x| == |y| && Run(Ones(), x) == Run(Ones(), y)
    requires forall i :: 0 <= i < |x| && !(start <= i < start + 32) ==> x[i] == y[i]
    ensures x == y
  {
    var lo := if start <= |x| then start else |x|;
    var hi := if start + 32 <= |x| then start + 32 else |x|;
    assert x[..lo] == y[..lo] && x[hi..] == y[hi..];
    SameRunSameBits(x, y, lo, hi);
  }

  lemma SplitRun(r: Register, x: seq<bool>, lo: nat, hi: nat)
    requires lo <= hi <= |x|
    ensures Run(r, x) == Run(Run(Run(r, x[..lo]), x[lo..hi]), x[hi..])
  {
    var u, v, w := x[..lo], x[lo..hi], x[hi..];
    RunConcat(r, u, v + w);
    RunConcat(Run(r, u), v, w);
    assert x == u + (v + w);
  }

  lemma BitsAgree(a: seq<byte>, b: seq<byte>, at: nat)
    requires |a| == |b|
    requires forall k :: 0 <= k < |a| && !(at <= k < at + 4) ==> a[k] == b[k]
    ensures forall i :: 0 <= i < 8 * |a| && !(8 * at <= i < 8 * at + 32) ==> Bits(a)[i] == Bits(b)[i]
  {
    forall i | 0 <= i < 8 * |a| && !(8 * at <= i < 8 * at + 32)
      ensures Bits(a)[i] == Bits(b)[i]
    {
      assert !(at <= i / 8 < at + 4);
      BitAgrees(a, b, i);
    }
  }

  lemma BitAgrees(a: seq<byte>, b: seq<byte>, i: nat)
    requires |a| == |b| && i < 8 * |a| && a[i / 8] == b[i / 8]
    ensures Bits(a)[i] == Bits(b)[i]
  {
    BitsAt(a, i / 8, i % 8);
    BitsAt(b, i / 8, i % 8);
  }

  /** Octet form: any change confined to four consecutive octets changes the CRC. */
  lemma FourOctetsDetected(a: seq<byte>, b: seq<byte>, at: nat)
    requires |a| == |b| && a != b
    requires forall k :: 0 <= k < |a| && !(at <= k < at + 4) ==> a[k] == b[k]
    ensures Crc(a) != Crc(b)
  {
    BitsAgree(a, b, at);
    BurstDetected(a, b, 8 * at);
  }

  // ---------------------------------------------------------------------------------------------
  // The table-driven form printed in RFC 1952
  // ---------------------------------------------------------------------------------------------

  function Falses(k: nat): seq<bool> {
    seq(k, _ => false)
  }

  function Xor(u: seq<bool>, v: seq<bool>): (w: seq<bool>)
    requires |u| == |v|
    ensures |w| == |u|
  {
    seq(|u|, i requires 0 <= i < |u| => u[i] != v[i])
  }

  /** `crc_table[index]` for an eight-bit index: eight shifts of it. */
  function Table(index: seq<bool>): Register
    requires |index| == 8
  {
    Run(index + Falses(24), Falses(8))
  }

  /** The register and its input superpose. */
  lemma {:induction false} RunLinear(r: Register, s: Register, u: seq<bool>, v: seq<bool>)
    requires |u| == |v|
    ensures Run(Xor(r, s), Xor(u, v)) == Xor(Run(r, u), Run(s, v))
    decreases |u|
  {
    if u != [] {
      assert Xor(u, v)[1..] == Xor(u[1..], v[1..]);
      assert Absorb(Xor(r, s), Xor(u, v)[0]) == Xor(Absorb(r, u[0]), Absorb(s, v[0]));
      RunLinear(Absorb(r, u[0]), Absorb(s, v[0]), u[1..], v[1..]);
    } else {
      assert Xor(u, v) == [];
    }
  }

  /** Bits above the ones being shifted out just move down. */
  lemma {:induction false} RunHigh(r: Register, k: nat)
    requires k <= 32 && forall i :: 0 <= i < k ==> !r[i]
    ensures Run(r, Falses(k)) == r[k..] + Falses(k)
    decreases k
  {
    if k != 0 {
      var r' := Absorb(r, false);
      assert r' == r[1..] + [false];
      assert Falses(k)[1..] == Falses(k - 1);
      RunHigh(r', k - 1);
      assert r'[k - 1..] == r[k..] + [false];
      assert r[k..] + [false] + Falses(k - 1) == r[k..] + Falses(k);
    } else {
      assert r[0..] + Falses(0) == r;
    }
  }

  /** Feeding bits is the same as mixing them into the bottom of the register beforehand. */
  lemma {:induction false} RunMixed(r: Register, u: seq<bool>)
    requires |u| <= 32
    ensures Run(r, u) == Run(Xor(r, u + Falses(32 - |u|)), Falses(|u|))
    decreases |u|
  {
    var zeros: Register := Falses(32);
    var mixed: Register := u + Falses(32 - |u|);
    MixedAlone(u);
    RunLinear(r, zeros, Falses(|u|), u);
    RunLinear(r, mixed, Falses(|u|), Falses(|u|));
    assert Xor(r, zeros) == r && Xor(Falses(|u|), u) == u && Xor(Falses(|u|), Falses(|u|)) == Falses(|u|);
  }

  lemma {:induction false} MixedAlone(u: seq<bool>)
    requires |u| <= 32
    ensures Run(Falses(32), u) == Run(u + Falses(32 - |u|), Falses(|u|))
    decreases |u|
  {
    if u != [] {
      var n := |u|;
      var tail: Register := u[1..] + Falses(33 - n);
      var zeros: Register := Falses(32);
      var a, b := Absorb(zeros, u[0]), Absorb(u + Falses(32 - n), false);
      assert b == Xor(a, tail);
      MixedAlone(u[1..]);
      assert Falses(n)[1..] == Falses(n - 1);
      RunLinear(a, tail, Falses(n - 1), Falses(n - 1));
      RunLinear(a, zeros, Falses(n - 1), u[1..]);
      assert Xor(Falses(n - 1), Falses(n - 1)) == Falses(n - 1) && Xor(Falses(n - 1), u[1..]) == u[1..];
      assert Xor(a, zeros) == a;
    }
  }

  /** One octet, bit by bit, is the RFC's update `crc_table[(c ^ octet) & 0xff] ^ (c >> 8)`. */
  lemma OctetIsTableLookup(c: Register, octet: byte)
    ensures var w := LowBits(octet, 8);
            Run(c, w) == Xor(Table(Xor(c[..8], w)), c[8..] + Falses(8))
  {
    Lookup(c, LowBits(octet, 8), 8);
  }

  /** The same for any number of bits shifted out at once. */
  lemma Lookup(c: Register, w: seq<bool>, k: nat)
    requires |w| == k <= 32
    ensures Run(c, w) == Xor(Run(Xor(c[..k], w) + Falses(32 - k), Falses(k)), c[k..] + Falses(k))
  {
    var low: Register := Xor(c[..k], w) + Falses(32 - k);
    var high: Register := Falses(k) + c[k..];
    RunMixed(c, w);
    SplitLow(c, w, k);
    RunLinear(low, high, Falses(k), Falses(k));
    RunHigh(high, k);
  }

  lemma SplitLow(c: Register, w: seq<bool>, k: nat)
    requires |w| == k <= 32
    ensures Xor(c, w + Falses(32 - k)) == Xor(Xor(c[..k], w) + Falses(32 - k), Falses(k) + c[k..])
    ensures (Falses(k) + c[k..])[k..] == c[k..]
    ensures Xor(Falses(k), Falses(k)) == Falses(k)
  {
  }

  // ---------------------------------------------------------------------------------------------
  // The sample code of RFC 1952
  // ---------------------------------------------------------------------------------------------

  /** A number as a 32-bit word. */
  function Word(n: nat): Register {
    LowBits(n, 32)
  }

  const POLYNOMIAL: nat := 0xEDB8_8320

  /** The body of the loop in `make_crc_table`: `c & 1 ? 0xedb88320 ^ (c >> 1) : c >> 1`. */
  function RfcShift(c: Register): Register {
    var down := c[1..] + [false];
    if c[0] then Xor(Word(POLYNOMIAL), down) else down
  }

  function RfcShifts(c: Register, k: nat): Register
    decreases k
  {
    if k == 0 then c else RfcShift(RfcShifts(c, k - 1))
  }

  /** The loop of `update_crc`: `c = crc_table[(c ^ octet) & 0xff] ^ (c >> 8)`. */
  function RfcUpdate(c: Register, data: seq<byte>): Register
    decreases |data|
  {
    if data == [] then c
    else
      var index := Xor(c[..8], LowBits(data[0], 8)) + Falses(24);
      RfcUpdate(Xor(RfcShifts(index, 8), c[8..] + Falses(8)), data[1..])
  }

  function RfcCrc(data: seq<byte>): nat {
    BitsValue(Xor(RfcUpdate(Word(0xFFFF_FFFF), data), Word(0xFFFF_FFFF)))
  }

  lemma {:induction false} LowBitsAt(n: nat, k: nat, i: nat)
    requires i < k
    ensures LowBits(n, k)[i] <==> n / Pow2(i) % 2 == 1
  {
    if i > 0 {
      LowBitsAt(n / 2, k - 1, i - 1);
      HalfPow(n, i);
    }
  }

  lemma HalfPow(n: nat, i: nat)
    requires i > 0
    ensures n / 2 / Pow2(i - 1) == n / Pow2(i)
  {
    var p := Pow2(i - 1);
    var q, low := n / 2 / p, n / 2 % p;
    assert n == 2 * (p * q + low) + n % 2;
    assert 2 * (p * q) == 2 * p * q;
    DivMod(2 * low + n % 2, q, 2 * p);
  }

  /** One shift of the register is the RFC's. */
  lemma ShiftIsRfc(r: Register)
    ensures Shift(r) == RfcShift(r)
  {
    forall i | 0 <= i < 32
      ensures Word(POLYNOMIAL)[i] == Tap(i)
    {
      LowBitsAt(POLYNOMIAL, 32, i);
    }
  }

  lemma {:induction false} ShiftsAreRfc(r: Register, k: nat)
    ensures Run(r, Falses(k)) == RfcShifts(r, k)
    decreases k
  {
    if k > 0 {
      ShiftsAreRfc(r, k - 1);
      RunConcat(r, Falses(k - 1), [false]);
      assert Falses(k) == Falses(k - 1) + [false];
      ShiftAlone(RfcShifts(r, k - 1));
    } else {
      assert Falses(0) == [];
    }
  }

  lemma ShiftAlone(c: Register)
    ensures Run(c, [false]) == RfcShift(c)
  {
    assert c[0 := c[0] != false] == c && [false][1..] == [];
    assert Run(c, [false]) == Run(Shift(c), []);
    ShiftIsRfc(c);
  }

  lemma {:induction false} UpdateIsRfc(c: Register, data: seq<byte>)
    ensures Run(c, Bits(data)) == RfcUpdate(c, data)
    decreases |data|
  {
    if data != [] {
      var w := LowBits(data[0], 8);
      RunConcat(c, w, Bits(data[1..]));
      OctetIsTableLookup(c, data[0]);
      ShiftsAreRfc(Xor(c[..8], w) + Falses(24), 8);
      UpdateIsRfc(Run(c, w), data[1..]);
    }
  }

  lemma {:induction false} AllOnes(n: nat, k: nat)
    requires n == Pow2(k) - 1
    ensures LowBits(n, k) == seq(k, _ => true)
  {
    if k > 0 {
      AllOnes(n / 2, k - 1);
      assert seq(k, _ => true) == [true] + seq(k - 1, _ => true);
    }
  }

  /** The bit-serial register computes what the sample code of RFC 1952 does, for every message. */
  lemma CrcIsRfc(data: seq<byte>)
    ensures Crc(data) == RfcCrc(data)
  {
    Word32();
    AllOnes(0xFFFF_FFFF, 32);
    UpdateIsRfc(Ones(), data);
    var r := Run(Ones(), Bits(data));
    assert Complement(r) == Xor(r, Ones());
  }

  /** A register with a single bit set. */
  function One(j: nat): Register {
    seq(32, i requires 0 <= i < 32 => i == j)
  }

  lemma OneStep(j: nat)
    requires 0 < j < 32
    ensures RfcShift(One(j)) == One(j - 1)
  {
  }

  lemma {:induction false} OneMovesDown(j: nat, k: nat)
    requires k <= j < 32
    ensures RfcShifts(One(j), k) == One(j - k)
    decreases k
  {
    if k > 0 {
      OneMovesDown(j, k - 1);
      OneStep(j - k + 1);
    }
  }

  lemma OneFallsOut()
    ensures RfcShift(One(0)) == Word(POLYNOMIAL)
  {
    assert One(0)[1..] + [false] == Falses(32);
    assert Xor(Word(POLYNOMIAL), Falses(32)) == Word(POLYNOMIAL);
  }

  /** The entry of the table that RFC 1952 prints for 128 is the polynomial. */
  lemma PrintedEntry()
    ensures BitsValue(Table(LowBits(128, 8))) == 0xEDB8_8320
  {
    ShiftsAreRfc(One(7), 8);
    OneMovesDown(7, 7);
    OneFallsOut();
    HighBit(128, 8);
    Word32();
    BitsValueOfLowBits(POLYNOMIAL, 32);
  }

  lemma {:induction false} HighBit(n: nat, k: nat)
    requires 0 < k <= 32 && n == Pow2(k - 1)
    ensures LowBits(n, k) + Falses(32 - k) == One(k - 1)
  {
    forall i | 0 <= i < k
      ensures LowBits(n, k)[i] <==> i == k - 1
    {
      HighBitAt(n, k, i);
    }
  }

  lemma {:induction false} HighBitAt(n: nat, k: nat, i: nat)
    requires i < k && n == Pow2(k - 1)
    ensures LowBits(n, k)[i] <==> i == k - 1
    decreases k
  {
    if i > 0 {
      HighBitAt(n / 2, k - 1, i - 1);
    }
  }

  // ---------------------------------------------------------------------------------------------
  // Messages that carry their own CRC
  // ---------------------------------------------------------------------------------------------

  /** The last four octets are the CRC of everything before them. */
  predicate Sealed(s: seq<byte>) {
    |s| >= 4 && s[|s| - 4..] == Le32(Crc(s[..|s| - 4]))
  }

  lemma {:induction false} BitsConcat(a: seq<byte>, b: seq<byte>)
    ensures Bits(a + b) == Bits(a) + Bits(b)
  {
    if a == [] {
      assert a + b == b;
    } else {
      assert (a + b)[1..] == a[1..] + b;
      BitsConcat(a[1..], b);
    }
  }

  lemma {:induction false} LowBitsOfValue(bits: seq<bool>)
    ensures LowBits(BitsValue(bits), |bits|) == bits
  {
    if bits != [] {
      LowBitsOfValue(bits[1..]);
      assert bits == [bits[0]] + bits[1..];
    }
  }

  lemma {:induction false} LowBitsSplit(low: nat, high: nat, j: nat, k: nat)
    requires low < Pow2(j)
    ensures LowBits(low + Pow2(j) * high, j + k) == LowBits(low, j) + LowBits(high, k)
    decreases j
  {
    if j != 0 {
      var p := Pow2(j - 1) * high;
      assert Pow2(j) * high == 2 * p;
      assert (low + 2 * p) % 2 == low % 2 && (low + 2 * p) / 2 == low / 2 + p;
      LowBitsSplit(low / 2, high, j - 1, k);
    }
  }

  lemma BitsOfLe16(n: nat)
    requires n < 0x1_0000
    ensures Bits(Le16(n)) == LowBits(n, 16)
  {
    var low: byte, high: byte := n % 0x100, n / 0x100;
    assert Le16(n) == [low, high];
    TwoOctets(low, high);
    TwoOctetValue(low, high);
    assert n == low + 0x100 * (high as nat);
  }

  lemma TwoOctetValue(low: byte, high: byte)
    ensures LowBits(low + 0x100 * (high as nat), 16) == LowBits(low, 8) + LowBits(high, 8)
  {
    Word32();
    LowBitsSplit(low, high, 8, 8);
  }

  lemma TwoOctets(low: byte, high: byte)
    ensures Bits([low, high]) == LowBits(low, 8) + LowBits(high, 8)
  {
  }

  lemma BitsOfLe32(n: nat)
    requires n < 0x1_0000_0000
    ensures Bits(Le32(n)) == LowBits(n, 32)
  {
    var low, high := n % 0x1_0000, n / 0x1_0000;
    Word32();
    LowBitsSplit(low, high, 16, 16);
    BitsOfLe16(low);
    BitsOfLe16(high);
    BitsConcat(Le16(low), Le16(high));
  }

  /** Every sealed message leaves the register in one fixed state. */
  lemma Residue(s: seq<byte>)
    requires Sealed(s)
    ensures Run(Ones(), Bits(s)) == Run(Ones(), Falses(32))
  {
    var body, tail := s[..|s| - 4], s[|s| - 4..];
    var r := Run(Ones(), Bits(body));
    assert s == body + tail;
    BitsConcat(body, tail);
    RunConcat(Ones(), Bits(body), Bits(tail));
    BitsOfLe32(Crc(body));
    LowBitsOfValue(Complement(r));
    RunMixed(r, Complement(r));
    assert Xor(r, Complement(r) + Falses(0)) == Ones();
  }

  /** No burst of at most 32 bits, CRC field included, turns one sealed message into another. */
  lemma SealedBurst(a: seq<byte>, b: seq<byte>, start: nat)
    requires Sealed(a) && Sealed(b) && |a| == |b|
    requires forall i :: 0 <= i < 8 * |a| && !(start <= i < start + 32) ==> Bits(a)[i] == Bits(b)[i]
    ensures a == b
  {
    Residue(a);
    Residue(b);
    SameRunSameWindow(Bits(a), Bits(b), start);
    BitsInjective(a, b);
  }

  /** Octet form. */
  lemma SealedFourOctets(a: seq<byte>, b: seq<byte>, at: nat)
    requires Sealed(a) && Sealed(b) && |a| == |b|
    requires forall k :: 0 <= k < |a| && !(at <= k < at + 4) ==> a[k] == b[k]
    ensures a == b
  {
    BitsAgree(a, b, at);
    SealedBurst(a, b, 8 * at);
  }
}
