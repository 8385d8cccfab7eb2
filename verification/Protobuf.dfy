/**
 * The Protocol Buffers subset of `micronux-netctl`: base-128 varints, the two wire types it uses
 * and the bounded buffer it encodes into.
 */
module Protobuf {
  import opened Wrappers
  import opened Bytes

  const CAPACITY := 768
  const TWO_32 := 0x1_0000_0000
  const TWO_64 := 0x1_0000_0000_0000_0000

  // ---------------------------------------------------------------------------------------------
  // Varints
  // ---------------------------------------------------------------------------------------------

  /** The base-128 form of a number, low digit first, all octets but the last marked. */
  function Varint(v: nat): (s: seq<byte>)
    ensures |s| > 0
  {
    if v < 128 then [v] else [v % 128 + 128] + Varint(v / 128)
  }

  function Power(n: nat): (p: nat)
    ensures p > 0
  {
    if n == 0 then 1 else 128 * Power(n - 1)
  }

  datatype Read = Malformed | Read(value: nat, end: nat)

  /**
   * The varint at an offset, read in at most `limit` octets, and the offset after it. Of the last
   * octet allowed only the lowest bit counts: the others would be shifted out of 64 bits.
   */
  function ReadVarint(s: seq<byte>, offset: nat, limit: nat): (r: Read)
    ensures r.Read? ==> offset < r.end <= |s| && r.end <= offset + limit
    decreases |s| - offset
  {
    if limit == 0 || offset >= |s| then Malformed
    else if s[offset] < 128 then Read(if limit == 1 then s[offset] % 2 else s[offset], offset + 1)
    else
      match ReadVarint(s, offset + 1, limit - 1)
      case Malformed => Malformed
      case Read(value, end) => Read(s[offset] % 128 + 128 * value, end)
  }

  /** The number whose 7-bit digits, low first, are the next `n` octets. */
  function Digits(s: seq<byte>, offset: nat, n: nat): nat
    requires offset + n <= |s|
    decreases n
  {
    if n == 0 then 0 else s[offset] % 128 + 128 * Digits(s, offset + 1, n - 1)
  }

  lemma {:induction false} ReadMarks(s: seq<byte>, offset: nat, limit: nat)
    requires ReadVarint(s, offset, limit).Read?
    ensures var end := ReadVarint(s, offset, limit).end;
            s[end - 1] < 128 && forall k :: offset <= k < end - 1 ==> s[k] >= 128
    decreases limit
  {
    if s[offset] >= 128 {
      ReadMarks(s, offset + 1, limit - 1);
    }
  }

  /** What was read differs from the digit sum by a multiple of the limit's range. */
  lemma {:induction false} ReadDigits(s: seq<byte>, offset: nat, limit: nat) returns (q: nat)
    requires limit > 0 && ReadVarint(s, offset, limit).Read?
    ensures var r := ReadVarint(s, offset, limit);
            && Digits(s, offset, r.end - offset) == r.value + 2 * Power(limit - 1) * q
            && r.value < 2 * Power(limit - 1)
    decreases limit
  {
    var d := s[offset];
    if d < 128 {
      assert Digits(s, offset, 1) == d % 128 + 128 * Digits(s, offset + 1, 0);
      q := if limit == 1 then d / 2 else 0;
      assert limit > 1 ==> Power(limit - 1) == 128 * Power(limit - 2);
    } else {
      q := ReadDigits(s, offset + 1, limit - 1);
      DigitsScale(Power(limit - 2), q);
    }
  }

  lemma DigitsScale(p: nat, q: nat)
    ensures 128 * (2 * p * q) == 2 * (128 * p) * q
  {
  }

  /**
   * What a successful varint is: one to ten octets, the last of them the first unmarked one, and
   * the sum of their 7-bit digits modulo 2^64.
   */
  lemma VarintMeaning(s: seq<byte>, offset: nat, limit: nat)
    requires limit == 10 && ReadVarint(s, offset, limit).Read?
    ensures var r := ReadVarint(s, offset, limit);
            && 1 <= r.end - offset <= 10 && r.end <= |s|
            && r.value == Digits(s, offset, r.end - offset) % TWO_64
            && s[r.end - 1] < 128 && forall k :: offset <= k < r.end - 1 ==> s[k] >= 128
  {
    ReadMarks(s, offset, limit);
    var q := ReadDigits(s, offset, limit);
    PowerNine();
    DivMod(ReadVarint(s, offset, limit).value, q, TWO_64);
  }

  lemma PowerNine()
    ensures Power(9) == 0x8000_0000_0000_0000
  {
  }

  /** A 7-bit digit shifted left within 64 bits: by 63 only its lowest bit is left. */
  function Shifted(digit: nat, n: nat): nat {
    if n < 9 then digit * Power(n) else digit % 2 * Power(n)
  }

  /** Bitwise or. */
  function Or(a: nat, b: nat): nat
    decreases a
  {
    if a == 0 then b else (if a % 2 == 1 || b % 2 == 1 then 1 else 0) + 2 * Or(a / 2, b / 2)
  }

  /** Setting bits above those in use adds them. */
  lemma {:induction false} OrAbove(a: nat, d: nat, n: nat)
    requires a < Pow2(n)
    ensures Or(a, d * Pow2(n)) == a + d * Pow2(n)
    decreases n
  {
    if a > 0 {
      assert d * Pow2(n) == 2 * (d * Pow2(n - 1));
      OrAbove(a / 2, d, n - 1);
    }
  }

  lemma {:induction false} PowerOfTwo(n: nat)
    ensures Power(n) == Pow2(7 * n)
  {
    if n > 0 {
      PowerOfTwo(n - 1);
      SevenDoublings(7 * n - 7);
    }
  }

  lemma SevenDoublings(k: nat)
    ensures Pow2(k + 7) == 128 * Pow2(k)
  {
    assert Pow2(k + 2) == 4 * Pow2(k);
    assert Pow2(k + 4) == 4 * Pow2(k + 2);
    assert Pow2(k + 6) == 4 * Pow2(k + 4);
  }

  /** A digit goes into bits that are still clear. */
  lemma OrDigit(result: nat, digit: nat, n: nat)
    requires result < Power(n) && digit < 128
    ensures Or(result, Shifted(digit, n)) == result + Shifted(digit, n) < Power(n + 1)
  {
    var d := if n < 9 then digit else digit % 2;
    PowerOfTwo(n);
    OrAbove(result, d, 7 * n);
    MulMono(Power(n), d, 127);
  }

  /** The rest of a varint read on top of `n` digits. */
  function OnTop(result: nat, n: nat, rest: Read): Read {
    match rest
    case Malformed => Malformed
    case Read(value, end) => Read(result + value * Power(n), end)
  }

  lemma DecodingStep(s: seq<byte>, offset: nat, n: nat, limit: nat, result: nat)
    requires offset < |s| && n + limit == 10 && limit > 0
    ensures var next := result + Shifted(s[offset] % 128, n);
            OnTop(result, n, ReadVarint(s, offset, limit))
            == if s[offset] < 128 then Read(next, offset + 1)
               else OnTop(next, n + 1, ReadVarint(s, offset + 1, limit - 1))
  {
    var rest := ReadVarint(s, offset + 1, limit - 1);
    if s[offset] >= 128 && rest.Read? {
      Distribute(s[offset] % 128, rest.value, Power(n));
    }
  }

  lemma Distribute(d: nat, v: nat, p: nat)
    ensures (d + 128 * v) * p == d * p + v * (128 * p)
  {
  }

  /** The loop state of `decode_varint` after `n` digits: only their bits are in use. */
  ghost predicate Decoding(s: seq<byte>, offset: nat, n: nat, result: nat, goal: Read) {
    n <= 10 && result < Power(n) && OnTop(result, n, ReadVarint(s, offset, 10 - n)) == goal
  }

  lemma DecodingNext(s: seq<byte>, offset: nat, n: nat, result: nat, next: nat, goal: Read)
    requires Decoding(s, offset, n, result, goal) && offset < |s| && n < 10
    requires next == result + Shifted(s[offset] % 128, n) < Power(n + 1)
    ensures if s[offset] < 128 then goal == Read(next, offset + 1) else Decoding(s, offset + 1, n + 1, next, goal)
  {
    DecodingStep(s, offset, n, 10 - n, result);
  }

  lemma DecodingOr(s: seq<byte>, offset: nat, n: nat, result: nat, goal: Read)
    requires Decoding(s, offset, n, result, goal) && offset < |s| && n < 10
    ensures var next := Or(result, Shifted(s[offset] % 128, n));
            if s[offset] < 128 then goal == Read(next, offset + 1) else Decoding(s, offset + 1, n + 1, next, goal)
  {
    var next := Or(result, Shifted(s[offset] % 128, n));
    OrDigit(result, s[offset] % 128, n);
    DecodingNext(s, offset, n, result, next, goal);
  }

  lemma DecodingEnds(s: seq<byte>, offset: nat, n: nat, result: nat, goal: Read)
    requires Decoding(s, offset, n, result, goal) && (offset >= |s| || n == 10)
    ensures goal == Malformed
  {
  }

  /** `decode_varint`. */
  method DecodeVarint(s: seq<byte>, start: nat) returns (r: Read)
    ensures r == ReadVarint(s, start, 10)
  {
    var offset: nat, result: nat, shift: nat := start, 0, 0;
    ghost var n: nat, goal := 0, ReadVarint(s, start, 10);
    while offset < |s| && shift < 64
      invariant shift == 7 * n && Decoding(s, offset, n, result, goal)
    {
      DecodingOr(s, offset, n, result, goal);
      var octet := s[offset];
      offset := offset + 1;
      result := Or(result, Shifted(octet % 128, shift / 7));
      if octet < 128 {
        return Read(result, offset);
      }
      shift, n := shift + 7, n + 1;
    }
    DecodingEnds(s, offset, n, result, goal);
    r := Malformed;
  }

  /** The octets of `t` stand in `s` at an offset. */
  predicate At(s: seq<byte>, offset: nat, t: seq<byte>) {
    offset + |t| <= |s| && s[offset..offset + |t|] == t
  }

  lemma AtParts(s: seq<byte>, offset: nat, t: seq<byte>, u: seq<byte>)
    requires At(s, offset, t + u)
    ensures At(s, offset, t) && At(s, offset + |t|, u)
  {
    var whole := s[offset..offset + |t| + |u|];
    assert whole[..|t|] == t && whole[|t|..] == u;
    assert s[offset..offset + |t|] == whole[..|t|];
    assert s[offset + |t|..offset + |t| + |u|] == whole[|t|..];
  }

  /** Every number below the limit's range is read back from its varint, wherever it stands. */
  lemma {:induction false} VarintRead(v: nat, s: seq<byte>, offset: nat, limit: nat)
    requires limit > 0 && v < 2 * Power(limit - 1) && At(s, offset, Varint(v))
    ensures ReadVarint(s, offset, limit) == Read(v, offset + |Varint(v)|)
    decreases limit
  {
    assert s[offset] == s[offset..offset + |Varint(v)|][0];
    if v >= 128 {
      AtParts(s, offset, [v % 128 + 128], Varint(v / 128));
      assert limit > 1 && Power(limit - 1) == 128 * Power(limit - 2);
      VarintRead(v / 128, s, offset + 1, limit - 1);
    }
  }

  lemma VarintRoundTrip(v: nat, s: seq<byte>, offset: nat, limit: nat)
    requires v < TWO_64 && At(s, offset, Varint(v)) && limit == 10
    ensures ReadVarint(s, offset, limit) == Read(v, offset + |Varint(v)|)
  {
    PowerNine();
    VarintRead(v, s, offset, limit);
  }

  // ---------------------------------------------------------------------------------------------
  // Fields
  // ---------------------------------------------------------------------------------------------

  datatype Field = Uint(number: nat, value: nat) | Octets(number: nat, bytes: seq<byte>)

  predicate Encodable(f: Field) {
    && 0 < f.number < TWO_32
    && match f {
         case Uint(_, value) => value < TWO_64
         case Octets(_, bytes) => |bytes| < TWO_64
       }
  }

  function EncodeField(f: Field): seq<byte> {
    match f
    case Uint(number, value) => if value == 0 then [] else Varint(number * 8) + Varint(value)
    case Octets(number, bytes) => Varint(number * 8 + 2) + Varint(|bytes|) + bytes
  }

  function Encode(fs: seq<Field>): seq<byte> {
    if fs == [] then [] else EncodeField(fs[0]) + Encode(fs[1..])
  }

  datatype FieldRead = MalformedField | FieldRead(field: Field, end: nat)

  /** The field at an offset and the offset after it. */
  function NextField(s: seq<byte>, offset: nat): (r: FieldRead)
    ensures r.FieldRead? ==> offset < r.end <= |s| && 0 < r.field.number < TWO_32
    ensures r.FieldRead? && r.field.Octets? ==>
              |r.field.bytes| < r.end - offset && r.field.bytes == s[r.end - |r.field.bytes|..r.end]
  {
    match ReadVarint(s, offset, 10)
    case Malformed => MalformedField
    case Read(key, after) =>
      var number := key / 8 % TWO_32;
      if number == 0 then MalformedField
      else if key % 8 == 0 then
        match ReadVarint(s, after, 10) {
          case Malformed => MalformedField
          case Read(value, end) => FieldRead(Uint(number, value), end)
        }
      else if key % 8 == 2 then
        match ReadVarint(s, after, 10) {
          case Malformed => MalformedField
          case Read(length, start) =>
            if length > |s| - start then MalformedField
            else FieldRead(Octets(number, s[start..start + length]), start + length)
        }
      else MalformedField
  }

  /** A field is malformed if its key, its value or its length is, if it has no number or an unknown type. */
  lemma FieldRefused(s: seq<byte>, offset: nat)
    ensures NextField(s, offset).MalformedField?
            <==> var key := ReadVarint(s, offset, 10);
                 || key.Malformed? || (key.value / 8) % TWO_32 == 0 || key.value % 8 !in {0, 2}
                 || var next := ReadVarint(s, key.end, 10);
                    next.Malformed? || (key.value % 8 == 2 && next.end + next.value > |s|)
  {
  }

  /** `pb_next`. */
  method PbNext(s: seq<byte>, offset: nat) returns (r: FieldRead)
    ensures r == NextField(s, offset)
    ensures r.FieldRead? ==> offset < r.end <= |s|
  {
    var key := DecodeVarint(s, offset);
    if key.Malformed? {
      return MalformedField;
    }
    var number := key.value / 8 % TWO_32;
    var wireType := key.value % 8;
    if number == 0 {
      return MalformedField;
    }
    if wireType == 0 {
      var value := DecodeVarint(s, key.end);
      if value.Malformed? {
        return MalformedField;
      }
      return FieldRead(Uint(number, value.value), value.end);
    }
    if wireType != 2 {
      return MalformedField;
    }
    var length := DecodeVarint(s, key.end);
    if length.Malformed? || length.value > |s| - length.end {
      return MalformedField;
    }
    r := FieldRead(Octets(number, s[length.end..length.end + length.value]), length.end + length.value);
  }

  /** All fields from an offset to the end, or nothing if any of them is malformed. */
  function Fields(s: seq<byte>, offset: nat): Option<seq<Field>>
    requires offset <= |s|
    decreases |s| - offset
  {
    if offset == |s| then Some([])
    else
      match NextField(s, offset)
      case MalformedField => None
      case FieldRead(f, after) =>
        match Fields(s, after) {
          case None => None
          case Some(rest) => Some([f] + rest)
        }
  }

  /** The fields before the end of a message or the first malformed one. */
  function Readable(s: seq<byte>, offset: nat): seq<Field>
    requires offset <= |s|
    decreases |s| - offset
  {
    if offset == |s| then []
    else
      match NextField(s, offset)
      case MalformedField => []
      case FieldRead(f, after) => [f] + Readable(s, after)
  }

  /** In a well-formed message that is all of them. */
  lemma {:induction false} ReadableAll(s: seq<byte>, offset: nat)
    requires offset <= |s| && Fields(s, offset).Some?
    ensures Readable(s, offset) == Fields(s, offset).value
    decreases |s| - offset
  {
    if offset < |s| {
      ReadableAll(s, NextField(s, offset).end);
    }
  }

  /** Zero-valued integers are not sent. */
  function Kept(fs: seq<Field>): seq<Field> {
    if fs == [] then [] else KeptBefore(fs[0], Kept(fs[1..]))
  }

  function KeptBefore(f: Field, rest: seq<Field>): seq<Field> {
    if f.Uint? && f.value == 0 then rest else [f] + rest
  }

  lemma UintField(s: seq<byte>, offset: nat, number: nat, mid: nat, value: nat, end: nat)
    requires 0 < number < TWO_32 && ReadVarint(s, offset, 10) == Read(number * 8, mid)
    requires ReadVarint(s, mid, 10) == Read(value, end)
    ensures NextField(s, offset) == FieldRead(Uint(number, value), end)
  {
  }

  lemma OctetsField(s: seq<byte>, offset: nat, number: nat, mid: nat, start: nat, bytes: seq<byte>)
    requires 0 < number < TWO_32 && ReadVarint(s, offset, 10) == Read(number * 8 + 2, mid)
    requires ReadVarint(s, mid, 10) == Read(|bytes|, start) && At(s, start, bytes)
    ensures NextField(s, offset) == FieldRead(Octets(number, bytes), start + |bytes|)
  {
  }

  lemma FieldRoundTrip(f: Field, s: seq<byte>, offset: nat)
    requires Encodable(f) && At(s, offset, EncodeField(f)) && EncodeField(f) != []
    ensures NextField(s, offset) == FieldRead(f, offset + |EncodeField(f)|)
  {
    match f
    case Uint(number, value) =>
      UintRoundTrip(number, number * 8, value, s, offset);
    case Octets(number, bytes) =>
      var key, length := Varint(number * 8 + 2), Varint(|bytes|);
      OctetsParts(s, offset, key, length, bytes);
      OctetsRoundTrip(number, number * 8 + 2, bytes, s, offset, offset + |key|, offset + |key| + |length|);
  }

  lemma UintRoundTrip(number: nat, key: nat, value: nat, s: seq<byte>, offset: nat)
    requires 0 < number < TWO_32 && key == number * 8 && value < TWO_64
    requires At(s, offset, Varint(key) + Varint(value))
    ensures NextField(s, offset) == FieldRead(Uint(number, value), offset + |Varint(key)| + |Varint(value)|)
  {
    AtParts(s, offset, Varint(key), Varint(value));
    VarintRoundTrip(key, s, offset, 10);
    var mid := offset + |Varint(key)|;
    VarintRoundTrip(value, s, mid, 10);
    UintField(s, offset, number, mid, value, mid + |Varint(value)|);
  }

  lemma OctetsParts(s: seq<byte>, offset: nat, key: seq<byte>, length: seq<byte>, bytes: seq<byte>)
    requires At(s, offset, key + length + bytes)
    ensures At(s, offset, key) && At(s, offset + |key|, length) && At(s, offset + |key| + |length|, bytes)
  {
    AtParts(s, offset, key + length, bytes);
    AtParts(s, offset, key, length);
  }

  lemma OctetsRoundTrip(number: nat, key: nat, bytes: seq<byte>, s: seq<byte>, offset: nat, mid: nat, start: nat)
    requires 0 < number < TWO_32 && key == number * 8 + 2 && |bytes| < TWO_64
    requires At(s, offset, Varint(key)) && At(s, mid, Varint(|bytes|)) && At(s, start, bytes)
    requires mid == offset + |Varint(key)| && start == mid + |Varint(|bytes|)|
    ensures NextField(s, offset) == FieldRead(Octets(number, bytes), start + |bytes|)
  {
    VarintRoundTrip(key, s, offset, 10);
    VarintRoundTrip(|bytes|, s, mid, 10);
    OctetsField(s, offset, number, mid, start, bytes);
  }

  lemma FieldsStep(s: seq<byte>, offset: nat, f: Field, after: nat, rest: seq<Field>)
    requires NextField(s, offset) == FieldRead(f, after) && Fields(s, after) == Some(rest)
    ensures Fields(s, offset) == Some([f] + rest)
  {
  }

  /** One encoded field before others that read back. */
  lemma FieldsCons(f: Field, rest: seq<Field>, s: seq<byte>, offset: nat, after: nat)
    requires Encodable(f) && At(s, offset, EncodeField(f)) && after == offset + |EncodeField(f)|
    requires Fields(s, after) == Some(rest) && EncodeField(f) != []
    ensures Fields(s, offset) == Some([f] + rest)
  {
    FieldRoundTrip(f, s, offset);
    FieldsStep(s, offset, f, after, rest);
  }

  /** The octets of one field stand at `offset`, up to `after`. */
  predicate Stands(s: seq<byte>, offset: nat, f: Field, after: nat) {
    Encodable(f) && At(s, offset, EncodeField(f)) && after == offset + |EncodeField(f)|
  }

  /** The octets of a list of fields stand from `offset` to the end. */
  predicate Written(s: seq<byte>, offset: nat, fs: seq<Field>) {
    && (forall k :: 0 <= k < |fs| ==> Encodable(fs[k]))
    && At(s, offset, Encode(fs)) && offset + |Encode(fs)| == |s|
  }

  lemma WrittenParts(s: seq<byte>, offset: nat, fs: seq<Field>) returns (after: nat)
    requires fs != [] && Written(s, offset, fs)
    ensures Stands(s, offset, fs[0], after) && Written(s, after, fs[1..])
  {
    var first, rest, code := EncodeField(fs[0]), Encode(fs[1..]), Encode(fs);
    assert code == first + rest;
    after := offset + |first|;
    AtParts(s, offset, first, rest);
  }

  /** A field that is kept, or dropped, before others that read back. */
  lemma FieldsJoin(f: Field, rest: seq<Field>, s: seq<byte>, offset: nat, after: nat)
    requires Stands(s, offset, f, after) && Fields(s, after) == Some(rest)
    ensures Fields(s, offset) == Some(KeptBefore(f, rest))
  {
    if EncodeField(f) != [] {
      FieldsCons(f, rest, s, offset, after);
    }
  }

  /** Every list of fields is read back in order, less its zero-valued integers. */
  lemma {:induction false} FieldsRoundTrip(fs: seq<Field>, s: seq<byte>, offset: nat)
    requires Written(s, offset, fs)
    ensures Fields(s, offset) == Some(Kept(fs))
    decreases |fs|
  {
    if fs != [] {
      var after := WrittenParts(s, offset, fs);
      FieldsRoundTrip(fs[1..], s, after);
      FieldsJoin(fs[0], Kept(fs[1..]), s, offset, after);
    }
  }

  lemma RoundTrip(fs: seq<Field>)
    requires forall k :: 0 <= k < |fs| ==> Encodable(fs[k])
    ensures Fields(Encode(fs), 0) == Some(Kept(fs))
  {
    FieldsRoundTrip(fs, Encode(fs), 0);
  }

  // ---------------------------------------------------------------------------------------------
  // Reading one status field
  // ---------------------------------------------------------------------------------------------

  /** The first integer with a given number, cut to 32 bits; 0 when there is none. */
  function FirstUint(fs: seq<Field>, number: nat): nat {
    if fs == [] then 0
    else if fs[0].Uint? && fs[0].number == number then fs[0].value % TWO_32
    else FirstUint(fs[1..], number)
  }

  /** What `response_status` makes of a message: it stops at the first match. */
  function Status(s: seq<byte>, offset: nat, number: nat): Option<nat>
    requires offset <= |s|
    decreases |s| - offset
  {
    if offset == |s| then Some(0)
    else
      match NextField(s, offset)
      case MalformedField => None
      case FieldRead(f, after) =>
        if f.Uint? && f.number == number then Some(f.value % TWO_32) else Status(s, after, number)
  }

  method ResponseStatus(s: seq<byte>, number: nat) returns (r: Option<nat>)
    ensures r == Status(s, 0, number)
  {
    var offset := 0;
    while offset < |s|
      invariant offset <= |s| && Status(s, 0, number) == Status(s, offset, number)
    {
      var field := PbNext(s, offset);
      if field.MalformedField? {
        return None;
      }
      if field.field.Uint? && field.field.number == number {
        return Some(field.field.value % TWO_32);
      }
      offset := field.end;
    }
    r := Some(0);
  }

  /** On a well-formed message the status is the first matching integer. */
  lemma {:induction false} StatusOfFields(s: seq<byte>, offset: nat, number: nat)
    requires offset <= |s| && Fields(s, offset).Some?
    ensures Status(s, offset, number) == Some(FirstUint(Fields(s, offset).value, number))
    decreases |s| - offset
  {
    if offset < |s| {
      var next := NextField(s, offset);
      StatusOfFields(s, next.end, number);
      var rest := Fields(s, next.end).value;
      assert ([next.field] + rest)[1..] == rest;
    }
  }

  /** The first integer of a given number is at position `k`. */
  predicate FirstAt(fs: seq<Field>, number: nat, k: nat) {
    && k < |fs| && fs[k].Uint? && fs[k].number == number
    && forall j :: 0 <= j < k ==> !(fs[j].Uint? && fs[j].number == number)
  }

  predicate Lacks(fs: seq<Field>, number: nat) {
    forall j :: 0 <= j < |fs| ==> !(fs[j].Uint? && fs[j].number == number)
  }

  /** What the status is, given the fields before the first malformed one and whether there is such a one. */
  ghost predicate StatusIs(fs: seq<Field>, malformed: bool, number: nat, r: Option<nat>) {
    && (Lacks(fs, number) ==> r == if malformed then None else Some(0))
    && forall k: nat :: FirstAt(fs, number, k) ==> r == Some(fs[k].value % TWO_32)
  }

  lemma StatusPassed(f: Field, rest: seq<Field>, malformed: bool, number: nat, r: Option<nat>)
    requires StatusIs(rest, malformed, number, r) && !(f.Uint? && f.number == number)
    ensures StatusIs([f] + rest, malformed, number, r)
  {
    var fs := [f] + rest;
    if Lacks(fs, number) {
      assert forall j :: 0 <= j < |rest| ==> rest[j] == fs[j + 1];
      assert Lacks(rest, number);
    }
    forall k: nat | FirstAt(fs, number, k)
      ensures r == Some(fs[k].value % TWO_32)
    {
      assert rest[k - 1] == fs[k];
      assert forall j :: 0 <= j < k - 1 ==> rest[j] == fs[j + 1];
      assert FirstAt(rest, number, k - 1);
    }
  }

  lemma StatusFound(f: Field, rest: seq<Field>, malformed: bool, number: nat)
    requires f.Uint? && f.number == number
    ensures StatusIs([f] + rest, malformed, number, Some(f.value % TWO_32))
  {
    var fs := [f] + rest;
    assert fs[0] == f && !Lacks(fs, number);
    assert forall k: nat :: FirstAt(fs, number, k) ==> k == 0;
  }

  /**
   * The status for any octets at all: the first integer of that number if it comes before any
   * malformed field; else none if there is such a field, and 0 if there is not.
   */
  lemma {:induction false} StatusExactly(s: seq<byte>, offset: nat, number: nat)
    requires offset <= |s|
    ensures StatusIs(Readable(s, offset), Fields(s, offset).None?, number, Status(s, offset, number))
    decreases |s| - offset
  {
    if offset < |s| && NextField(s, offset).FieldRead? {
      var next := NextField(s, offset);
      var rest, malformed := Readable(s, next.end), Fields(s, next.end).None?;
      if next.field.Uint? && next.field.number == number {
        StatusFound(next.field, rest, malformed, number);
      } else {
        StatusExactly(s, next.end, number);
        StatusPassed(next.field, rest, malformed, number, Status(s, next.end, number));
      }
    }
  }

  lemma {:induction false} FirstOfKept(fs: seq<Field>, number: nat, value: nat)
    requires value < TWO_32
    requires forall k :: 0 <= k < |fs| && fs[k].Uint? && fs[k].number == number ==> fs[k].value == value
    requires Uint(number, value) in fs
    ensures FirstUint(Kept(fs), number) == value
    decreases |fs|
  {
    var kept, rest := Kept(fs), Kept(fs[1..]);
    if fs[0].Uint? && fs[0].number == number {
      if value == 0 {
        NoneKept(fs, number);
      }
    } else {
      FirstOfKept(fs[1..], number, value);
      assert kept == rest || kept == [fs[0]] + rest;
    }
  }

  lemma {:induction false} NoneKept(fs: seq<Field>, number: nat)
    requires forall k :: 0 <= k < |fs| && fs[k].Uint? && fs[k].number == number ==> fs[k].value == 0
    ensures FirstUint(Kept(fs), number) == 0
    decreases |fs|
  {
    if fs != [] {
      NoneKept(fs[1..], number);
      var rest := Kept(fs[1..]);
      assert ([fs[0]] + rest)[1..] == rest;
    }
  }

  /** A status that was sent reads back as sent, a zero that was dropped included. */
  lemma StatusRoundTrip(fs: seq<Field>, number: nat, value: nat)
    requires forall k :: 0 <= k < |fs| ==> Encodable(fs[k])
    requires value < TWO_32 && Uint(number, value) in fs
    requires forall k :: 0 <= k < |fs| && fs[k].Uint? && fs[k].number == number ==> fs[k].value == value
    ensures Status(Encode(fs), 0, number) == Some(value)
  {
    RoundTrip(fs);
    StatusOfFields(Encode(fs), 0, number);
    FirstOfKept(fs, number, value);
  }

  // ---------------------------------------------------------------------------------------------
  // Encoding into a bounded buffer
  // ---------------------------------------------------------------------------------------------

  /**
   * An attempt to append `code` to a buffer's contents: it succeeds exactly when it fits, and a
   * failed attempt may leave a part of it behind.
   */
  ghost predicate Appended(before: seq<byte>, after: seq<byte>, ok: bool, code: seq<byte>) {
    && ok == (|before| + |code| <= CAPACITY)
    && (ok ==> after == before + code)
    && before <= after && |after| <= CAPACITY
  }

  lemma AppendedBoth(before: seq<byte>, mid: seq<byte>, after: seq<byte>, ok: bool, first: seq<byte>, second: seq<byte>)
    requires Appended(before, mid, true, first) && Appended(mid, after, ok, second)
    ensures Appended(before, after, ok, first + second)
  {
  }

  lemma AppendedPart(before: seq<byte>, after: seq<byte>, first: seq<byte>, second: seq<byte>)
    requires Appended(before, after, false, first)
    ensures Appended(before, after, false, first + second)
  {
  }

  /** What the loop of `pb_varint` has still to append. */
  function Unsent(rest: nat, more: bool): seq<byte> {
    if more then Varint(rest) else []
  }

  /** The octet of a varint that stands for its lowest digit. */
  function LowOctet(v: nat): byte {
    if v / 128 == 0 then v % 128 else v % 128 + 128
  }

  /** The loop state of `pb_varint`. */
  ghost predicate Sending(before: seq<byte>, now: seq<byte>, sent: seq<byte>, code: seq<byte>, rest: nat, more: bool) {
    Appended(before, now, true, sent) && code == sent + Unsent(rest, more)
  }

  lemma SendingStep(before: seq<byte>, mid: seq<byte>, after: seq<byte>, ok: bool,
                    sent: seq<byte>, code: seq<byte>, v: nat)
    requires Sending(before, mid, sent, code, v, true) && Appended(mid, after, ok, [LowOctet(v)])
    ensures if ok then Sending(before, after, sent + [LowOctet(v)], code, v / 128, v / 128 != 0)
            else Appended(before, after, false, code)
  {
  }

  /** `struct buffer`. */
  class Buffer {
    const data: array<byte>
    var length: nat

    ghost predicate Valid()
      reads this
    {
      data.Length == CAPACITY && length <= CAPACITY
    }

    function Contents(): (s: seq<byte>)
      requires Valid()
      reads this, data
      ensures |s| == length
    {
      data[..length]
    }

    constructor ()
      ensures Valid() && Contents() == [] && fresh(data)
    {
      data := new byte[CAPACITY];
      length := 0;
    }

    /** `buffer_append`: all of the octets or none. */
    method Append(bytes: seq<byte>) returns (ok: bool)
      requires Valid()
      modifies this`length, data
      ensures Valid() && Appended(old(Contents()), Contents(), ok, bytes)
      ensures !ok ==> Contents() == old(Contents())
    {
      if |bytes| > CAPACITY - length {
        return false;
      }
      for i := 0 to |bytes|
        invariant length == old(length)
        invariant data[..length + i] == old(Contents()) + bytes[..i]
      {
        data[length + i] := bytes[i];
      }
      length := length + |bytes|;
      ok := true;
    }

    /** `pb_varint`. */
    method PutVarint(value: nat) returns (ok: bool)
      requires Valid()
      modifies this`length, data
      ensures Valid() && Appended(old(Contents()), Contents(), ok, Varint(value))
    {
      ghost var before, code := Contents(), Varint(value);
      ghost var sent: seq<byte> := [];
      var rest, more := value, true;
      while more
        invariant Valid() && Sending(before, Contents(), sent, code, rest, more)
        decreases more, rest
      {
        ghost var mid, whole := Contents(), rest;
        var octet: byte := rest % 128;
        rest := rest / 128;
        if rest != 0 {
          octet := octet + 128;
        }
        ok := Append([octet]);
        SendingStep(before, mid, Contents(), ok, sent, code, whole);
        if !ok {
          return;
        }
        sent := sent + [octet];
        more := rest != 0;
      }
      ok := true;
    }

    /** `pb_key`. */
    method PutKey(number: nat, wireType: nat) returns (ok: bool)
      requires Valid() && wireType < 8
      modifies this`length, data
      ensures Valid() && Appended(old(Contents()), Contents(), ok, Varint(number * 8 + wireType))
    {
      ok := PutVarint(number * 8 + wireType);
    }

    /** `pb_uint`. */
    method PutUint(number: nat, value: nat) returns (ok: bool)
      requires Valid()
      modifies this`length, data
      ensures Valid() && Appended(old(Contents()), Contents(), ok, EncodeField(Uint(number, value)))
    {
      if value == 0 {
        return true;
      }
      ok := PutKey(number, 0);
      if !ok {
        AppendedPart(old(Contents()), Contents(), Varint(number * 8), Varint(value));
        return;
      }
      ghost var mid := Contents();
      ok := PutVarint(value);
      AppendedBoth(old(Contents()), mid, Contents(), ok, Varint(number * 8), Varint(value));
    }

    /** `pb_bytes`. */
    method PutOctets(number: nat, bytes: seq<byte>) returns (ok: bool)
      requires Valid()
      modifies this`length, data
      ensures Valid() && Appended(old(Contents()), Contents(), ok, EncodeField(Octets(number, bytes)))
    {
      ghost var key, length := Varint(number * 8 + 2), Varint(|bytes|);
      ok := PutKey(number, 2);
      if !ok {
        AppendedPart(old(Contents()), Contents(), key, length);
        AppendedPart(old(Contents()), Contents(), key + length, bytes);
        return;
      }
      ghost var mid := Contents();
      ok := PutVarint(|bytes|);
      AppendedBoth(old(Contents()), mid, Contents(), ok, key, length);
      if !ok {
        AppendedPart(old(Contents()), Contents(), key + length, bytes);
        return;
      }
      mid := Contents();
      ok := Append(bytes);
      AppendedBoth(old(Contents()), mid, Contents(), ok, key + length, bytes);
    }
  }
}
