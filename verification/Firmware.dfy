/**
 * The bounded JD9365 command artifact: the generator (`build_blob`) and the validating parser
 * (`parse_blob`), on sources whose JSON text has already been decoded.
 */
module Firmware {
  import opened Wrappers
  import opened Bytes
  import opened Crc32

  const MAGIC: seq<byte> := [0x4D, 0x4E, 0x4A, 0x44, 0x39, 0x33, 0x36, 0x35] // "MNJD9365"
  const FORMAT_VERSION := 1
  const FLAGS := 7
  const HEADER_BYTES := 32
  const MAX_RECORDS := 512
  const MAX_PAYLOAD_BYTES := 65536
  const MAX_PARAM_BYTES := 64
  const MAX_DELAY_MS := 5000

  /** One command of the source document, its numbers and hexadecimal data already decoded. */
  datatype Item = Item(command: int, data: seq<byte>, delayMs: int)

  datatype Document = Document(
    schema: string, license: string, prelude: seq<Item>, vendor: seq<Item>,
    profilePrelude: Option<int>, profileVendor: Option<int>)

  datatype Record = Record(command: byte, data: seq<byte>, delayMs: nat)

  datatype Error =
    | UnknownSchema | BadLicense | PreludeMismatch | VendorMismatch
    | CommandRange(index: nat) | TooManyParams(index: nat) | DelayRange(index: nat)
    | TotalCount | PayloadTooLarge
    | TruncatedHeader | UnsupportedHeader | UnsupportedFlags | CountRange | PayloadLength | BadCrc
    | RecordHeaderTruncated(index: nat) | RecordBounds(index: nat) | RecordDataTruncated(index: nat)
    | TrailingBytes | MaximaMismatch

  datatype Info = Info(
    preludeCount: nat, payloadBytes: nat, payloadCrc: nat, maxParams: nat, maxDelayMs: nat,
    records: seq<Record>)

  predicate ValidRecord(r: Record) {
    |r.data| <= MAX_PARAM_BYTES && r.delayMs <= MAX_DELAY_MS
  }

  predicate ValidRecords(rs: seq<Record>) {
    forall i :: 0 <= i < |rs| ==> ValidRecord(rs[i])
  }

  /** What the format can carry at all. */
  predicate Admissible(rs: seq<Record>, prelude: nat) {
    0 < |rs| <= MAX_RECORDS && prelude <= |rs| && ValidRecords(rs)
  }

  // ---------------------------------------------------------------------------------------------
  // The generator
  // ---------------------------------------------------------------------------------------------

  function NormalizeItem(item: Item, index: nat): Result<Record, Error> {
    if !(0 <= item.command <= 0xFF) then Err(CommandRange(index))
    else if |item.data| > MAX_PARAM_BYTES then Err(TooManyParams(index))
    else if !(0 <= item.delayMs <= MAX_DELAY_MS) then Err(DelayRange(index))
    else Ok(Record(item.command, item.data, item.delayMs))
  }

  predicate InRange(item: Item) {
    0 <= item.command <= 0xFF && |item.data| <= MAX_PARAM_BYTES && 0 <= item.delayMs <= MAX_DELAY_MS
  }

  predicate Describes(item: Item, r: Record) {
    item.command == r.command && item.data == r.data && item.delayMs == r.delayMs
  }

  /** The list comprehension: the first bad item, in order, is the error raised. */
  function NormalizeItems(items: seq<Item>, index: nat): (r: Result<seq<Record>, Error>)
    ensures r.Ok? <==> forall i :: 0 <= i < |items| ==> InRange(items[i])
    ensures r.Ok? ==> |r.value| == |items| && ValidRecords(r.value)
    ensures r.Ok? ==> forall i :: 0 <= i < |items| ==> Describes(items[i], r.value[i])
  {
    if items == [] then Ok([])
    else
      var first := NormalizeItem(items[0], index);
      if first.Err? then Err(first.error)
      else
        var rest := NormalizeItems(items[1..], index + 1);
        if rest.Err? then rest else Ok([first.value] + rest.value)
  }

  function Normalize(doc: Document): (r: Result<seq<Record>, Error>)
    ensures r.Ok? ==> Admissible(r.value, |doc.prelude|)
  {
    if doc.schema != "micronux-jd9365-command-source-v1" then Err(UnknownSchema)
    else if doc.license != "Apache-2.0" then Err(BadLicense)
    else if doc.profilePrelude != Some(|doc.prelude|) then Err(PreludeMismatch)
    else if doc.profileVendor != Some(|doc.vendor|) then Err(VendorMismatch)
    else
      var records := NormalizeItems(doc.prelude + doc.vendor, 0);
      if records.Ok? && !(0 < |records.value| <= MAX_RECORDS) then Err(TotalCount) else records
  }

  function EncodeRecord(r: Record): (s: seq<byte>)
    requires ValidRecord(r)
    ensures |s| == 4 + |r.data|
  {
    [r.command, |r.data|] + Le16(r.delayMs) + r.data
  }

  function EncodeRecords(rs: seq<Record>): (s: seq<byte>)
    requires ValidRecords(rs)
    ensures |s| <= (4 + MAX_PARAM_BYTES) * |rs|
  {
    if rs == [] then [] else EncodeRecord(rs[0]) + EncodeRecords(rs[1..])
  }

  function MaxParams(rs: seq<Record>): nat {
    if rs == [] then 0
    else var m := MaxParams(rs[1..]); if |rs[0].data| > m then |rs[0].data| else m
  }

  function MaxDelay(rs: seq<Record>): nat {
    if rs == [] then 0
    else var m := MaxDelay(rs[1..]); if rs[0].delayMs > m then rs[0].delayMs else m
  }

  /** Both maxima are reached by some record and exceeded by none; without records they are 0. */
  lemma {:induction false} MaximaMeaning(rs: seq<Record>)
    ensures forall k :: 0 <= k < |rs| ==> |rs[k].data| <= MaxParams(rs) && rs[k].delayMs <= MaxDelay(rs)
    ensures if rs == [] then MaxParams(rs) == 0 == MaxDelay(rs)
            else (exists k :: 0 <= k < |rs| && |rs[k].data| == MaxParams(rs))
                 && exists k :: 0 <= k < |rs| && rs[k].delayMs == MaxDelay(rs)
  {
    if rs != [] {
      var rest := rs[1..];
      MaximaMeaning(rest);
      assert forall k :: 0 <= k < |rest| ==> rest[k] == rs[k + 1];
      assert forall k :: 1 <= k < |rs| ==> rs[k] == rest[k - 1];
      if rest != [] && |rs[0].data| <= MaxParams(rest) {
        var k :| 0 <= k < |rest| && |rest[k].data| == MaxParams(rest);
        assert |rs[k + 1].data| == MaxParams(rs);
      } else {
        assert |rs[0].data| == MaxParams(rs);
      }
      if rest != [] && rs[0].delayMs <= MaxDelay(rest) {
        var k :| 0 <= k < |rest| && rest[k].delayMs == MaxDelay(rest);
        assert rs[k + 1].delayMs == MaxDelay(rs);
      } else {
        assert rs[0].delayMs == MaxDelay(rs);
      }
    }
  }

  function Header(count: nat, prelude: nat, payloadBytes: nat, crc: nat, maxParams: nat, maxDelay: nat): (s: seq<byte>)
    ensures |s| == HEADER_BYTES
  {
    HeaderFront(count, prelude) + HeaderBack(payloadBytes, crc, maxParams, maxDelay)
  }

  function HeaderFront(count: nat, prelude: nat): (s: seq<byte>)
    ensures |s| == 16
  {
    MAGIC + Le16(FORMAT_VERSION) + Le16(HEADER_BYTES) + Le16(count) + Le16(prelude)
  }

  function HeaderBack(payloadBytes: nat, crc: nat, maxParams: nat, maxDelay: nat): (s: seq<byte>)
    ensures |s| == 16
  {
    Le32(payloadBytes) + Le32(crc) + Le32(FLAGS) + Le16(maxParams) + Le16(maxDelay)
  }

  /** The artifact for a list of records. */
  function Encode(rs: seq<Record>, prelude: nat): (blob: seq<byte>)
    requires ValidRecords(rs)
  {
    var payload := EncodeRecords(rs);
    Header(|rs|, prelude, |payload|, Crc(payload), MaxParams(rs), MaxDelay(rs)) + payload
  }

  /** `build_blob`. */
  method BuildBlob(doc: Document) returns (r: Result<seq<byte>, Error>)
    ensures Normalize(doc).Err? ==> r == Err(Normalize(doc).error)
    ensures Normalize(doc).Ok? ==> r == Ok(Encode(Normalize(doc).value, |doc.prelude|))
  {
    var normalized := Normalize(doc);
    if normalized.Err? {
      return Err(normalized.error);
    }
    var records := normalized.value;
    var payload := JoinRecords(records);
    if |payload| > MAX_PAYLOAD_BYTES {
      return Err(PayloadTooLarge);
    }
    r := Ok(Header(|records|, |doc.prelude|, |payload|, Crc(payload), MaxParams(records), MaxDelay(records)) + payload);
  }

  /** The loop that collects the payload parts. */
  method JoinRecords(records: seq<Record>) returns (payload: seq<byte>)
    requires ValidRecords(records)
    ensures payload == EncodeRecords(records)
  {
    payload := [];
    for i := 0 to |records|
      invariant payload + EncodeRecords(records[i..]) == EncodeRecords(records)
    {
      assert records[i..][1..] == records[i + 1..];
      payload := payload + EncodeRecord(records[i]);
    }
    assert records[|records|..] == [];
  }

  // ---------------------------------------------------------------------------------------------
  // The parser
  // ---------------------------------------------------------------------------------------------

  function ParseRecord(payload: seq<byte>, offset: nat, index: nat): (r: Result<Record, Error>)
    requires offset <= |payload|
    ensures r.Ok? ==> ValidRecord(r.value) && offset + 4 + |r.value.data| <= |payload|
  {
    if |payload| - offset < 4 then Err(RecordHeaderTruncated(index))
    else
      var paramBytes, delayMs := payload[offset + 1], U16(payload, offset + 2);
      if paramBytes > MAX_PARAM_BYTES || delayMs > MAX_DELAY_MS then Err(RecordBounds(index))
      else if |payload| - offset - 4 < paramBytes then Err(RecordDataTruncated(index))
      else Ok(Record(payload[offset], payload[offset + 4..offset + 4 + paramBytes], delayMs))
  }

  /** `count` records from `offset` on, after which the payload must be exhausted. */
  function ParseRecords(payload: seq<byte>, offset: nat, count: nat, index: nat): (r: Result<seq<Record>, Error>)
    requires offset <= |payload|
    ensures r.Ok? ==> |r.value| == count && ValidRecords(r.value)
    decreases count
  {
    if count == 0 then
      if offset == |payload| then Ok([]) else Err(TrailingBytes)
    else
      var first := ParseRecord(payload, offset, index);
      if first.Err? then Err(first.error)
      else Prepend([first.value], ParseRecords(payload, offset + 4 + |first.value.data|, count - 1, index + 1))
  }

  function Prepend(rs: seq<Record>, r: Result<seq<Record>, Error>): Result<seq<Record>, Error> {
    if r.Ok? then Ok(rs + r.value) else r
  }

  lemma PrependPrepend(rs: seq<Record>, r: Record, rest: Result<seq<Record>, Error>)
    ensures Prepend(rs, Prepend([r], rest)) == Prepend(rs + [r], rest)
  {
    if rest.Ok? {
      assert rs + ([r] + rest.value) == rs + [r] + rest.value;
    }
  }

  function HeaderProblem(blob: seq<byte>): Option<Error> {
    if |blob| < HEADER_BYTES then Some(TruncatedHeader)
    else if blob[..8] != MAGIC || U16(blob, 8) != FORMAT_VERSION || U16(blob, 10) != HEADER_BYTES
    then Some(UnsupportedHeader)
    else if U32(blob, 24) != FLAGS then Some(UnsupportedFlags)
    else if !(0 < U16(blob, 12) <= MAX_RECORDS) || U16(blob, 14) > U16(blob, 12) then Some(CountRange)
    else if U32(blob, 16) > MAX_PAYLOAD_BYTES || |blob| != HEADER_BYTES + U32(blob, 16)
    then Some(PayloadLength)
    else if Crc(blob[HEADER_BYTES..]) != U32(blob, 20) then Some(BadCrc)
    else None
  }

  function Parse(blob: seq<byte>): Result<Info, Error> {
    var problem := HeaderProblem(blob);
    if problem.Some? then Err(problem.value)
    else
      var records := ParseRecords(blob[HEADER_BYTES..], 0, U16(blob, 12), 0);
      if records.Err? then Err(records.error)
      else if U16(blob, 28) != MaxParams(records.value) || U16(blob, 30) != MaxDelay(records.value)
      then Err(MaximaMismatch)
      else Ok(Info(U16(blob, 14), U32(blob, 16), U32(blob, 20),
                   U16(blob, 28), U16(blob, 30), records.value))
  }

  /** `parse_blob`. */
  method ParseBlob(blob: seq<byte>) returns (r: Result<Info, Error>)
    ensures r == Parse(blob)
  {
    var problem := HeaderProblem(blob);
    if problem.Some? {
      return Err(problem.value);
    }
    var records := ReadRecords(blob[HEADER_BYTES..], U16(blob, 12));
    if records.Err? {
      return Err(records.error);
    }
    var maxParams, maxDelay := MaxParams(records.value), MaxDelay(records.value);
    if U16(blob, 28) != maxParams || U16(blob, 30) != maxDelay {
      return Err(MaximaMismatch);
    }
    r := Ok(Info(U16(blob, 14), U32(blob, 16), U32(blob, 20), maxParams, maxDelay, records.value));
  }

  /** The record loop, advancing an offset through the payload. */
  method ReadRecords(payload: seq<byte>, count: nat) returns (r: Result<seq<Record>, Error>)
    ensures r == ParseRecords(payload, 0, count, 0)
  {
    var records: seq<Record> := [];
    var offset: nat := 0;
    ghost var whole := ParseRecords(payload, 0, count, 0);
    assert whole.Ok? ==> [] + whole.value == whole.value;
    for index := 0 to count
      invariant offset <= |payload|
      invariant whole == Prepend(records, ParseRecords(payload, offset, count - index, index))
    {
      var record := ParseRecord(payload, offset, index);
      if record.Err? {
        return Err(record.error);
      }
      var next := offset + 4 + |record.value.data|;
      PrependPrepend(records, record.value, ParseRecords(payload, next, count - index - 1, index + 1));
      offset := next;
      records := records + [record.value];
    }
    if offset != |payload| {
      return Err(TrailingBytes);
    }
    assert records + [] == records;
    r := Ok(records);
  }

  // ---------------------------------------------------------------------------------------------
  // Records: encoding and parsing undo each other
  // ---------------------------------------------------------------------------------------------

  lemma ParseEncodedRecord(payload: seq<byte>, offset: nat, r: Record, index: nat)
    requires ValidRecord(r) && offset + 4 + |r.data| <= |payload|
    requires payload[offset..offset + 4 + |r.data|] == EncodeRecord(r)
    ensures ParseRecord(payload, offset, index) == Ok(r)
  {
    var s := payload[offset..offset + 4 + |r.data|];
    assert s[0] == payload[offset] && s[1] == payload[offset + 1];
    assert s[2] == payload[offset + 2] && s[3] == payload[offset + 3];
    Le16ThenU16(r.delayMs, payload, offset + 2);
    assert s[4..] == r.data;
    assert s[4..] == payload[offset + 4..offset + 4 + |r.data|];
  }

  /** From `offset` on, the payload is exactly these records. */
  predicate Holds(payload: seq<byte>, offset: nat, rs: seq<Record>) {
    ValidRecords(rs) && offset <= |payload| && payload[offset..] == EncodeRecords(rs)
  }

  lemma {:induction false} ParseEncodedRecords(payload: seq<byte>, offset: nat, rs: seq<Record>, index: nat)
    requires Holds(payload, offset, rs)
    ensures ParseRecords(payload, offset, |rs|, index) == Ok(rs)
    decreases |rs|
  {
    if rs != [] {
      var next := FirstRecord(payload, offset, rs, index);
      ParseEncodedRecords(payload, next, rs[1..], index + 1);
      ParseFirst(payload, offset, next, rs, index);
    }
  }

  lemma FirstRecord(payload: seq<byte>, offset: nat, rs: seq<Record>, index: nat) returns (next: nat)
    requires Holds(payload, offset, rs) && rs != []
    ensures ParseRecord(payload, offset, index) == Ok(rs[0])
    ensures next == offset + 4 + |rs[0].data| && Holds(payload, next, rs[1..])
  {
    SplitAt(payload, offset, EncodeRecord(rs[0]), EncodeRecords(rs[1..]));
    ParseEncodedRecord(payload, offset, rs[0], index);
    next := offset + 4 + |rs[0].data|;
  }

  lemma ParseFirst(payload: seq<byte>, offset: nat, next: nat, rs: seq<Record>, index: nat)
    requires offset <= next <= |payload| && rs != []
    requires ParseRecord(payload, offset, index) == Ok(rs[0]) && next == offset + 4 + |rs[0].data|
    requires ParseRecords(payload, next, |rs[1..]|, index + 1) == Ok(rs[1..])
    ensures ParseRecords(payload, offset, |rs|, index) == Ok(rs)
  {
    assert rs == [rs[0]] + rs[1..];
  }

  lemma SplitAt(s: seq<byte>, offset: nat, u: seq<byte>, v: seq<byte>)
    requires offset <= |s| && s[offset..] == u + v
    ensures offset + |u| <= |s|
    ensures s[offset..offset + |u|] == u && s[offset + |u|..] == v
  {
  }

  lemma EncodeParsedRecord(payload: seq<byte>, offset: nat, index: nat)
    requires offset <= |payload| && ParseRecord(payload, offset, index).Ok?
    ensures var r := ParseRecord(payload, offset, index).value;
            EncodeRecord(r) == payload[offset..offset + 4 + |r.data|]
  {
  }

  lemma {:induction false} EncodeParsedRecords(payload: seq<byte>, offset: nat, count: nat, index: nat)
    requires offset <= |payload| && ParseRecords(payload, offset, count, index).Ok?
    ensures EncodeRecords(ParseRecords(payload, offset, count, index).value) == payload[offset..]
    decreases count
  {
    if count != 0 {
      var first := ParseRecord(payload, offset, index).value;
      var next := offset + 4 + |first.data|;
      EncodeParsedRecord(payload, offset, index);
      EncodeParsedRecords(payload, next, count - 1, index + 1);
      var rest := ParseRecords(payload, next, count - 1, index + 1).value;
      assert ([first] + rest)[1..] == rest;
      assert payload[offset..] == payload[offset..next] + payload[next..];
    }
  }

  /** The record format is uniquely decodable. */
  lemma {:induction false} EncodeRecordsInjective(rs: seq<Record>, ts: seq<Record>)
    requires ValidRecords(rs) && ValidRecords(ts)
    requires EncodeRecords(rs) == EncodeRecords(ts)
    ensures rs == ts
  {
    if rs == [] || ts == [] {
    } else {
      var payload := EncodeRecords(rs);
      assert payload[0..] == payload;
      SplitAt(payload, 0, EncodeRecord(rs[0]), EncodeRecords(rs[1..]));
      SplitAt(payload, 0, EncodeRecord(ts[0]), EncodeRecords(ts[1..]));
      ParseEncodedRecord(payload, 0, rs[0], 0);
      ParseEncodedRecord(payload, 0, ts[0], 0);
      EncodeRecordsInjective(rs[1..], ts[1..]);
      assert rs == [rs[0]] + rs[1..] && ts == [ts[0]] + ts[1..];
    }
  }

  lemma {:induction false} MaximaBounds(rs: seq<Record>)
    requires ValidRecords(rs)
    ensures MaxParams(rs) <= MAX_PARAM_BYTES && MaxDelay(rs) <= MAX_DELAY_MS
  {
    if rs != [] {
      MaximaBounds(rs[1..]);
    }
  }

  // ---------------------------------------------------------------------------------------------
  // Whole artifacts
  // ---------------------------------------------------------------------------------------------

  lemma HeaderFrontFields(count: nat, prelude: nat, tail: seq<byte>)
    requires count < 0x1_0000 && prelude < 0x1_0000
    ensures var blob := HeaderFront(count, prelude) + tail;
            && blob[..8] == MAGIC && U16(blob, 8) == FORMAT_VERSION && U16(blob, 10) == HEADER_BYTES
            && U16(blob, 12) == count && U16(blob, 14) == prelude
  {
  }

  lemma HeaderBackFields(payloadBytes: nat, crc: nat, maxParams: nat, maxDelay: nat,
                         front: seq<byte>, payload: seq<byte>)
    requires |front| == 16
    requires maxParams < 0x1_0000 && maxDelay < 0x1_0000 && payloadBytes < 0x1_0000_0000 && crc < 0x1_0000_0000
    ensures var blob := front + HeaderBack(payloadBytes, crc, maxParams, maxDelay) + payload;
            && U32(blob, 16) == payloadBytes && U32(blob, 20) == crc && U32(blob, 24) == FLAGS
            && U16(blob, 28) == maxParams && U16(blob, 30) == maxDelay
            && blob[HEADER_BYTES..] == payload
  {
    var blob := front + HeaderBack(payloadBytes, crc, maxParams, maxDelay) + payload;
    Le32ThenU32(payloadBytes, blob, 16);
    Le32ThenU32(crc, blob, 20);
    Le32ThenU32(FLAGS, blob, 24);
    Le16ThenU16(maxParams, blob, 28);
    Le16ThenU16(maxDelay, blob, 30);
  }

  /** Every admissible list of records survives encoding and parsing. */
  lemma ParseOfEncode(rs: seq<Record>, prelude: nat)
    requires Admissible(rs, prelude)
    ensures var payload := EncodeRecords(rs);
            Parse(Encode(rs, prelude))
            == Ok(Info(prelude, |payload|, Crc(payload), MaxParams(rs), MaxDelay(rs), rs))
  {
    var payload := EncodeRecords(rs);
    MaximaBounds(rs);
    var front, back := HeaderFront(|rs|, prelude), HeaderBack(|payload|, Crc(payload), MaxParams(rs), MaxDelay(rs));
    assert front + back + payload == front + (back + payload);
    HeaderFrontFields(|rs|, prelude, back + payload);
    HeaderBackFields(|payload|, Crc(payload), MaxParams(rs), MaxDelay(rs), front, payload);
    assert payload[0..] == payload;
    ParseEncodedRecords(payload, 0, rs, 0);
  }

  /** Every artifact the parser accepts is, octet for octet, the encoding of what it returns. */
  lemma EncodeOfParse(blob: seq<byte>)
    requires Parse(blob).Ok?
    ensures var info := Parse(blob).value;
            Admissible(info.records, info.preludeCount) && Encode(info.records, info.preludeCount) == blob
  {
    var info := Parse(blob).value;
    PayloadOfParse(blob);
    HeaderOfParse(blob, Parse(blob).value);
    assert blob == blob[..16] + blob[16..32] + blob[32..];
  }

  /** The records come from a payload that is exactly their encoding. */
  lemma PayloadOfParse(blob: seq<byte>)
    requires Parse(blob).Ok?
    ensures var info := Parse(blob).value;
            Admissible(info.records, info.preludeCount) && EncodeRecords(info.records) == blob[32..]
  {
    var payload := blob[HEADER_BYTES..];
    EncodeParsedRecords(payload, 0, U16(blob, 12), 0);
    assert payload[0..] == payload;
  }

  /** The header fields that describe the payload, as parsing leaves them. */
  lemma HeaderFields(blob: seq<byte>, info: Info)
    requires Parse(blob) == Ok(info)
    ensures HeaderProblem(blob).None? && |blob| >= 32
    ensures U16(blob, 12) == |info.records| && U16(blob, 14) == info.preludeCount
    ensures U32(blob, 16) == |blob[32..]| && U32(blob, 20) == Crc(blob[32..])
    ensures U16(blob, 28) == MaxParams(info.records) && U16(blob, 30) == MaxDelay(info.records)
  {
  }

  lemma HeaderOfParse(blob: seq<byte>, info: Info)
    requires Parse(blob) == Ok(info)
    ensures |blob| >= 32 && blob[..16] == HeaderFront(|info.records|, info.preludeCount)
    ensures blob[16..32]
            == HeaderBack(|blob[32..]|, Crc(blob[32..]), MaxParams(info.records), MaxDelay(info.records))
  {
    HeaderFields(blob, info);
    HeaderOfFields(blob);
  }

  lemma HeaderOfFields(blob: seq<byte>)
    requires HeaderProblem(blob).None?
    ensures blob[..16] == HeaderFront(U16(blob, 12), U16(blob, 14))
    ensures blob[16..32] == HeaderBack(U32(blob, 16), U32(blob, 20), U16(blob, 28), U16(blob, 30))
  {
    HeaderFrontOfFields(blob);
    HeaderBackOfFields(blob);
  }

  lemma HeaderFrontOfFields(blob: seq<byte>)
    requires |blob| >= 32 && blob[..8] == MAGIC && U16(blob, 8) == FORMAT_VERSION && U16(blob, 10) == HEADER_BYTES
    ensures blob[..16] == HeaderFront(U16(blob, 12), U16(blob, 14))
  {
  }

  lemma HeaderBackOfFields(blob: seq<byte>)
    requires |blob| >= 32 && U32(blob, 24) == FLAGS
    ensures blob[16..32] == HeaderBack(U32(blob, 16), U32(blob, 20), U16(blob, 28), U16(blob, 30))
  {
    U32ThenLe32(blob, 16);
    U32ThenLe32(blob, 20);
    U32ThenLe32(blob, 24);
    U16ThenLe16(blob, 28);
    U16ThenLe16(blob, 30);
    assert blob[16..32] == blob[16..20] + blob[20..24] + blob[24..28] + blob[28..30] + blob[30..32];
  }

  /** After normalization the payload always fits, so `PayloadTooLarge` is unreachable. */
  lemma PayloadFits(doc: Document)
    requires Normalize(doc).Ok?
    ensures |EncodeRecords(Normalize(doc).value)| <= 34816 < MAX_PAYLOAD_BYTES
  {
  }

  /** Every accepted source parses back to its own records and prelude count. */
  lemma SourceRoundTrip(doc: Document)
    requires Normalize(doc).Ok?
    ensures var parsed := Parse(Encode(Normalize(doc).value, |doc.prelude|));
            && parsed.Ok? && parsed.value.preludeCount == |doc.prelude|
            && |parsed.value.records| == |doc.prelude| + |doc.vendor|
            && forall i :: 0 <= i < |parsed.value.records| ==>
                 Describes((doc.prelude + doc.vendor)[i], parsed.value.records[i])
  {
    ParseOfEncode(Normalize(doc).value, |doc.prelude|);
  }

  // ---------------------------------------------------------------------------------------------
  // Corruption
  // ---------------------------------------------------------------------------------------------

  /** A change confined to four consecutive payload octets is always rejected. */
  lemma PayloadBurstRejected(blob: seq<byte>, damaged: seq<byte>, at: nat)
    requires Parse(blob).Ok?
    requires |damaged| == |blob| && damaged != blob && damaged[..HEADER_BYTES] == blob[..HEADER_BYTES]
    requires forall k :: HEADER_BYTES <= k < |blob| && !(at <= k < at + 4) ==> damaged[k] == blob[k]
    ensures Parse(damaged).Err?
  {
    var p, q := blob[HEADER_BYTES..], damaged[HEADER_BYTES..];
    assert blob == blob[..HEADER_BYTES] + p && damaged == damaged[..HEADER_BYTES] + q;
    assert blob[20..24] == blob[..HEADER_BYTES][20..24] == damaged[20..24];
    var start := if at >= HEADER_BYTES then at - HEADER_BYTES else 0;
    FourOctetsDetected(p, q, start);
  }

  /** Two accepted artifacts with one payload can differ in nothing but the prelude count. */
  lemma SamePayload(blob: seq<byte>, other: seq<byte>)
    requires Parse(blob).Ok? && Parse(other).Ok?
    requires blob[HEADER_BYTES..] == other[HEADER_BYTES..]
    ensures Parse(blob).value.records == Parse(other).value.records
    ensures other == Overlay(blob, 14, Le16(Parse(other).value.preludeCount))
  {
    var a, b := Parse(blob).value, Parse(other).value;
    EncodeOfParse(blob);
    EncodeOfParse(other);
    var payload := blob[HEADER_BYTES..];
    assert EncodeRecords(a.records) == payload == EncodeRecords(b.records);
    EncodeRecordsInjective(a.records, b.records);
    EncodePreludeOnly(a.records, a.preludeCount, b.preludeCount);
  }

  lemma EncodePreludeOnly(rs: seq<Record>, prelude: nat, prelude': nat)
    requires ValidRecords(rs)
    ensures Encode(rs, prelude') == Overlay(Encode(rs, prelude), 14, Le16(prelude'))
  {
  }

  /**
   * One wrong octet anywhere in an accepted artifact is rejected, with one exception the format
   * allows: the prelude count is outside the CRC, so another count that is not above the record
   * count is still accepted.
   */
  lemma OctetCorruption(blob: seq<byte>, k: nat, octet: byte)
    requires Parse(blob).Ok? && k < |blob| && octet != blob[k]
    ensures var damaged := blob[k := octet];
            Parse(damaged).Ok? <==> (k == 14 || k == 15) && U16(damaged, 14) <= |Parse(blob).value.records|
  {
    var damaged := blob[k := octet];
    if k >= HEADER_BYTES {
      PayloadBurstRejected(blob, damaged, k);
    } else {
      if Parse(damaged).Ok? {
        HeaderOctetAccepted(blob, k, octet);
      }
      if (k == 14 || k == 15) && U16(damaged, 14) <= |Parse(blob).value.records| {
        PreludeOctetAccepted(blob, k, octet);
      }
    }
  }

  lemma HeaderOctetAccepted(blob: seq<byte>, k: nat, octet: byte)
    requires Parse(blob).Ok? && k < HEADER_BYTES && octet != blob[k]
    requires Parse(blob[k := octet]).Ok?
    ensures (k == 14 || k == 15) && U16(blob[k := octet], 14) <= |Parse(blob).value.records|
  {
    var damaged := blob[k := octet];
    assert blob[HEADER_BYTES..] == damaged[HEADER_BYTES..];
    SamePayload(blob, damaged);
    EncodeOfParse(damaged);
    assert damaged[k] != blob[k];
  }

  lemma PreludeOctetAccepted(blob: seq<byte>, k: nat, octet: byte)
    requires Parse(blob).Ok? && (k == 14 || k == 15)
    requires U16(blob[k := octet], 14) <= |Parse(blob).value.records|
    ensures Parse(blob[k := octet]).Ok?
  {
    var info := Parse(blob).value;
    EncodeOfParse(blob);
    PatchPrelude(blob, k, octet);
    var prelude := U16(blob[k := octet], 14);
    EncodePreludeOnly(info.records, info.preludeCount, prelude);
    ParseOfEncode(info.records, prelude);
  }

  lemma PatchPrelude(blob: seq<byte>, k: nat, octet: byte)
    requires |blob| >= 16 && (k == 14 || k == 15)
    ensures blob[k := octet] == Overlay(blob, 14, Le16(U16(blob[k := octet], 14)))
  {
  }
}
