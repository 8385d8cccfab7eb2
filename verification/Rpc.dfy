/**
 * The serial RPC client of `micronux-netctl`: pserial frames over a link that delivers octets in
 * arbitrary pieces, and the exchange that pairs a request with its own response.
 */
module Rpc {
  import opened Wrappers
  import opened Bytes
  import opened Protobuf

  const ENDPOINT_CAPACITY := 16
  const RPC_RSP: seq<byte> := [0x52, 0x50, 0x43, 0x52, 0x73, 0x70]
  const RPC_EVT: seq<byte> := [0x52, 0x50, 0x43, 0x45, 0x76, 0x74]
  const TYPE_REQUEST := 1
  const TYPE_RESPONSE := 2
  const TYPE_EVENT := 3
  const RESPONSE_OFFSET := 256
  const STA_DISCONNECTED := 776

  // ---------------------------------------------------------------------------------------------
  // Frames
  // ---------------------------------------------------------------------------------------------

  datatype Frame = Frame(endpoint: seq<byte>, message: seq<byte>)

  datatype FrameRead = NoFrame | FrameRead(frame: Frame, end: nat)

  predicate Legal(f: Frame) {
    1 <= |f.endpoint| <= ENDPOINT_CAPACITY && |f.message| <= CAPACITY
  }

  function Section(tag: byte, bytes: seq<byte>): seq<byte> {
    [tag] + Le16(|bytes|) + bytes
  }

  function EncodeFrame(f: Frame): seq<byte> {
    Section(1, f.endpoint) + Section(2, f.message)
  }

  /** Whether a tagged section with a length in the given range starts at an offset. */
  predicate SectionAt(s: seq<byte>, at: nat, tag: byte, low: nat, high: nat) {
    at + 3 <= |s| && s[at] == tag && low <= U16(s, at + 1) <= high && at + 3 + U16(s, at + 1) <= |s|
  }

  function SectionEnd(s: seq<byte>, at: nat): nat
    requires at + 3 <= |s|
  {
    at + 3 + U16(s, at + 1)
  }

  /** The frame that starts at an offset of the stream. */
  function ParseFrame(s: seq<byte>, at: nat): (r: FrameRead)
    ensures r.FrameRead? ==> at < r.end <= |s| && Legal(r.frame)
  {
    if !SectionAt(s, at, 1, 1, ENDPOINT_CAPACITY) then NoFrame
    else
      var mid := SectionEnd(s, at);
      if !SectionAt(s, mid, 2, 0, CAPACITY) then NoFrame
      else FrameRead(Frame(s[at + 3..mid], s[mid + 3..SectionEnd(s, mid)]), SectionEnd(s, mid))
  }

  /** The frames from an offset on, up to the first that is incomplete or malformed. */
  function Frames(s: seq<byte>, at: nat): seq<Frame>
    requires at <= |s|
    decreases |s| - at
  {
    match ParseFrame(s, at)
    case NoFrame => []
    case FrameRead(f, end) => [f] + Frames(s, end)
  }

  function EncodeFrames(fs: seq<Frame>): seq<byte> {
    if fs == [] then [] else EncodeFrame(fs[0]) + EncodeFrames(fs[1..])
  }

  /** A section of known contents. */
  predicate Holds(s: seq<byte>, at: nat, tag: byte, bytes: seq<byte>) {
    && at + 3 + |bytes| <= |s| && s[at] == tag && U16(s, at + 1) == |bytes|
    && s[at + 3..at + 3 + |bytes|] == bytes
  }

  lemma SectionRoundTrip(s: seq<byte>, at: nat, tag: byte, bytes: seq<byte>)
    requires |bytes| <= CAPACITY && At(s, at, Section(tag, bytes))
    ensures Holds(s, at, tag, bytes)
  {
    AtParts(s, at, [tag] + Le16(|bytes|), bytes);
    AtParts(s, at, [tag], Le16(|bytes|));
    assert s[at..at + 1][0] == s[at];
    assert s[at + 1..at + 3][0] == s[at + 1] && s[at + 1..at + 3][1] == s[at + 2];
    Le16ThenU16(|bytes|, s, at + 1);
  }

  lemma FrameOfSections(f: Frame, s: seq<byte>, at: nat, mid: nat)
    requires Legal(f) && Holds(s, at, 1, f.endpoint) && Holds(s, mid, 2, f.message)
    requires mid == at + 3 + |f.endpoint|
    ensures ParseFrame(s, at) == FrameRead(f, mid + 3 + |f.message|)
  {
  }

  lemma FrameRoundTrip(f: Frame, s: seq<byte>, at: nat)
    requires Legal(f) && At(s, at, EncodeFrame(f))
    ensures ParseFrame(s, at) == FrameRead(f, at + |EncodeFrame(f)|)
  {
    var mid := at + 3 + |f.endpoint|;
    AtParts(s, at, Section(1, f.endpoint), Section(2, f.message));
    assert Holds(s, at, 1, f.endpoint) by {
      SectionRoundTrip(s, at, 1, f.endpoint);
    }
    assert Holds(s, mid, 2, f.message) by {
      SectionRoundTrip(s, mid, 2, f.message);
    }
    FrameOfSections(f, s, at, mid);
  }

  lemma FramesStep(s: seq<byte>, at: nat, f: Frame, end: nat, rest: seq<Frame>)
    requires at <= |s| && end <= |s| && ParseFrame(s, at) == FrameRead(f, end) && Frames(s, end) == rest
    ensures Frames(s, at) == [f] + rest
  {
  }

  lemma FramesParts(fs: seq<Frame>, code: seq<byte>, s: seq<byte>, at: nat)
    requires fs != [] && code == EncodeFrames(fs) && At(s, at, code)
    ensures At(s, at, EncodeFrame(fs[0])) && At(s, at + |EncodeFrame(fs[0])|, EncodeFrames(fs[1..]))
  {
    var first, rest := EncodeFrame(fs[0]), EncodeFrames(fs[1..]);
    assert code == first + rest;
    AtParts(s, at, first, rest);
  }

  /** Frames are recovered from the stream in the order they were sent. */
  lemma {:induction false} FramesRoundTrip(fs: seq<Frame>, s: seq<byte>, at: nat)
    requires forall k :: 0 <= k < |fs| ==> Legal(fs[k])
    requires At(s, at, EncodeFrames(fs)) && at + |EncodeFrames(fs)| == |s|
    ensures Frames(s, at) == fs
    decreases |fs|
  {
    if fs != [] {
      var end := at + |EncodeFrame(fs[0])|;
      FramesParts(fs, EncodeFrames(fs), s, at);
      FrameRoundTrip(fs[0], s, at);
      FramesRoundTrip(fs[1..], s, end);
      FramesStep(s, at, fs[0], end, fs[1..]);
      assert [fs[0]] + fs[1..] == fs;
    }
  }

  // ---------------------------------------------------------------------------------------------
  // The link
  // ---------------------------------------------------------------------------------------------

  /**
   * What one wait-and-read on the link does: deliver up to `n` octets (none of them meaning that
   * the peer has gone), be interrupted, or fail or time out.
   */
  datatype Event = Chunk(n: nat) | Interrupted | Broken

  predicate Faulty(script: seq<Event>) {
    exists i | 0 <= i < |script| :: script[i] == Broken || script[i] == Chunk(0)
  }

  /** Where a client stands in the stream, and what its further reads will meet. */
  datatype LinkState = LinkState(position: nat, script: seq<Event>)

  datatype Pulled = Pulled(ok: bool, state: LinkState)

  /** `read_exact` with `n` octets to go. */
  function Pull(stream: seq<byte>, s: LinkState, n: nat): (r: Pulled)
    requires s.position <= |stream|
    ensures s.position <= r.state.position <= |stream| && (r.ok ==> r.state.position == s.position + n)
    decreases |s.script|
  {
    if n == 0 then Pulled(true, s)
    else if s.script == [] then Pulled(false, s)
    else
      var after := s.(script := s.script[1..]);
      match s.script[0]
      case Chunk(k) =>
        var count := Min(k, Min(n, |stream| - s.position));
        if count == 0 then Pulled(false, after)
        else Pull(stream, after.(position := s.position + count), n - count)
      case Interrupted => Pull(stream, after, n)
      case Broken => Pulled(false, after)
  }

  function Min(a: nat, b: nat): nat {
    if a < b then a else b
  }

  datatype Received<T> = Got(value: T) | LinkDown | BadFrame

  datatype SectionPull = SectionPull(r: Received<seq<byte>>, state: LinkState)

  /** One tagged, length-prefixed section. */
  function PullSection(stream: seq<byte>, s: LinkState, tag: byte, low: nat, high: nat): (p: SectionPull)
    requires s.position <= |stream|
    ensures s.position <= p.state.position <= |stream|
    ensures p.r.Got? ==> SectionAt(stream, s.position, tag, low, high)
                         && p.state.position == SectionEnd(stream, s.position)
                         && p.r.value == stream[s.position + 3..p.state.position]
    ensures p.r == BadFrame ==> !SectionAt(stream, s.position, tag, low, high)
  {
    var header := Pull(stream, s, 3);
    if !header.ok then SectionPull(LinkDown, header.state)
    else
      var length := U16(stream, s.position + 1);
      if stream[s.position] != tag || length < low || length > high then SectionPull(BadFrame, header.state)
      else
        var body := Pull(stream, header.state, length);
        SectionPull(if body.ok then Got(stream[s.position + 3..body.state.position]) else LinkDown, body.state)
  }

  datatype FramePull = FramePull(r: Received<Frame>, state: LinkState)

  /** One frame: what is got stands in the stream, whatever pieces it came in. */
  function PullFrame(stream: seq<byte>, s: LinkState): (p: FramePull)
    requires s.position <= |stream|
    ensures s.position <= p.state.position <= |stream|
    ensures p.r.Got? ==> ParseFrame(stream, s.position) == FrameRead(p.r.value, p.state.position)
    ensures p.r == BadFrame ==> ParseFrame(stream, s.position) == NoFrame
  {
    var endpoint := PullSection(stream, s, 1, 1, ENDPOINT_CAPACITY);
    if !endpoint.r.Got? then FramePull(if endpoint.r.BadFrame? then BadFrame else LinkDown, endpoint.state)
    else
      var message := PullSection(stream, endpoint.state, 2, 0, CAPACITY);
      FramePull(match message.r
                case Got(bytes) => Got(Frame(endpoint.r.value, bytes))
                case BadFrame => BadFrame
                case LinkDown => LinkDown, message.state)
  }

  /** How many reads of a script deliver something. */
  function Chunks(script: seq<Event>): nat {
    if script == [] then 0 else (if script[0].Chunk? then 1 else 0) + Chunks(script[1..])
  }

  /**
   * A link without faults that is given time for the rest of the stream, even if it comes octet by
   * octet.
   */
  ghost predicate Reliable(stream: seq<byte>, s: LinkState) {
    s.position <= |stream| && !Faulty(s.script) && Chunks(s.script) >= |stream| - s.position
  }

  lemma UnfaultyTail(script: seq<Event>)
    requires script != [] && !Faulty(script)
    ensures !Faulty(script[1..]) && script[0] != Broken && script[0] != Chunk(0)
  {
    assert forall i :: 0 <= i < |script[1..]| ==> script[1..][i] == script[i + 1];
  }

  /** Over a reliable link a read of what the stream still holds succeeds, however it is cut up. */
  lemma {:induction false} PullSucceeds(stream: seq<byte>, s: LinkState, n: nat)
    requires Reliable(stream, s) && s.position + n <= |stream|
    ensures Pull(stream, s, n).ok && Reliable(stream, Pull(stream, s, n).state)
    decreases |s.script|
  {
    if n > 0 {
      UnfaultyTail(s.script);
      var after := s.(script := s.script[1..]);
      match s.script[0] {
        case Chunk(k) =>
          var count := Min(k, Min(n, |stream| - s.position));
          PullSucceeds(stream, after.(position := s.position + count), n - count);
        case Interrupted => PullSucceeds(stream, after, n);
        case Broken =>
      }
    }
  }

  lemma SectionSucceeds(stream: seq<byte>, s: LinkState, tag: byte, low: nat, high: nat)
    requires Reliable(stream, s) && SectionAt(stream, s.position, tag, low, high)
    ensures var p := PullSection(stream, s, tag, low, high); p.r.Got? && Reliable(stream, p.state)
  {
    PullSucceeds(stream, s, 3);
    PullSucceeds(stream, Pull(stream, s, 3).state, U16(stream, s.position + 1));
  }

  /** Over a reliable link every frame that stands in the stream is got. */
  lemma FrameSucceeds(stream: seq<byte>, s: LinkState)
    requires Reliable(stream, s) && ParseFrame(stream, s.position).FrameRead?
    ensures var p := PullFrame(stream, s);
            && p.r.Got? && Reliable(stream, p.state)
            && FrameRead(p.r.value, p.state.position) == ParseFrame(stream, s.position)
  {
    SectionSucceeds(stream, s, 1, 1, ENDPOINT_CAPACITY);
    SectionSucceeds(stream, PullSection(stream, s, 1, 1, ENDPOINT_CAPACITY).state, 2, 0, CAPACITY);
  }

  /** Why a read gives up: no time left, nothing left, or a fault. */
  ghost predicate Down(stream: seq<byte>, s: LinkState, after: LinkState) {
    after.script == [] || after.position == |stream| || Faulty(s.script)
  }

  lemma FaultyHead(script: seq<Event>)
    requires script != []
    ensures Faulty(script[1..]) || script[0] == Broken || script[0] == Chunk(0) ==> Faulty(script)
  {
    if Faulty(script[1..]) {
      var i :| 0 <= i < |script[1..]| && (script[1..][i] == Broken || script[1..][i] == Chunk(0));
      assert script[i + 1] == script[1..][i];
    }
  }

  lemma {:induction false} PullFails(stream: seq<byte>, s: LinkState, n: nat)
    requires s.position <= |stream|
    ensures var r := Pull(stream, s, n);
            (Faulty(r.state.script) ==> Faulty(s.script)) && (r.ok || Down(stream, s, r.state))
    decreases |s.script|
  {
    if n > 0 && s.script != [] {
      FaultyHead(s.script);
      var after := s.(script := s.script[1..]);
      match s.script[0] {
        case Chunk(k) =>
          var count := Min(k, Min(n, |stream| - s.position));
          if count > 0 {
            PullFails(stream, after.(position := s.position + count), n - count);
          }
        case Interrupted => PullFails(stream, after, n);
        case Broken =>
      }
    }
  }

  lemma SectionFails(stream: seq<byte>, s: LinkState, tag: byte, low: nat, high: nat)
    requires s.position <= |stream|
    ensures var p := PullSection(stream, s, tag, low, high);
            (Faulty(p.state.script) ==> Faulty(s.script)) && (p.r.LinkDown? ==> Down(stream, s, p.state))
  {
    PullFails(stream, s, 3);
    var header := Pull(stream, s, 3);
    if header.ok {
      PullFails(stream, header.state, U16(stream, s.position + 1));
    }
  }

  lemma FrameFails(stream: seq<byte>, s: LinkState)
    requires s.position <= |stream|
    ensures var p := PullFrame(stream, s);
            (Faulty(p.state.script) ==> Faulty(s.script)) && (p.r.LinkDown? ==> Down(stream, s, p.state))
  {
    SectionFails(stream, s, 1, 1, ENDPOINT_CAPACITY);
    SectionFails(stream, PullSection(stream, s, 1, 1, ENDPOINT_CAPACITY).state, 2, 0, CAPACITY);
  }

  /** The client's end of the link: all the octets the peer sends, and how they arrive. */
  class Link {
    const stream: seq<byte>
    var position: nat
    var script: seq<Event>
    var sent: seq<byte>

    ghost predicate Valid()
      reads this
    {
      position <= |stream|
    }

    ghost function Now(): LinkState
      reads this
    {
      LinkState(position, script)
    }

    /** `read_exact`: the same octets whatever pieces they come in. */
    method ReadExact(n: nat) returns (ok: bool, data: seq<byte>)
      requires Valid()
      modifies this`position, this`script
      ensures Valid() && Pulled(ok, Now()) == Pull(stream, old(Now()), n)
      ensures data == stream[old(position)..position]
    {
      ghost var start := Now();
      data := [];
      while |data| < n
        invariant Valid() && position == old(position) + |data| && |data| <= n
        invariant data == stream[old(position)..position]
        invariant Pull(stream, Now(), n - |data|) == Pull(stream, start, n)
        decreases |script|
      {
        if script == [] {
          return false, data;
        }
        var event := script[0];
        script := script[1..];
        match event {
          case Chunk(k) =>
            var left := if n - |data| < |stream| - position then n - |data| else |stream| - position;
            var count := if k < left then k else left;
            if count == 0 {
              return false, data;
            }
            data := data + stream[position..position + count];
            position := position + count;
          case Interrupted =>
          case Broken =>
            return false, data;
        }
      }
      ok := true;
    }

    /** `read_pserial_frame`. */
    method ReadFrame() returns (r: Received<Frame>)
      requires Valid()
      modifies this`position, this`script
      ensures Valid() && FramePull(r, Now()) == PullFrame(stream, old(Now()))
      ensures r.Got? ==> ParseFrame(stream, old(position)) == FrameRead(r.value, position)
      ensures r == BadFrame ==> ParseFrame(stream, old(position)) == NoFrame
      ensures old(Reliable(stream, Now())) && ParseFrame(stream, old(position)).FrameRead? ==>
                r.Got? && Reliable(stream, Now())
    {
      ghost var start := Now();
      if Reliable(stream, start) && ParseFrame(stream, start.position).FrameRead? {
        FrameSucceeds(stream, start);
      }
      var endpoint := ReadSection(1, 1, ENDPOINT_CAPACITY);
      if !endpoint.Got? {
        return if endpoint.BadFrame? then BadFrame else LinkDown;
      }
      var message := ReadSection(2, 0, CAPACITY);
      if !message.Got? {
        return if message.BadFrame? then BadFrame else LinkDown;
      }
      r := Got(Frame(endpoint.value, message.value));
    }

    /** The contents of one tagged, length-prefixed section. */
    method ReadSection(tag: byte, low: nat, high: nat) returns (r: Received<seq<byte>>)
      requires Valid()
      modifies this`position, this`script
      ensures Valid() && SectionPull(r, Now()) == PullSection(stream, old(Now()), tag, low, high)
    {
      ghost var start := position;
      var ok, header := ReadExact(3);
      if !ok {
        return LinkDown;
      }
      var length := U16(header, 1);
      assert header[0] == stream[start] && length == U16(stream, start + 1);
      if header[0] != tag || length < low || length > high {
        return BadFrame;
      }
      var bytes: seq<byte>;
      ok, bytes := ReadExact(length);
      if !ok {
        return LinkDown;
      }
      r := Got(bytes);
    }
  }

  // ---------------------------------------------------------------------------------------------
  // Walking over the fields of a message
  // ---------------------------------------------------------------------------------------------

  /** The last integer with a given number; 0 when there is none. */
  function LastUint(fs: seq<Field>, number: nat): nat {
    if fs == [] then 0
    else
      var f := fs[|fs| - 1];
      if f.Uint? && f.number == number then f.value else LastUint(fs[..|fs| - 1], number)
  }

  /** The last octet string with a given number. */
  function LastOctets(fs: seq<Field>, number: nat): Option<seq<byte>> {
    if fs == [] then None
    else
      var f := fs[|fs| - 1];
      if f.Octets? && f.number == number then Some(f.bytes) else LastOctets(fs[..|fs| - 1], number)
  }

  /** All octet strings with a given number, joined. */
  function Payload(fs: seq<Field>, number: nat): seq<byte> {
    if fs == [] then []
    else
      var f := fs[|fs| - 1];
      Payload(fs[..|fs| - 1], number) + if f.Octets? && f.number == number then f.bytes else []
  }

  lemma FoldStep(fs: seq<Field>, f: Field, number: nat)
    ensures LastUint(fs + [f], number) == if f.Uint? && f.number == number then f.value else LastUint(fs, number)
    ensures LastOctets(fs + [f], number)
            == if f.Octets? && f.number == number then Some(f.bytes) else LastOctets(fs, number)
    ensures Payload(fs + [f], number)
            == Payload(fs, number) + if f.Octets? && f.number == number then f.bytes else []
  {
  }

  function Prefixed(done: seq<Field>, rest: Option<seq<Field>>): Option<seq<Field>> {
    match rest
    case None => None
    case Some(fs) => Some(done + fs)
  }

  /** A field loop that has passed the fields `done` and stands at `offset`. */
  ghost predicate Walk(s: seq<byte>, offset: nat, done: seq<Field>) {
    offset <= |s| && Fields(s, 0) == Prefixed(done, Fields(s, offset))
  }

  lemma WalkStart(s: seq<byte>)
    ensures Walk(s, 0, [])
  {
    assert Fields(s, 0).Some? ==> [] + Fields(s, 0).value == Fields(s, 0).value;
  }

  lemma WalkStep(s: seq<byte>, offset: nat, done: seq<Field>, next: FieldRead)
    requires Walk(s, offset, done) && offset < |s| && next == NextField(s, offset)
    ensures match next
            case MalformedField => Fields(s, 0) == None
            case FieldRead(f, end) => Walk(s, end, done + [f])
  {
    if next.FieldRead? && Fields(s, next.end).Some? {
      var rest := Fields(s, next.end).value;
      assert done + ([next.field] + rest) == done + [next.field] + rest;
    }
  }

  lemma WalkEnd(s: seq<byte>, done: seq<Field>)
    requires Walk(s, |s|, done)
    ensures Fields(s, 0) == Some(done)
  {
    assert done + [] == done;
  }

  lemma ReadableStep(s: seq<byte>, offset: nat, done: seq<Field>, next: FieldRead)
    requires offset < |s| && next == NextField(s, offset) && Readable(s, 0) == done + Readable(s, offset)
    ensures match next
            case MalformedField => Readable(s, 0) == done
            case FieldRead(f, end) => Readable(s, 0) == done + [f] + Readable(s, end)
  {
    if next.FieldRead? {
      var rest := Readable(s, next.end);
      assert done + ([next.field] + rest) == done + [next.field] + rest;
    } else {
      assert done + [] == done;
    }
  }

  // ---------------------------------------------------------------------------------------------
  // Station events
  // ---------------------------------------------------------------------------------------------

  /** The disconnect record of a message: absent when it is no such event, or it is malformed. */
  datatype Notice = Ignored | Refused | Notice(record: seq<byte>)

  function NoticeOf(message: seq<byte>): Notice {
    match Fields(message, 0)
    case None => Refused
    case Some(fs) =>
      if LastUint(fs, 1) != TYPE_EVENT || LastUint(fs, 2) != STA_DISCONNECTED then Ignored
      else
        match LastOctets(fs, STA_DISCONNECTED)
        case None => Refused
        case Some(event) =>
          match Fields(event, 0)
          case None => Refused
          case Some(gs) =>
            match LastOctets(gs, 2)
            case None => Refused
            case Some(record) => Notice(record)
  }

  predicate EventAccepted(message: seq<byte>) {
    match NoticeOf(message)
    case Ignored => true
    case Refused => false
    case Notice(record) => Fields(record, 0).Some?
  }

  datatype Disconnect = Disconnect(seen: bool, reason: nat, rssi: int)

  /** A 32-bit pattern as a signed number. */
  function Signed32(v: nat): int {
    var w := v % TWO_32;
    if w < TWO_32 / 2 then w else w - TWO_32
  }

  function DisconnectOf(fs: seq<Field>): Disconnect {
    Disconnect(true, LastUint(fs, 4) % TWO_32, Signed32(LastUint(fs, 5)))
  }

  /** What is kept of a disconnect record: the fields before the first malformed one count. */
  function Recorded(record: seq<byte>): Disconnect {
    DisconnectOf(Readable(record, 0))
  }

  /** A disconnect event as a peer sends it: the record's fields, wrapped twice. */
  function EventMessage(record: seq<Field>): seq<byte> {
    Encode(EventFields(Encode(WrappedFields(Encode(record)))))
  }

  function WrappedFields(record: seq<byte>): seq<Field> {
    [Octets(2, record)]
  }

  function EventFields(event: seq<byte>): seq<Field> {
    [Uint(1, TYPE_EVENT), Uint(2, STA_DISCONNECTED), Octets(STA_DISCONNECTED, event)]
  }

  /** A signed number as it is sent: its 64-bit pattern. */
  function Pattern64(v: int): nat
    requires -TWO_64 <= v
  {
    if v < 0 then v + TWO_64 else v
  }

  lemma DisconnectFound(fs: seq<Field>, reason: nat, rssi: int)
    requires reason < TWO_32 && -TWO_32 / 2 <= rssi < TWO_32 / 2
    requires LastUint(fs, 4) == reason && LastUint(fs, 5) == Pattern64(rssi)
    ensures DisconnectOf(fs) == Disconnect(true, reason, rssi)
  {
  }

  /** Whatever reason and signal strength a peer sends, zero and negative included, are recorded. */
  lemma DisconnectReadBack(reason: nat, rssi: int, record: seq<Field>)
    requires reason < TWO_32 && -TWO_32 / 2 <= rssi < TWO_32 / 2
    requires |record| == 2 && record[0] == Uint(4, reason) && record[1] == Uint(5, Pattern64(rssi))
    ensures EventAccepted(EventMessage(record)) && NoticeOf(EventMessage(record)) == Notice(Encode(record))
    ensures Recorded(Encode(record)) == Disconnect(true, reason, rssi)
  {
    RecordShort(record[0], record[1], record);
    RecordReadBack(record);
    RecordKept(record[0], record[1], record);
    DisconnectFound(Kept(record), reason, rssi);
  }

  /** A record of any fields is accepted and counts as if its zero integers were not there. */
  lemma RecordReadBack(record: seq<Field>)
    requires |Encode(record)| < TWO_32 && forall k :: 0 <= k < |record| ==> Encodable(record[k])
    ensures EventAccepted(EventMessage(record)) && NoticeOf(EventMessage(record)) == Notice(Encode(record))
    ensures Recorded(Encode(record)) == DisconnectOf(Kept(record))
  {
    var bytes := Encode(record);
    var event := Encode(WrappedFields(bytes));
    WrappedReadBack(bytes, WrappedFields(bytes));
    EventReadBack(event, EventFields(event));
    NoticeFound(EventMessage(record), event, bytes);
    RoundTrip(record);
    ReadableAll(bytes, 0);
  }

  lemma RecordShort(a: Field, b: Field, record: seq<Field>)
    requires a.Uint? && b.Uint? && a.number < 16 && b.number < 16 && Encodable(a) && Encodable(b) && record == [a, b]
    ensures |Encode(record)| <= 22
  {
    VarintShort(a.value);
    VarintShort(b.value);
    EncodeCons(a, [b]);
    EncodeCons(b, []);
    assert record == [a] + [b] && [b] == [b] + [];
  }

  lemma VarintShort(v: nat)
    requires v < TWO_64
    ensures |Varint(v)| <= 10
  {
    var s := Varint(v);
    assert s[0..0 + |s|] == s;
    VarintRoundTrip(v, s, 0, 10);
    VarintMeaning(s, 0, 10);
  }

  lemma RecordKept(a: Field, b: Field, record: seq<Field>)
    requires a.Uint? && b.Uint? && a.number != b.number && record == [a, b]
    ensures LastUint(Kept(record), a.number) == a.value && LastUint(Kept(record), b.number) == b.value
  {
    assert record[1..] == [b] && [b][1..] == [];
    assert Kept([b]) == KeptBefore(b, []) && Kept(record) == KeptBefore(a, Kept([b]));
    assert [b] + [] == [b] && [a] + [] == [a] && [a] + [b] == [a, b];
    assert [a, b][..1] == [a] && [a][..0] == [];
  }

  lemma WrappedReadBack(bytes: seq<byte>, fs: seq<Field>)
    requires |bytes| < TWO_32 && fs == WrappedFields(bytes)
    ensures Fields(Encode(fs), 0) == Some(fs) && |Encode(fs)| <= 11 + |bytes|
  {
    RoundTrip(fs);
    NothingDropped(fs);
    VarintShort(|bytes|);
    EncodeCons(fs[0], []);
    assert fs == [fs[0]] + [];
  }

  lemma EventReadBack(event: seq<byte>, fs: seq<Field>)
    requires |event| < TWO_64 && fs == EventFields(event)
    ensures Fields(Encode(fs), 0) == Some(fs)
  {
    RoundTrip(fs);
    NothingDropped(fs);
  }

  lemma NoticeFound(message: seq<byte>, event: seq<byte>, record: seq<byte>)
    requires Fields(message, 0) == Some(EventFields(event)) && Fields(event, 0) == Some(WrappedFields(record))
    ensures NoticeOf(message) == Notice(record)
  {
    var fs := EventFields(event);
    ThreeFolds(fs[0], fs[1], fs[2], 1);
    ThreeFolds(fs[0], fs[1], fs[2], 2);
    ThreeFolds(fs[0], fs[1], fs[2], STA_DISCONNECTED);
  }

  datatype Heading = BadHeading | Heading(kind: nat, id: nat, event: Option<seq<byte>>)

  method ReadHeading(s: seq<byte>) returns (r: Heading)
    ensures r == match Fields(s, 0)
                 case None => BadHeading
                 case Some(fs) => Heading(LastUint(fs, 1), LastUint(fs, 2), LastOctets(fs, STA_DISCONNECTED))
  {
    var offset, kind, id, event := 0, 0, 0, None;
    ghost var done := [];
    WalkStart(s);
    while offset < |s|
      invariant Walk(s, offset, done)
      invariant kind == LastUint(done, 1) && id == LastUint(done, 2) && event == LastOctets(done, STA_DISCONNECTED)
    {
      var next := PbNext(s, offset);
      WalkStep(s, offset, done, next);
      if next.MalformedField? {
        return BadHeading;
      }
      var f := next.field;
      FoldStep(done, f, 1);
      FoldStep(done, f, 2);
      FoldStep(done, f, STA_DISCONNECTED);
      if f.number == 1 && f.Uint? {
        kind := f.value;
      } else if f.number == 2 && f.Uint? {
        id := f.value;
      } else if f.number == STA_DISCONNECTED && f.Octets? {
        event := Some(f.bytes);
      }
      done, offset := done + [f], next.end;
    }
    WalkEnd(s, done);
    r := Heading(kind, id, event);
  }

  method ReadRecord(s: seq<byte>) returns (r: Option<seq<byte>>)
    ensures r == match Fields(s, 0) case None => None case Some(fs) => LastOctets(fs, 2)
  {
    var offset := 0;
    ghost var done := [];
    r := None;
    WalkStart(s);
    while offset < |s|
      invariant Walk(s, offset, done) && r == LastOctets(done, 2)
    {
      var next := PbNext(s, offset);
      WalkStep(s, offset, done, next);
      if next.MalformedField? {
        return None;
      }
      FoldStep(done, next.field, 2);
      if next.field.number == 2 && next.field.Octets? {
        r := Some(next.field.bytes);
      }
      done, offset := done + [next.field], next.end;
    }
    WalkEnd(s, done);
  }

  // ---------------------------------------------------------------------------------------------
  // Responses
  // ---------------------------------------------------------------------------------------------

  datatype Answer = BadAnswer | Answer(kind: nat, id: nat, uid: nat, payload: bool)

  /** The identity of a response as its fields give it; absent integers count as 0. */
  function AnswerOf(message: seq<byte>, id: nat): Answer {
    match Fields(message, 0)
    case None => BadAnswer
    case Some(fs) =>
      Answer(LastUint(fs, 1), LastUint(fs, 2), LastUint(fs, 3), LastOctets(fs, id).Some?)
  }

  function PayloadOf(message: seq<byte>, id: nat): seq<byte> {
    match Fields(message, 0)
    case None => []
    case Some(fs) => Payload(fs, id)
  }

  /** One response message, its payload collected into a cleared buffer that always has room. */
  method ReadAnswer(s: seq<byte>, id: nat, response: Buffer) returns (r: Answer)
    requires response.Valid() && |s| <= CAPACITY
    modifies response`length, response.data
    ensures response.Valid()
    ensures r == AnswerOf(s, id)
    ensures r.Answer? ==> response.Contents() == PayloadOf(s, id)
  {
    response.length := 0;
    var offset, kind, messageId, uid, payload := 0, 0, 0, 0, false;
    ghost var done := [];
    WalkStart(s);
    while offset < |s|
      invariant response.Valid() && response.length <= offset
      invariant Walk(s, offset, done) && response.Contents() == Payload(done, id)
      invariant kind == LastUint(done, 1) && messageId == LastUint(done, 2) && uid == LastUint(done, 3)
      invariant payload == LastOctets(done, id).Some?
    {
      var next := PbNext(s, offset);
      WalkStep(s, offset, done, next);
      if next.MalformedField? {
        return BadAnswer;
      }
      var f := next.field;
      FoldStep(done, f, 1);
      FoldStep(done, f, 2);
      FoldStep(done, f, 3);
      FoldStep(done, f, id);
      if f.number == 1 && f.Uint? {
        kind := f.value;
      } else if f.number == 2 && f.Uint? {
        messageId := f.value;
      } else if f.number == 3 && f.Uint? {
        uid := f.value;
      } else if f.number == id && f.Octets? {
        payload := true;
        var room := response.Append(f.bytes);
        assert room;
      }
      done, offset := done + [f], next.end;
    }
    WalkEnd(s, done);
    r := Answer(kind, messageId, uid, payload);
  }

  // ---------------------------------------------------------------------------------------------
  // Requests
  // ---------------------------------------------------------------------------------------------

  function RequestFields(id: nat, uid: nat, payload: seq<byte>): seq<Field> {
    [Uint(1, TYPE_REQUEST), Uint(2, id), Uint(3, uid), Octets(id, payload)]
  }

  function RequestFrame(id: nat, uid: nat, payload: seq<byte>): Frame {
    Frame(RPC_RSP, Encode(RequestFields(id, uid, payload)))
  }

  lemma EncodeCons(f: Field, rest: seq<Field>)
    ensures Encode([f] + rest) == EncodeField(f) + Encode(rest)
  {
  }

  lemma JoinFour(w: seq<byte>, x: seq<byte>, y: seq<byte>, z: seq<byte>)
    ensures w + (x + (y + z)) == w + x + y + z
  {
  }

  lemma EncodeFour(a: Field, b: Field, c: Field, d: Field)
    ensures Encode([a, b, c, d]) == EncodeField(a) + EncodeField(b) + EncodeField(c) + EncodeField(d)
  {
    EncodeCons(a, [b, c, d]);
    EncodeCons(b, [c, d]);
    EncodeCons(c, [d]);
    EncodeCons(d, []);
    assert [a, b, c, d] == [a] + [b, c, d] && [b, c, d] == [b] + [c, d] && [c, d] == [c] + [d] && [d] == [d] + [];
    assert EncodeField(d) + [] == EncodeField(d);
    JoinFour(EncodeField(a), EncodeField(b), EncodeField(c), EncodeField(d));
  }

  /** One more attempt to append after those before it. */
  lemma AppendedNext(before: seq<byte>, mid: seq<byte>, after: seq<byte>, was: bool, ok: bool,
                     first: seq<byte>, second: seq<byte>)
    requires Appended(before, mid, was, first)
    requires if was then Appended(mid, after, ok, second) else !ok && after == mid
    ensures Appended(before, after, ok, first + second)
  {
  }

  /** The protobuf part of a request. */
  method BuildMessage(id: nat, uid: nat, payload: seq<byte>) returns (ok: bool, message: seq<byte>)
    ensures ok == (|Encode(RequestFields(id, uid, payload))| <= CAPACITY)
    ensures ok ==> message == Encode(RequestFields(id, uid, payload))
  {
    ghost var fs := RequestFields(id, uid, payload);
    ghost var a, b, c, d := EncodeField(fs[0]), EncodeField(fs[1]), EncodeField(fs[2]), EncodeField(fs[3]);
    EncodeFour(fs[0], fs[1], fs[2], fs[3]);
    var buffer := new Buffer();
    ok := buffer.PutUint(1, TYPE_REQUEST);
    ghost var mid, was := buffer.Contents(), ok;
    if ok {
      ok := buffer.PutUint(2, id);
    }
    AppendedNext([], mid, buffer.Contents(), was, ok, a, b);
    mid, was := buffer.Contents(), ok;
    if ok {
      ok := buffer.PutUint(3, uid);
    }
    AppendedNext([], mid, buffer.Contents(), was, ok, a + b, c);
    mid, was := buffer.Contents(), ok;
    if ok {
      ok := buffer.PutOctets(id, payload);
    }
    AppendedNext([], mid, buffer.Contents(), was, ok, a + b + c, d);
    message := buffer.Contents();
  }

  method PutSection(buffer: Buffer, tag: byte, bytes: seq<byte>) returns (ok: bool)
    requires buffer.Valid()
    modifies buffer`length, buffer.data
    ensures buffer.Valid() && Appended(old(buffer.Contents()), buffer.Contents(), ok, Section(tag, bytes))
  {
    ghost var before := buffer.Contents();
    ok := buffer.Append([tag]);
    ghost var mid, was := buffer.Contents(), ok;
    if ok {
      ok := buffer.Append(Le16(|bytes|));
    }
    AppendedNext(before, mid, buffer.Contents(), was, ok, [tag], Le16(|bytes|));
    mid, was := buffer.Contents(), ok;
    if ok {
      ok := buffer.Append(bytes);
    }
    AppendedNext(before, mid, buffer.Contents(), was, ok, [tag] + Le16(|bytes|), bytes);
  }

  /** The request as it goes out, when it fits the client's buffers. */
  method BuildRequest(id: nat, uid: nat, payload: seq<byte>) returns (ok: bool, bytes: seq<byte>)
    ensures ok == (|EncodeFrame(RequestFrame(id, uid, payload))| <= CAPACITY)
    ensures ok ==> bytes == EncodeFrame(RequestFrame(id, uid, payload))
  {
    var message: seq<byte>;
    ok, message := BuildMessage(id, uid, payload);
    if !ok {
      return false, [];
    }
    var buffer := new Buffer();
    ok := PutSection(buffer, 1, RPC_RSP);
    ghost var mid, was := buffer.Contents(), ok;
    if ok {
      ok := PutSection(buffer, 2, message);
    }
    AppendedNext([], mid, buffer.Contents(), was, ok, Section(1, RPC_RSP), Section(2, message));
    bytes := buffer.Contents();
  }

  /** What a peer finds in a request: its fields, of which a call number of 0 is left out. */
  function SentFields(id: nat, uid: nat, payload: seq<byte>): seq<Field> {
    var fs := RequestFields(id, uid, payload);
    if uid == 0 then fs[..2] + fs[3..] else fs
  }

  /** A peer that reads what was sent finds the request again. */
  lemma RequestReadBack(id: nat, uid: nat, payload: seq<byte>, s: seq<byte>, at: nat)
    requires 0 < id < TWO_32 && uid < TWO_32
    requires |EncodeFrame(RequestFrame(id, uid, payload))| <= CAPACITY
    requires At(s, at, EncodeFrame(RequestFrame(id, uid, payload)))
    ensures var r := ParseFrame(s, at);
            && r.FrameRead? && r.frame.endpoint == RPC_RSP
            && Fields(r.frame.message, 0) == Some(SentFields(id, uid, payload))
  {
    var fs := RequestFields(id, uid, payload);
    FrameRoundTrip(RequestFrame(id, uid, payload), s, at);
    EncodeFour(fs[0], fs[1], fs[2], fs[3]);
    RoundTrip(fs);
    RequestKept(id, uid, payload, fs);
  }

  lemma RequestKept(id: nat, uid: nat, payload: seq<byte>, fs: seq<Field>)
    requires id > 0 && fs == RequestFields(id, uid, payload)
    ensures Kept(fs) == SentFields(id, uid, payload)
  {
    KeptParts(fs[..2], fs[2..]);
    KeptParts(fs[2..3], fs[3..]);
    assert fs == fs[..2] + fs[2..] && fs[2..] == fs[2..3] + fs[3..];
    NothingDropped(fs[..2]);
    NothingDropped(fs[3..]);
    assert Kept(fs[2..3]) == KeptBefore(fs[2], []);
  }

  lemma {:induction false} KeptParts(a: seq<Field>, b: seq<Field>)
    ensures Kept(a + b) == Kept(a) + Kept(b)
  {
    if a == [] {
      assert a + b == b;
    } else {
      KeptParts(a[1..], b);
      assert (a + b)[1..] == a[1..] + b;
    }
  }

  lemma {:induction false} NothingDropped(fs: seq<Field>)
    requires forall k :: 0 <= k < |fs| && fs[k].Uint? ==> fs[k].value > 0
    ensures Kept(fs) == fs
  {
    if fs != [] {
      NothingDropped(fs[1..]);
      assert [fs[0]] + fs[1..] == fs;
    }
  }

  // ---------------------------------------------------------------------------------------------
  // The exchange
  // ---------------------------------------------------------------------------------------------

  /** Whether a frame is the response to the request numbered `uid`. */
  predicate Matches(f: Frame, id: nat, uid: nat) {
    && f.endpoint == RPC_RSP
    && var answer := AnswerOf(f.message, id);
       answer.Answer? && answer.kind == TYPE_RESPONSE && answer.id == id && answer.uid == uid
  }

  /** Whether the client passes over a frame while it waits for that response. */
  predicate Skipped(f: Frame, id: nat, uid: nat) {
    if f.endpoint == RPC_EVT then EventAccepted(f.message)
    else if f.endpoint == RPC_RSP then AnswerOf(f.message, id).Answer? && !Matches(f, id, uid)
    else true
  }

  datatype Outcome = Answered | TooLarge | WriteFailed | LinkLost | BadStream | BadEvent | BadResponse | NoPayload

  /** What the client may report on a frame it does not pass over. */
  ghost predicate Stops(r: Outcome, f: Frame, id: nat, uid: nat, payload: seq<byte>) {
    match r
    case Answered =>
      Matches(f, id, uid) && AnswerOf(f.message, id).payload && payload == PayloadOf(f.message, id)
    case NoPayload => Matches(f, id, uid) && !AnswerOf(f.message, id).payload
    case BadResponse => f.endpoint == RPC_RSP && AnswerOf(f.message, id) == BadAnswer
    case BadEvent => f.endpoint == RPC_EVT && !EventAccepted(f.message)
    case _ => false
  }

  /** What it does report. */
  function Verdict(f: Frame, id: nat): Outcome {
    if f.endpoint == RPC_EVT then BadEvent
    else
      match AnswerOf(f.message, id)
      case BadAnswer => BadResponse
      case Answer(_, _, _, payload) => if payload then Answered else NoPayload
  }

  /** What each kind of frame does to a waiting client, malformed ones included. */
  lemma FrameFates(f: Frame, id: nat, uid: nat)
    ensures f.endpoint != RPC_EVT && f.endpoint != RPC_RSP ==> Skipped(f, id, uid)
    ensures Fields(f.message, 0).None? && f.endpoint == RPC_EVT ==> !Skipped(f, id, uid) && Verdict(f, id) == BadEvent
    ensures Fields(f.message, 0).None? && f.endpoint == RPC_RSP ==>
              !Skipped(f, id, uid) && Verdict(f, id) == BadResponse
    ensures f.endpoint == RPC_EVT && Fields(f.message, 0).Some? ==>
              var fs := Fields(f.message, 0).value;
              LastUint(fs, 1) != 3 || LastUint(fs, 2) != 776 ==> Skipped(f, id, uid)
    ensures f.endpoint == RPC_RSP && Fields(f.message, 0).Some? && LastUint(Fields(f.message, 0).value, 3) != uid ==>
              Skipped(f, id, uid)
  {
  }

  /** An exchange stops at exactly the frames it does not pass over, with that verdict. */
  lemma StopsVerdict(r: Outcome, f: Frame, id: nat, uid: nat, payload: seq<byte>)
    ensures Stops(r, f, id, uid, payload)
            <==> && !Skipped(f, id, uid) && r == Verdict(f, id)
                 && (r == Answered ==> payload == PayloadOf(f.message, id))
  {
  }

  /** An outcome, the number of frames passed over, and where the link is left. */
  datatype Heard = Heard(outcome: Outcome, k: nat, state: LinkState)

  /** The receiving half of an exchange, read by read. */
  function Listen(stream: seq<byte>, s: LinkState, id: nat, uid: nat): (h: Heard)
    requires s.position <= |stream|
    ensures s.position <= h.state.position <= |stream|
    decreases |stream| - s.position
  {
    var p := PullFrame(stream, s);
    match p.r
    case LinkDown => Heard(LinkLost, 0, p.state)
    case BadFrame => Heard(BadStream, 0, p.state)
    case Got(f) =>
      if Skipped(f, id, uid) then
        var later := Listen(stream, p.state, id, uid);
        later.(k := later.k + 1)
      else Heard(Verdict(f, id), 0, p.state)
  }

  /** How many frames are passed over, the pieces they come in left aside. */
  function PassedOver(frames: seq<Frame>, id: nat, uid: nat): (k: nat)
    ensures k <= |frames|
  {
    if frames == [] || !Skipped(frames[0], id, uid) then 0 else 1 + PassedOver(frames[1..], id, uid)
  }

  /** What came of it: the verdict on the first frame not passed over. */
  ghost predicate Recovered(stream: seq<byte>, frames: seq<Frame>, h: Heard, id: nat, uid: nat) {
    && h.k == PassedOver(frames, id, uid) && h.state.position <= |stream|
    && (if h.k < |frames| then
          && h.outcome == Verdict(frames[h.k], id)
          && Frames(stream, h.state.position) == frames[h.k + 1..] && Reliable(stream, h.state)
        else h.outcome == LinkLost || h.outcome == BadStream)
  }

  /**
   * Over a reliable link, whatever the pieces, an exchange ends with the first frame it does not
   * pass over; it is lost only if there is none.
   */
  lemma {:induction false} ListenReliable(stream: seq<byte>, s: LinkState, id: nat, uid: nat)
    requires Reliable(stream, s)
    ensures Recovered(stream, Frames(stream, s.position), Listen(stream, s, id, uid), id, uid)
    decreases |stream| - s.position
  {
    var frames, p := Frames(stream, s.position), PullFrame(stream, s);
    if ParseFrame(stream, s.position).FrameRead? {
      FrameSucceeds(stream, s);
      assert frames[0] == p.r.value && frames[1..] == Frames(stream, p.state.position);
      if Skipped(frames[0], id, uid) {
        ListenReliable(stream, p.state, id, uid);
      }
    }
  }

  /** A lost link is out of time, at the end of the stream, or at fault. */
  lemma {:induction false} ListenFails(stream: seq<byte>, s: LinkState, id: nat, uid: nat)
    requires s.position <= |stream|
    ensures var h := Listen(stream, s, id, uid); h.outcome == LinkLost ==> Down(stream, s, h.state)
    decreases |stream| - s.position
  {
    var p := PullFrame(stream, s);
    FrameFails(stream, s);
    if p.r.Got? && Skipped(p.r.value, id, uid) {
      ListenFails(stream, p.state, id, uid);
    }
  }

  /** What an exchange that stopped after `k` frames may report, and with what in its buffer. */
  ghost predicate Explained(r: Outcome, frames: seq<Frame>, k: nat, id: nat, uid: nat, payload: seq<byte>) {
    && k <= |frames| && (forall i :: 0 <= i < k ==> Skipped(frames[i], id, uid))
    && (r in {Answered, NoPayload, BadResponse, BadEvent} ==> k < |frames| && Stops(r, frames[k], id, uid, payload))
    && (r == BadStream ==> k == |frames|)
  }

  /** The number of the `n`th call of a client. */
  function Uid(n: nat): nat {
    (n + 1) % TWO_32
  }

  /** An exchange that took frame `k` of those after `from`: where it stood, and that reading goes on after it. */
  ghost predicate Took(stream: seq<byte>, from: nat, frames: seq<Frame>, k: nat, at: nat, end: nat) {
    && k < |frames| && from <= at < end <= |stream|
    && ParseFrame(stream, at) == FrameRead(frames[k], end) && Frames(stream, end) == frames[k + 1..]
  }

  /** Whether an outcome was decided by a frame. */
  predicate Decided(r: Outcome) {
    r == Answered || r == NoPayload || r == BadResponse || r == BadEvent
  }

  /** One call: the response it waited for, its outcome, the stretch of the stream it read, what answered it. */
  datatype Call = Call(id: nat, outcome: Outcome, start: nat, end: nat, answer: Option<Frame>)

  /** Call `n` read on from where it started; an answer stands at the end of that and carries number `n`. */
  ghost predicate CallGood(stream: seq<byte>, c: Call, n: nat) {
    && c.start <= c.end <= |stream|
    && (c.outcome == Answered ==>
          && c.answer.Some? && Matches(c.answer.value, c.id, Uid(n))
          && exists at :: c.start <= at < c.end && ParseFrame(stream, at) == FrameRead(c.answer.value, c.end))
  }

  ghost predicate LogGood(stream: seq<byte>, log: seq<Call>) {
    && (forall n :: 0 <= n < |log| ==> CallGood(stream, log[n], n))
    && forall m, n :: 0 <= m < n < |log| ==> log[m].end <= log[n].start
  }

  /** A request as a command makes it, and whether the link takes it. */
  datatype Request = Request(id: nat, payload: seq<byte>, writes: bool)

  function ResponseId(id: nat): nat {
    (id + RESPONSE_OFFSET) % TWO_32
  }

  /** Whether a request fits the client's buffers. */
  predicate FitsOut(q: Request, uid: nat) {
    |EncodeFrame(RequestFrame(q.id, uid, q.payload))| <= CAPACITY
  }

  /** One whole exchange. */
  function Exchanged(stream: seq<byte>, s: LinkState, q: Request, uid: nat): (h: Heard)
    requires s.position <= |stream|
    ensures s.position <= h.state.position <= |stream|
  {
    if !FitsOut(q, uid) then Heard(TooLarge, 0, s)
    else if !q.writes then Heard(WriteFailed, 0, s)
    else Listen(stream, s, ResponseId(q.id), uid)
  }

  lemma ExchangedMeaning(stream: seq<byte>, s: LinkState, q: Request, uid: nat)
    requires s.position <= |stream|
    ensures var h := Exchanged(stream, s, q, uid);
            && (h.outcome == LinkLost ==> Down(stream, s, h.state))
            && (FitsOut(q, uid) && q.writes && Reliable(stream, s) ==>
                  Recovered(stream, Frames(stream, s.position), h, ResponseId(q.id), uid))
  {
    ListenFails(stream, s, ResponseId(q.id), uid);
    if Reliable(stream, s) {
      ListenReliable(stream, s, ResponseId(q.id), uid);
    }
  }

  /** How many requests, from call `n` on, are answered before one is not. */
  function Answers(stream: seq<byte>, s: LinkState, requests: seq<Request>, n: nat): (done: nat)
    requires s.position <= |stream|
    ensures done <= |requests|
    decreases |requests|
  {
    if requests == [] then 0
    else
      var h := Exchanged(stream, s, requests[0], Uid(n));
      if h.outcome != Answered then 0 else 1 + Answers(stream, h.state, requests[1..], n + 1)
  }

  /** Whether the first of the peer's frames that a request does not pass over answers it. */
  predicate Serves(frames: seq<Frame>, q: Request, uid: nat) {
    && FitsOut(q, uid) && q.writes
    && var k := PassedOver(frames, ResponseId(q.id), uid);
       k < |frames| && Verdict(frames[k], ResponseId(q.id)) == Answered
  }

  /** How many requests are answered, reckoned on the peer's frames alone. */
  function Served(frames: seq<Frame>, requests: seq<Request>, n: nat): nat
    decreases |requests|
  {
    if requests == [] || !Serves(frames, requests[0], Uid(n)) then 0
    else
      var k := PassedOver(frames, ResponseId(requests[0].id), Uid(n));
      1 + Served(frames[k + 1..], requests[1..], n + 1)
  }

  lemma ServesOne(stream: seq<byte>, s: LinkState, q: Request, uid: nat)
    requires Reliable(stream, s)
    ensures var h, frames := Exchanged(stream, s, q, uid), Frames(stream, s.position);
            && (h.outcome == Answered <==> Serves(frames, q, uid))
            && (h.outcome == Answered ==>
                  && Reliable(stream, h.state)
                  && Frames(stream, h.state.position) == frames[PassedOver(frames, ResponseId(q.id), uid) + 1..])
  {
    ExchangedMeaning(stream, s, q, uid);
  }

  /** Over a reliable link a session goes as the peer's frames have it, whatever pieces they come in. */
  lemma {:induction false} AnswersServed(stream: seq<byte>, s: LinkState, requests: seq<Request>, n: nat)
    requires Reliable(stream, s)
    ensures Answers(stream, s, requests, n) == Served(Frames(stream, s.position), requests, n)
    decreases |requests|
  {
    if requests != [] {
      var h := Exchanged(stream, s, requests[0], Uid(n));
      ServesOne(stream, s, requests[0], Uid(n));
      if h.outcome == Answered {
        AnswersServed(stream, h.state, requests[1..], n + 1);
      }
    }
  }

  /** In particular with any frames the peer sends, for every splitting of them into reads. */
  lemma SessionFollowsPeer(before: seq<byte>, frames: seq<Frame>, script: seq<Event>, requests: seq<Request>, n: nat)
    requires forall k :: 0 <= k < |frames| ==> Legal(frames[k])
    requires !Faulty(script) && Chunks(script) >= |EncodeFrames(frames)|
    ensures Answers(before + EncodeFrames(frames), LinkState(|before|, script), requests, n)
            == Served(frames, requests, n)
  {
    var stream := before + EncodeFrames(frames);
    FramesRoundTrip(frames, stream, |before|);
    AnswersServed(stream, LinkState(|before|, script), requests, n);
  }

  class Client {
    const link: Link
    var nextUid: nat
    var disconnect: Disconnect
    /** Every call so far. */
    ghost var log: seq<Call>

    ghost predicate Valid()
      reads this, link
    {
      && link.Valid() && nextUid == Uid(|log|) && LogGood(link.stream, log)
      && (log != [] ==> log[|log| - 1].end <= link.position)
    }

    constructor (link: Link)
      requires link.Valid()
      ensures Valid() && this.link == link && log == []
    {
      this.link := link;
      nextUid, log, disconnect := 1, [], Disconnect(false, 0, 0);
    }

    /** `record_station_event`; a record that turns out malformed is kept up to there. */
    method RecordStationEvent(message: seq<byte>) returns (ok: bool)
      modifies this`disconnect
      ensures ok == EventAccepted(message)
      ensures disconnect == if NoticeOf(message).Notice? then Recorded(NoticeOf(message).record) else old(disconnect)
      ensures ok && NoticeOf(message).Notice? ==>
                disconnect == DisconnectOf(Fields(NoticeOf(message).record, 0).value)
    {
      var heading := ReadHeading(message);
      if heading.BadHeading? {
        return false;
      }
      if heading.kind != TYPE_EVENT || heading.id != STA_DISCONNECTED {
        return true;
      }
      if heading.event.None? {
        return false;
      }
      var record := ReadRecord(heading.event.value);
      if record.None? {
        return false;
      }
      ok := RecordDisconnect(record.value);
      if ok {
        ReadableAll(record.value, 0);
      }
    }

    method RecordDisconnect(s: seq<byte>) returns (ok: bool)
      modifies this`disconnect
      ensures ok == Fields(s, 0).Some? && disconnect == Recorded(s)
    {
      disconnect := Disconnect(true, 0, 0);
      var offset := 0;
      ghost var done := [];
      WalkStart(s);
      while offset < |s|
        invariant Walk(s, offset, done) && Readable(s, 0) == done + Readable(s, offset)
        invariant disconnect == DisconnectOf(done)
      {
        var next := PbNext(s, offset);
        WalkStep(s, offset, done, next);
        ReadableStep(s, offset, done, next);
        if next.MalformedField? {
          return false;
        }
        var f := next.field;
        FoldStep(done, f, 4);
        FoldStep(done, f, 5);
        if f.number == 4 && f.Uint? {
          disconnect := disconnect.(reason := f.value % TWO_32);
        } else if f.number == 5 && f.Uint? {
          disconnect := disconnect.(rssi := Signed32(f.value));
        }
        done, offset := done + [f], next.end;
      }
      WalkEnd(s, done);
      assert done + [] == done;
      ok := true;
    }

    /** Writing may fail after any part of the request. */
    method WriteAll(bytes: seq<byte>, ok: bool)
      modifies link`sent
      ensures ok ==> link.sent == old(link.sent) + bytes
      ensures exists n :: 0 <= n <= |bytes| && link.sent == old(link.sent) + bytes[..n]
    {
      var n :| 0 <= n <= |bytes| && (ok ==> n == |bytes|);
      assert bytes[..|bytes|] == bytes;
      link.sent := link.sent + bytes[..n];
    }

    /**
     * `rpc_exchange`, recorded in the log; `writes` is whether the link takes the request, `k` counts
     * the frames passed over.
     */
    method Exchange(id: nat, payload: seq<byte>, response: Buffer, writes: bool)
      returns (r: Outcome, ghost k: nat, ghost at: nat)
      requires Valid() && response.Valid() && id < TWO_32
      modifies this, link, response, response.data
      ensures Valid() && response.Valid()
      ensures Ended(r, link.stream, old(link.position), link.position, k, at, ResponseId(id), Uid(|old(log)|),
                    response.Contents())
      ensures log == old(log) + [CallOf(r, link.stream, old(link.position), link.position, k, ResponseId(id))]
      ensures (r == TooLarge) == (|EncodeFrame(RequestFrame(id, Uid(|old(log)|), payload))| > CAPACITY)
      ensures r != TooLarge ==> (r == WriteFailed <==> !writes)
      ensures r !in {TooLarge, WriteFailed} ==>
                link.sent == old(link.sent) + EncodeFrame(RequestFrame(id, Uid(|old(log)|), payload))
      ensures Heard(r, k, link.Now())
              == Exchanged(link.stream, old(link.Now()), Request(id, payload, writes), Uid(|old(log)|))
      ensures r == LinkLost ==> Down(link.stream, old(link.Now()), link.Now())
      ensures old(Reliable(link.stream, link.Now())) && r !in {TooLarge, WriteFailed} ==>
                Recovered(link.stream, Frames(link.stream, old(link.position)), Heard(r, k, link.Now()),
                          ResponseId(id), Uid(|old(log)|))
    {
      var uid := nextUid;
      nextUid := (nextUid + 1) % TWO_32;
      UidNext(|log|);
      r, k, at := Transact(id, uid, payload, response, writes);
      CallStep(r, link.stream, old(link.position), link.position, k, at, ResponseId(id), log, response.Contents());
      log := log + [CallOf(r, link.stream, old(link.position), link.position, k, ResponseId(id))];
    }

    /** The exchange for a given call number. */
    method Transact(id: nat, uid: nat, payload: seq<byte>, response: Buffer, writes: bool)
      returns (r: Outcome, ghost k: nat, ghost at: nat)
      requires link.Valid() && response.Valid()
      modifies this`disconnect, link, response, response.data
      ensures link.Valid() && response.Valid()
      ensures Ended(r, link.stream, old(link.position), link.position, k, at, ResponseId(id), uid, response.Contents())
      ensures (r == TooLarge) == (|EncodeFrame(RequestFrame(id, uid, payload))| > CAPACITY)
      ensures r != TooLarge ==> (r == WriteFailed <==> !writes)
      ensures r !in {TooLarge, WriteFailed} ==>
                link.sent == old(link.sent) + EncodeFrame(RequestFrame(id, uid, payload))
      ensures Heard(r, k, link.Now()) == Exchanged(link.stream, old(link.Now()), Request(id, payload, writes), uid)
      ensures r == LinkLost ==> Down(link.stream, old(link.Now()), link.Now())
      ensures old(Reliable(link.stream, link.Now())) && r !in {TooLarge, WriteFailed} ==>
                Recovered(link.stream, Frames(link.stream, old(link.position)), Heard(r, k, link.Now()),
                          ResponseId(id), uid)
    {
      ExchangedMeaning(link.stream, link.Now(), Request(id, payload, writes), uid);
      var ok, bytes := BuildRequest(id, uid, payload);
      if !ok {
        return TooLarge, 0, 0;
      }
      WriteAll(bytes, writes);
      if !writes {
        return WriteFailed, 0, 0;
      }
      r, k, at := Await(ResponseId(id), uid, response);
    }

    /** One received frame: passed over, or the end of the exchange. */
    method Handle(f: Frame, id: nat, uid: nat, response: Buffer) returns (r: Option<Outcome>)
      requires response.Valid() && Legal(f)
      modifies this`disconnect, response`length, response.data
      ensures response.Valid()
      ensures r == None ==> Skipped(f, id, uid)
      ensures r.Some? ==> Stops(r.value, f, id, uid, response.Contents())
    {
      if f.endpoint == RPC_EVT {
        var ok := RecordStationEvent(f.message);
        return if ok then None else Some(BadEvent);
      }
      if f.endpoint != RPC_RSP {
        return None;
      }
      var answer := ReadAnswer(f.message, id, response);
      if answer.BadAnswer? {
        return Some(BadResponse);
      }
      if answer.kind != TYPE_RESPONSE || answer.id != id || answer.uid != uid {
        return None;
      }
      r := Some(if answer.payload then Answered else NoPayload);
    }

    /** One more frame, for an exchange that started at `start` and has passed over `k` of them. */
    method Next(id: nat, uid: nat, response: Buffer, ghost start: LinkState, ghost k: nat)
      returns (stop: Option<Outcome>, ghost at: nat)
      requires link.Valid() && response.Valid() && UnderWay(link.stream, start, link.Now(), k, id, uid)
      modifies this`disconnect, link`position, link`script, response, response.data
      ensures link.Valid() && response.Valid()
      ensures stop == None ==>
                UnderWay(link.stream, start, link.Now(), k + 1, id, uid) && old(link.position) < link.position
      ensures stop.Some? ==>
                && stop.value !in {TooLarge, WriteFailed}
                && Ended(stop.value, link.stream, start.position, link.position, k, at, id, uid, response.Contents())
                && Heard(stop.value, k, link.Now()) == Listen(link.stream, start, id, uid)
    {
      at := link.position;
      ghost var now, frames := link.Now(), Frames(link.stream, start.position);
      var received := link.ReadFrame();
      if received.Got? {
        stop := Handle(received.value, id, uid, response);
        if stop == None {
          WaitingStep(link.stream, at, frames, k, id, uid);
          ListeningStep(link.stream, start, now, k, id, uid, received.value, link.Now());
          return;
        }
        StopsVerdict(stop.value, received.value, id, uid, response.Contents());
      } else {
        stop := Some(if received.LinkDown? then LinkLost else BadStream);
      }
      ListeningEnds(link.stream, start, now, k, id, uid, stop.value, received, link.Now());
      WaitingEnds(stop.value, link.stream, start.position, at, link.position, k, id, uid, response.Contents());
    }

    /** The receiving half of `rpc_exchange`; `at` is where the frame that ended it starts. */
    method Await(id: nat, uid: nat, response: Buffer) returns (r: Outcome, ghost k: nat, ghost at: nat)
      requires link.Valid() && response.Valid()
      modifies this`disconnect, link`position, link`script, response, response.data
      ensures link.Valid() && response.Valid() && r !in {TooLarge, WriteFailed}
      ensures Ended(r, link.stream, old(link.position), link.position, k, at, id, uid, response.Contents())
      ensures Heard(r, k, link.Now()) == Listen(link.stream, old(link.Now()), id, uid)
    {
      ghost var start := link.Now();
      k := 0;
      UnderWayStarts(link.stream, start, id, uid);
      while true
        invariant link.Valid() && response.Valid() && UnderWay(link.stream, start, link.Now(), k, id, uid)
        decreases |link.stream| - link.position
      {
        var stop: Option<Outcome>;
        stop, at := Next(id, uid, response, start, k);
        if stop.Some? {
          return stop.value, k, at;
        }
        k := k + 1;
      }
    }

    /** A command: requests one after another up to the first that is not answered. */
    method Session(requests: seq<Request>, response: Buffer) returns (done: nat)
      requires Valid() && response.Valid() && forall i :: 0 <= i < |requests| ==> requests[i].id < TWO_32
      modifies this, link, response, response.data
      ensures Valid() && response.Valid() && old(log) <= log && NeverStale(log)
      ensures Finished(link.stream, old(link.Now()), requests, old(log), log, done)
      ensures old(Reliable(link.stream, link.Now())) ==>
                done == Served(Frames(link.stream, old(link.position)), requests, |old(log)|)
    {
      if Reliable(link.stream, link.Now()) {
        AnswersServed(link.stream, link.Now(), requests, |log|);
      }
      done := AskAll(requests, response);
      NoneStale(link.stream, log);
    }

    /** One request of a session. */
    method Ask(q: Request, response: Buffer) returns (r: Outcome)
      requires Valid() && response.Valid() && q.id < TWO_32
      modifies this, link, response, response.data
      ensures Valid() && response.Valid() && old(log) <= log && |log| == |old(log)| + 1
      ensures log[|log| - 1].id == ResponseId(q.id) && log[|log| - 1].outcome == r
      ensures var h := Exchanged(link.stream, old(link.Now()), q, Uid(|old(log)|));
              h.outcome == r && h.state == link.Now()
    {
      ghost var k, at;
      r, k, at := Exchange(q.id, q.payload, response, q.writes);
    }

    method AskAll(requests: seq<Request>, response: Buffer) returns (done: nat)
      requires Valid() && response.Valid() && forall i :: 0 <= i < |requests| ==> requests[i].id < TWO_32
      modifies this, link, response, response.data
      ensures Valid() && response.Valid()
      ensures Finished(link.stream, old(link.Now()), requests, old(log), log, done)
    {
      ghost var start, before := link.Now(), log;
      done := 0;
      assert requests[0..] == requests;
      while done < |requests|
        invariant 0 <= done <= |requests| && Valid() && response.Valid()
        invariant InSession(link.stream, start, link.Now(), requests, before, log, done)
      {
        ghost var now, was := link.Now(), log;
        var r := Ask(requests[done], response);
        SessionStep(link.stream, start, now, requests, before, was, log, done);
        if r != Answered {
          return;
        }
        done := done + 1;
      }
      SessionEnd(link.stream, start, link.Now(), requests, before, log, done);
    }
  }

  /** The first `done` requests were answered, in order. */
  ghost predicate AllAnswered(requests: seq<Request>, calls: seq<Call>, done: nat) {
    && done <= |requests| && done <= |calls|
    && forall i :: 0 <= i < done ==> calls[i].outcome == Answered && calls[i].id == ResponseId(requests[i].id)
  }

  lemma AnsweredStep(requests: seq<Request>, before: seq<Call>, after: seq<Call>, base: nat, done: nat)
    requires base <= |before| && done < |requests| && |before| == base + done && |after| == |before| + 1
    requires before <= after && AllAnswered(requests, before[base..], done)
    requires after[|before|].id == ResponseId(requests[done].id)
    ensures AllAnswered(requests, after[base..], done)
    ensures after[|before|].outcome == Answered ==> AllAnswered(requests, after[base..], done + 1)
  {
    forall i | 0 <= i < done
      ensures after[base..][i] == before[base..][i]
    {
      assert after[base + i] == before[base + i];
    }
  }

  /** A session that started at `start` has had `done` requests answered and stands at `now`. */
  ghost predicate InSession(stream: seq<byte>, start: LinkState, now: LinkState, requests: seq<Request>,
                            before: seq<Call>, log: seq<Call>, done: nat) {
    && start.position <= |stream| && now.position <= |stream|
    && before <= log && |log| == |before| + done && AllAnswered(requests, log[|before|..], done)
    && done + Answers(stream, now, requests[done..], |log|) == Answers(stream, start, requests, |before|)
  }

  /** A session that is over: the requests that were answered, and after them one that was not, if any are left. */
  ghost predicate Finished(stream: seq<byte>, start: LinkState, requests: seq<Request>,
                           before: seq<Call>, log: seq<Call>, done: nat) {
    && start.position <= |stream| && before <= log && AllAnswered(requests, log[|before|..], done)
    && |log| == |before| + (if done < |requests| then done + 1 else done)
    && (done < |requests| ==> log[|log| - 1].outcome != Answered)
    && done == Answers(stream, start, requests, |before|)
  }

  lemma SessionStep(stream: seq<byte>, start: LinkState, now: LinkState, requests: seq<Request>,
                    before: seq<Call>, log: seq<Call>, after: seq<Call>, done: nat)
    requires InSession(stream, start, now, requests, before, log, done) && done < |requests|
    requires log <= after && |after| == |log| + 1 && after[|log|].id == ResponseId(requests[done].id)
    requires after[|log|].outcome == Exchanged(stream, now, requests[done], Uid(|log|)).outcome
    ensures var h := Exchanged(stream, now, requests[done], Uid(|log|));
            if h.outcome == Answered then InSession(stream, start, h.state, requests, before, after, done + 1)
            else Finished(stream, start, requests, before, after, done)
  {
    AnsweredStep(requests, log, after, |before|, done);
    assert requests[done..][1..] == requests[done + 1..];
  }

  lemma SessionEnd(stream: seq<byte>, start: LinkState, now: LinkState, requests: seq<Request>,
                   before: seq<Call>, log: seq<Call>, done: nat)
    requires InSession(stream, start, now, requests, before, log, done) && done == |requests|
    ensures Finished(stream, start, requests, before, log, done)
  {
  }

  /** What an exchange is recorded as. */
  function CallOf(r: Outcome, stream: seq<byte>, from: nat, end: nat, k: nat, id: nat): Call
    requires from <= |stream|
  {
    var frames := Frames(stream, from);
    Call(id, r, from, end, if r == Answered && k < |frames| then Some(frames[k]) else None)
  }

  /**
   * How an exchange ended, with `k` of the frames after `from` passed over: what it reports is due,
   * and where a frame decided it, that frame starts at `at` and reading goes on right after it.
   */
  ghost predicate Ended(r: Outcome, stream: seq<byte>, from: nat, end: nat, k: nat, at: nat,
                        id: nat, uid: nat, payload: seq<byte>) {
    && from <= end <= |stream|
    && Explained(r, Frames(stream, from), k, id, uid, payload)
    && (Decided(r) ==> Took(stream, from, Frames(stream, from), k, at, end))
  }

  lemma CallStep(r: Outcome, stream: seq<byte>, from: nat, end: nat, k: nat, at: nat, id: nat, log: seq<Call>,
                 payload: seq<byte>)
    requires LogGood(stream, log) && (log != [] ==> log[|log| - 1].end <= from)
    requires Ended(r, stream, from, end, k, at, id, Uid(|log|), payload)
    ensures LogGood(stream, log + [CallOf(r, stream, from, end, k, id)])
  {
    var c := CallOf(r, stream, from, end, k, id);
    assert r == Answered ==> ParseFrame(stream, at) == FrameRead(c.answer.value, c.end);
    LogStep(stream, log, c);
  }

  /** What call `n` was answered with answers call `m` under no id, and was not read by it. */
  ghost predicate Unstale(log: seq<Call>, m: nat, n: nat)
    requires m < |log| && n < |log|
  {
    && log[n].answer.Some? && log[m].end <= log[n].start
    && forall id :: !Matches(log[n].answer.value, id, Uid(m))
  }

  lemma LogStep(stream: seq<byte>, log: seq<Call>, c: Call)
    requires LogGood(stream, log) && CallGood(stream, c, |log|)
    requires log != [] ==> log[|log| - 1].end <= c.start
    ensures LogGood(stream, log + [c])
  {
    forall m | 0 <= m < |log|
      ensures log[m].end <= c.start
    {
      if m < |log| - 1 {
        assert log[m].end <= log[|log| - 1].start && CallGood(stream, log[|log| - 1], |log| - 1);
      }
    }
  }

  ghost predicate NeverStale(log: seq<Call>) {
    forall m, n :: 0 <= m < n < |log| && n < m + TWO_32 && log[n].outcome == Answered ==> Unstale(log, m, n)
  }

  /** Over any sequence of calls, none is answered with a frame that answers an earlier one. */
  lemma NoneStale(stream: seq<byte>, log: seq<Call>)
    requires LogGood(stream, log)
    ensures NeverStale(log)
  {
    forall m, n | 0 <= m < n < |log| && n < m + TWO_32 && log[n].outcome == Answered
      ensures Unstale(log, m, n)
    {
      assert CallGood(stream, log[n], n);
      forall id
        ensures !Matches(log[n].answer.value, id, Uid(m))
      {
        if Matches(log[n].answer.value, id, Uid(m)) {
          StaleNeverAccepted(log[n].answer.value, m, id, n, log[n].id);
        }
      }
    }
  }

  /** A client that started at `start`, has passed over `k` frames and stands at `now`. */
  ghost predicate Listening(stream: seq<byte>, start: LinkState, now: LinkState, k: nat, id: nat, uid: nat) {
    && start.position <= |stream| && now.position <= |stream|
    && var later := Listen(stream, now, id, uid);
       later.(k := later.k + k) == Listen(stream, start, id, uid)
  }

  /** The same with the frames it has passed over. */
  ghost predicate UnderWay(stream: seq<byte>, start: LinkState, now: LinkState, k: nat, id: nat, uid: nat) {
    && start.position <= now.position && Listening(stream, start, now, k, id, uid)
    && Waiting(stream, now.position, Frames(stream, start.position), k, id, uid)
  }

  lemma UnderWayStarts(stream: seq<byte>, start: LinkState, id: nat, uid: nat)
    requires start.position <= |stream|
    ensures UnderWay(stream, start, start, 0, id, uid)
  {
  }

  lemma ListeningEnds(stream: seq<byte>, start: LinkState, now: LinkState, k: nat, id: nat, uid: nat,
                      r: Outcome, received: Received<Frame>, after: LinkState)
    requires Listening(stream, start, now, k, id, uid) && PullFrame(stream, now) == FramePull(received, after)
    requires match received
             case LinkDown => r == LinkLost
             case BadFrame => r == BadStream
             case Got(f) => !Skipped(f, id, uid) && r == Verdict(f, id)
    ensures Heard(r, k, after) == Listen(stream, start, id, uid)
  {
  }

  lemma ListeningStep(stream: seq<byte>, start: LinkState, now: LinkState, k: nat, id: nat, uid: nat,
                      f: Frame, after: LinkState)
    requires Listening(stream, start, now, k, id, uid) && PullFrame(stream, now) == FramePull(Got(f), after)
    requires Skipped(f, id, uid)
    ensures Listening(stream, start, after, k + 1, id, uid)
  {
  }

  /** A client that has passed over `k` of the frames and reads on at `position`. */
  ghost predicate Waiting(stream: seq<byte>, position: nat, frames: seq<Frame>, k: nat, id: nat, uid: nat) {
    && position <= |stream| && k <= |frames| && Frames(stream, position) == frames[k..]
    && forall i :: 0 <= i < k ==> Skipped(frames[i], id, uid)
  }

  /** What ends the wait at the next frame, or for want of one, is properly explained. */
  lemma WaitingEnds(r: Outcome, stream: seq<byte>, from: nat, at: nat, end: nat, k: nat, id: nat, uid: nat,
                    payload: seq<byte>)
    requires from <= at <= end <= |stream| && Waiting(stream, at, Frames(stream, from), k, id, uid)
    requires var next := ParseFrame(stream, at);
             || r == LinkLost
             || (r == BadStream && next.NoFrame?)
             || (next.FrameRead? && next.end == end && Stops(r, next.frame, id, uid, payload))
    ensures Ended(r, stream, from, end, k, at, id, uid, payload)
  {
    WaitingStep(stream, at, Frames(stream, from), k, id, uid);
  }

  lemma WaitingStep(stream: seq<byte>, position: nat, frames: seq<Frame>, k: nat, id: nat, uid: nat)
    requires Waiting(stream, position, frames, k, id, uid)
    ensures var next := ParseFrame(stream, position);
            && (next.NoFrame? ==> k == |frames|)
            && (next.FrameRead? ==>
                  && k < |frames| && frames[k] == next.frame && Frames(stream, next.end) == frames[k + 1..]
                  && (Skipped(next.frame, id, uid) ==> Waiting(stream, next.end, frames, k + 1, id, uid)))
  {
  }

  lemma UidNext(n: nat)
    ensures (Uid(n) + 1) % TWO_32 == Uid(n + 1)
  {
  }

  /** Two calls share a number exactly when a multiple of 2^32 calls lies between them. */
  lemma UidsDistinct(i: nat, j: nat)
    requires i <= j
    ensures Uid(i) == Uid(j) <==> (j - i) % TWO_32 == 0
  {
  }

  /** Within 2^32 calls no frame that answers an earlier call is taken for a later one's. */
  lemma StaleNeverAccepted(f: Frame, i: nat, earlier: nat, j: nat, later: nat)
    requires i < j < i + TWO_32 && Matches(f, earlier, Uid(i))
    ensures !Matches(f, later, Uid(j))
  {
  }

  /** A response as a peer sends it, the payload in any number of pieces. */
  function ResponseFrame(id: nat, uid: nat, pieces: seq<seq<byte>>): Frame {
    Frame(RPC_RSP, Encode(ResponseHead(id, uid) + PieceFields(id, pieces)))
  }

  function ResponseHead(id: nat, uid: nat): seq<Field> {
    [Uint(1, TYPE_RESPONSE), Uint(2, id), Uint(3, uid)]
  }

  function PieceFields(id: nat, pieces: seq<seq<byte>>): (fs: seq<Field>)
    ensures |fs| == |pieces|
  {
    seq(|pieces|, i requires 0 <= i < |pieces| => Octets(id, pieces[i]))
  }

  function Joined(pieces: seq<seq<byte>>): seq<byte> {
    if pieces == [] then [] else pieces[0] + Joined(pieces[1..])
  }

  lemma {:induction false} JoinedLast(pieces: seq<seq<byte>>)
    requires pieces != []
    ensures Joined(pieces) == Joined(pieces[..|pieces| - 1]) + pieces[|pieces| - 1]
  {
    var n := |pieces| - 1;
    if n == 0 {
      assert pieces[0] + [] == pieces[0] && [] + pieces[0] == pieces[0];
    } else {
      JoinedLast(pieces[1..]);
      assert pieces[1..][..n - 1] == pieces[..n][1..];
    }
  }

  /** What a response's fields come to: the head's integers and the joined pieces. */
  lemma {:induction false} PiecesFold(head: seq<Field>, id: nat, pieces: seq<seq<byte>>, number: nat)
    requires forall k :: 0 <= k < |head| ==> head[k].Uint?
    ensures var fs := head + PieceFields(id, pieces);
            && LastUint(fs, number) == LastUint(head, number)
            && Payload(fs, id) == Joined(pieces) && (LastOctets(fs, id).Some? <==> pieces != [])
    decreases |pieces|
  {
    if pieces == [] {
      assert head + PieceFields(id, pieces) == head;
      NoOctets(head, id);
    } else {
      var n := |pieces| - 1;
      PiecesFold(head, id, pieces[..n], number);
      JoinedLast(pieces);
      var f := Octets(id, pieces[n]);
      assert head + PieceFields(id, pieces) == head + PieceFields(id, pieces[..n]) + [f];
      FoldStep(head + PieceFields(id, pieces[..n]), f, number);
      FoldStep(head + PieceFields(id, pieces[..n]), f, id);
    }
  }

  lemma {:induction false} NoOctets(fs: seq<Field>, number: nat)
    requires forall k :: 0 <= k < |fs| ==> fs[k].Uint?
    ensures Payload(fs, number) == [] && LastOctets(fs, number) == None
  {
    if fs != [] {
      NoOctets(fs[..|fs| - 1], number);
    }
  }

  lemma HeadFold(head: seq<Field>, id: nat, uid: nat)
    requires head == ResponseHead(id, uid) || (uid == 0 && head == ResponseHead(id, uid)[..2])
    ensures LastUint(head, 1) == TYPE_RESPONSE && LastUint(head, 2) == id && LastUint(head, 3) == uid
  {
    var a, b, c := Uint(1, TYPE_RESPONSE), Uint(2, id), Uint(3, uid);
    forall number | number in {1, 2, 3}
      ensures LastUint([a, b], number) == if number == 2 then id else if number == 1 then TYPE_RESPONSE else 0
    {
      FoldStep([], a, number);
      FoldStep([a], b, number);
      assert [] + [a] == [a] && [a] + [b] == [a, b];
    }
    FoldStep([a, b], c, 1);
    FoldStep([a, b], c, 2);
    FoldStep([a, b], c, 3);
    assert [a, b] + [c] == ResponseHead(id, uid) && ResponseHead(id, uid)[..2] == [a, b];
  }

  lemma HeadKept(id: nat, uid: nat)
    requires id > 0
    ensures Kept(ResponseHead(id, uid))
            == if uid == 0 then ResponseHead(id, uid)[..2] else ResponseHead(id, uid)
  {
    var head := ResponseHead(id, uid);
    KeptParts(head[..2], head[2..]);
    assert head == head[..2] + head[2..];
    NothingDropped(head[..2]);
    assert Kept(head[2..]) == KeptBefore(head[2], []);
  }

  lemma ResponseFields(id: nat, uid: nat, pieces: seq<seq<byte>>, fs: seq<Field>)
    requires 0 < id < TWO_32 && uid < TWO_32 && fs == ResponseHead(id, uid) + PieceFields(id, pieces)
    requires forall k :: 0 <= k < |pieces| ==> |pieces[k]| < TWO_64
    ensures Fields(Encode(fs), 0) == Some(Kept(ResponseHead(id, uid)) + PieceFields(id, pieces))
  {
    RoundTrip(fs);
    KeptParts(ResponseHead(id, uid), PieceFields(id, pieces));
    NothingDropped(PieceFields(id, pieces));
  }

  /**
   * A client that waits for call `uid` takes the response a peer sends to it, and hands over the
   * payload octet for octet, in however many pieces it comes.
   */
  lemma ResponseReadBack(id: nat, uid: nat, pieces: seq<seq<byte>>)
    requires 0 < id < TWO_32 && uid < TWO_32 && forall k :: 0 <= k < |pieces| ==> |pieces[k]| < TWO_64
    ensures var f := ResponseFrame(id, uid, pieces);
            && Matches(f, id, uid) && PayloadOf(f.message, id) == Joined(pieces)
            && Verdict(f, id) == if pieces == [] then NoPayload else Answered
  {
    var head := Kept(ResponseHead(id, uid));
    HeadKept(id, uid);
    ResponseFields(id, uid, pieces, ResponseHead(id, uid) + PieceFields(id, pieces));
    AnswerFound(ResponseFrame(id, uid, pieces).message, head, id, uid, pieces);
  }

  lemma AnswerFound(message: seq<byte>, head: seq<Field>, id: nat, uid: nat, pieces: seq<seq<byte>>)
    requires head == ResponseHead(id, uid) || (uid == 0 && head == ResponseHead(id, uid)[..2])
    requires Fields(message, 0) == Some(head + PieceFields(id, pieces))
    ensures AnswerOf(message, id) == Answer(TYPE_RESPONSE, id, uid, pieces != [])
    ensures PayloadOf(message, id) == Joined(pieces)
  {
    HeadFold(head, id, uid);
    PiecesFold(head, id, pieces, 1);
    PiecesFold(head, id, pieces, 2);
    PiecesFold(head, id, pieces, 3);
  }

  /** Two adjoining pieces read as one. */
  lemma PiecesMerge(id: nat, uid: nat, payload: seq<byte>, cut: nat)
    requires 0 < id < TWO_32 && uid < TWO_32 && cut <= |payload| < TWO_64
    ensures PayloadOf(ResponseFrame(id, uid, [payload]).message, id) == payload
    ensures PayloadOf(ResponseFrame(id, uid, [payload[..cut], payload[cut..]]).message, id) == payload
  {
    ResponseReadBack(id, uid, [payload]);
    ResponseReadBack(id, uid, [payload[..cut], payload[cut..]]);
    var whole: seq<seq<byte>>, rest: seq<seq<byte>> := [payload], [payload[cut..]];
    assert whole[1..] == [] && rest[1..] == [] && ([payload[..cut]] + rest)[1..] == rest;
    assert [payload[..cut], payload[cut..]] == [payload[..cut]] + rest;
    assert payload + [] == payload && payload[cut..] + [] == payload[cut..];
    assert payload[..cut] + payload[cut..] == payload;
  }

  /** A frame without a call number is taken by the calls numbered 0 that it answers and by no others. */
  lemma UntaggedMatches(f: Frame, id: nat, n: nat)
    requires Fields(f.message, 0).Some?
    requires forall k :: 0 <= k < |Fields(f.message, 0).value| ==> Fields(f.message, 0).value[k].number != 3
    ensures var answer := AnswerOf(f.message, id);
            Matches(f, id, Uid(n)) <==>
            f.endpoint == RPC_RSP && answer.kind == TYPE_RESPONSE && answer.id == id && (n + 1) % TWO_32 == 0
  {
    NoUint(Fields(f.message, 0).value, 3);
  }

  /** A response as a peer sends it that leaves the call number out. */
  function UntaggedResponse(id: nat): Frame {
    Frame(RPC_RSP, Encode([Uint(1, TYPE_RESPONSE), Uint(2, id), Octets(id, [])]))
  }

  /** Call 2^32 - 1 takes it, payload and all, whatever it was sent for. */
  lemma UntaggedAccepted(id: nat)
    requires 0 < id < TWO_32
    ensures var f, n := UntaggedResponse(id), TWO_32 - 1;
            Matches(f, id, Uid(n)) && AnswerOf(f.message, id).payload && PayloadOf(f.message, id) == []
  {
    var fs := [Uint(1, TYPE_RESPONSE), Uint(2, id), Octets(id, [])];
    UntaggedFields(id, fs);
    UntaggedAnswer(UntaggedResponse(id).message, id, fs);
    assert Uid(TWO_32 - 1) == 0;
  }

  lemma UntaggedFields(id: nat, fs: seq<Field>)
    requires 0 < id < TWO_32 && fs == [Uint(1, TYPE_RESPONSE), Uint(2, id), Octets(id, [])]
    ensures Fields(UntaggedResponse(id).message, 0) == Some(fs)
  {
    RoundTrip(fs);
    NothingDropped(fs);
  }

  lemma UntaggedAnswer(message: seq<byte>, id: nat, fs: seq<Field>)
    requires Fields(message, 0) == Some(fs) && fs == [Uint(1, TYPE_RESPONSE), Uint(2, id), Octets(id, [])]
    ensures AnswerOf(message, id) == Answer(TYPE_RESPONSE, id, 0, true) && PayloadOf(message, id) == []
  {
    ThreeFolds(fs[0], fs[1], fs[2], 1);
    ThreeFolds(fs[0], fs[1], fs[2], 2);
    ThreeFolds(fs[0], fs[1], fs[2], 3);
    ThreeFolds(fs[0], fs[1], fs[2], id);
  }

  lemma ThreeFolds(a: Field, b: Field, c: Field, number: nat)
    requires a.Uint? && b.Uint? && c.Octets?
    ensures LastUint([a, b, c], number)
            == if b.number == number then b.value else if a.number == number then a.value else 0
    ensures LastOctets([a, b, c], number) == if c.number == number then Some(c.bytes) else None
    ensures Payload([a, b, c], number) == if c.number == number then c.bytes else []
  {
    FoldStep([], a, number);
    FoldStep([a], b, number);
    FoldStep([a, b], c, number);
    assert [] + [a] == [a] && [a] + [b] == [a, b] && [a, b] + [c] == [a, b, c];
  }

  lemma {:induction false} NoUint(fs: seq<Field>, number: nat)
    requires forall k :: 0 <= k < |fs| ==> fs[k].number != number
    ensures LastUint(fs, number) == 0
  {
    if fs != [] {
      NoUint(fs[..|fs| - 1], number);
    }
  }
}
