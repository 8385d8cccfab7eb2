/**
 * The device service `micronux-deviced`: eight client slots driven by a poll loop. Each connection
 * sends one fixed-size request and gets at most one response, at once or after a bounded wait.
 */
module DeviceService {
  import opened Wrappers
  import opened Bytes

  const CLIENT_LIMIT := 8
  const REQUEST_SIZE := 24
  const MAGIC := 0x584E_554D
  const ABI_MAJOR := 1
  const MAX_WAIT_MS := 300_000

  const CAP_OBSERVE := 1
  const CAP_CONTROL := 2
  const CAP_ADMIN := 4

  const OP_INFO := 1
  const OP_LIST := 2
  const OP_WAIT := 3
  const OP_ADMIN_PROBE := 4

  const OK := 0
  const VERSION := -1
  const DENIED := -2
  const INVALID := -3
  const TIMEOUT := -4
  const IO := -5

  // ---------------------------------------------------------------------------------------------
  // Requests
  // ---------------------------------------------------------------------------------------------

  const ZEROS := Zeros(REQUEST_SIZE)

  type Request = s: seq<byte> | |s| == REQUEST_SIZE witness ZEROS

  function Magic(q: Request): nat { U32(q, 0) }
  function Major(q: Request): nat { U16(q, 4) }
  function Id(q: Request): nat { U32(q, 8) }
  function Operation(q: Request): nat { U32(q, 12) }
  function Value(q: Request): nat { U32(q, 16) }
  function Timeout(q: Request): nat { U32(q, 20) }

  predicate Current(q: Request) {
    Magic(q) == MAGIC && Major(q) == ABI_MAJOR
  }

  /** A non-empty mask of the three known devices and a wait of up to five minutes. */
  predicate LegalWait(q: Request) {
    1 <= Value(q) <= 7 && 1 <= Timeout(q) <= MAX_WAIT_MS
  }

  /** What a packet leaves in cleared request storage. */
  function Padded(packet: seq<byte>): Request {
    if |packet| >= REQUEST_SIZE then packet[..REQUEST_SIZE] else packet + ZEROS[|packet|..]
  }

  /** Whether every bit of `mask` is set in `flags`. */
  predicate Contains(flags: nat, mask: nat)
    decreases mask
  {
    mask == 0 || (mask % 2 <= flags % 2 && Contains(flags / 2, mask / 2))
  }

  /** Bit `k` of a number. */
  predicate BitSet(n: nat, k: nat) {
    n / Pow2(k) % 2 == 1
  }

  lemma BitHalf(n: nat, k: nat)
    requires k > 0
    ensures BitSet(n, k) <==> BitSet(n / 2, k - 1)
  {
    var p := Pow2(k - 1);
    var q, low := n / 2 / p, n / 2 % p;
    assert n == 2 * (p * q + low) + n % 2;
    assert 2 * (p * q) == 2 * p * q;
    DivMod(2 * low + n % 2, q, 2 * p);
  }

  lemma NoBits(k: nat)
    ensures !BitSet(0, k)
  {
    DivMod(0, 0, Pow2(k));
  }

  /** A set contains a mask if and only if it has every bit the mask has. */
  lemma {:induction false} ContainsMeaning(flags: nat, mask: nat)
    ensures Contains(flags, mask) <==> forall k: nat :: BitSet(mask, k) ==> BitSet(flags, k)
    decreases mask
  {
    if mask == 0 {
      forall k: nat
        ensures !BitSet(mask, k)
      {
        NoBits(k);
      }
    } else {
      ContainsMeaning(flags / 2, mask / 2);
      BitsMeaning(flags, mask);
    }
  }

  lemma BitsMeaning(flags: nat, mask: nat)
    ensures (forall k: nat :: BitSet(mask, k) ==> BitSet(flags, k))
            <==> mask % 2 <= flags % 2 && forall k: nat :: BitSet(mask / 2, k) ==> BitSet(flags / 2, k)
  {
    assert BitSet(mask, 0) <==> mask % 2 == 1;
    assert BitSet(flags, 0) <==> flags % 2 == 1;
    forall k: nat
      ensures BitSet(mask, k + 1) <==> BitSet(mask / 2, k)
      ensures BitSet(flags, k + 1) <==> BitSet(flags / 2, k)
    {
      BitHalf(mask, k + 1);
      BitHalf(flags, k + 1);
    }
    if mask % 2 <= flags % 2 && forall k: nat :: BitSet(mask / 2, k) ==> BitSet(flags / 2, k) {
      forall k: nat | BitSet(mask, k)
        ensures BitSet(flags, k)
      {
        if k > 0 {
          BitHalf(mask, k);
          BitHalf(flags, k);
        }
      }
    }
    if forall k: nat :: BitSet(mask, k) ==> BitSet(flags, k) {
      forall k: nat | BitSet(mask / 2, k)
        ensures BitSet(flags / 2, k)
      {
        assert BitSet(mask, k + 1) && BitSet(flags, k + 1);
      }
    }
  }

  function PeerCapabilities(uid: nat): nat {
    if uid == 0 then CAP_OBSERVE + CAP_CONTROL + CAP_ADMIN else CAP_OBSERVE
  }

  datatype Required = Unknown | Capability(mask: nat)

  function RequiredCapability(operation: nat): Required {
    if operation == OP_INFO then Capability(0)
    else if operation == OP_LIST || operation == OP_WAIT then Capability(CAP_OBSERVE)
    else if operation == OP_ADMIN_PROBE then Capability(CAP_ADMIN)
    else Unknown
  }

  /** Only root holds the administrative capability; everybody may observe. */
  lemma Permitted(uid: nat, operation: nat)
    requires 1 <= operation <= 4
    ensures RequiredCapability(operation).Capability?
    ensures Contains(PeerCapabilities(uid), RequiredCapability(operation).mask)
            <==> operation != OP_ADMIN_PROBE || uid == 0
  {
  }

  /** How a whole request is answered at once; none where it has to wait. */
  function Decision(uid: nat, q: Request, devices: nat): Option<int> {
    if !Current(q) then Some(VERSION)
    else if !(1 <= Operation(q) <= 4) then Some(INVALID)
    else if Operation(q) == OP_ADMIN_PROBE && uid != 0 then Some(DENIED)
    else if Operation(q) != OP_WAIT then Some(OK)
    else if !LegalWait(q) then Some(INVALID)
    else if Contains(devices, Value(q)) then Some(OK)
    else None
  }

  /** The checks of `process_request`, capability by capability, come to that decision. */
  method Judge(q: Request, uid: nat, capabilities: nat, devices: nat) returns (status: Option<int>)
    requires capabilities == PeerCapabilities(uid)
    ensures status == Decision(uid, q, devices)
  {
    if Magic(q) != MAGIC || Major(q) != ABI_MAJOR {
      return Some(VERSION);
    }
    var required := RequiredCapability(Operation(q));
    if required.Unknown? {
      return Some(INVALID);
    }
    Permitted(uid, Operation(q));
    if !Contains(capabilities, required.mask) {
      return Some(DENIED);
    }
    if Operation(q) != OP_WAIT {
      return Some(OK);
    }
    if Value(q) == 0 || Value(q) > 7 || Timeout(q) == 0 || Timeout(q) > MAX_WAIT_MS {
      return Some(INVALID);
    }
    if Contains(devices, Value(q)) {
      return Some(OK);
    }
    status := None;
  }

  // ---------------------------------------------------------------------------------------------
  // Slots and their history
  // ---------------------------------------------------------------------------------------------

  datatype State = Free | Requesting | Waiting

  datatype Client = Client(fd: int, state: State, uid: nat, capabilities: nat, waitMask: nat, deadline: int,
                           request: Request)

  /** A cleared slot. */
  const VACANT := Client(-1, Free, 0, 0, 0, 0, ZEROS)

  datatype Response = Response(requestId: nat, status: int, capabilities: nat, devices: nat)

  /** A response, the connection it went to, and the clock reading it was decided on. */
  datatype Sent = Sent(connection: nat, response: Response, now: int)

  /** A connection: the user behind it, the packet it sent, and the clock reading its wait began with. */
  datatype Peer = Peer(uid: nat, packet: seq<byte>, asked: Option<int>)

  /** What has happened: every connection, the responses in order, and which connection holds each slot. */
  datatype History = History(peers: seq<Peer>, log: seq<Sent>, owner: seq<nat>)

  /** A request that may wait, and whose devices are not there. */
  predicate MustWait(packet: seq<byte>, devices: nat) {
    var q := Padded(packet);
    && |packet| >= REQUEST_SIZE && Current(q) && Operation(q) == OP_WAIT && LegalWait(q)
    && !Contains(devices, Value(q))
  }

  /** Each status is given only where it is due. */
  predicate Justified(p: Peer, e: Sent) {
    var q, r := Padded(p.packet), e.response;
    var whole := |p.packet| >= REQUEST_SIZE;
    if r.status == OK then
      && whole && Current(q)
      && (|| Operation(q) == OP_INFO || Operation(q) == OP_LIST
          || (Operation(q) == OP_ADMIN_PROBE && p.uid == 0)
          || (Operation(q) == OP_WAIT && LegalWait(q) && Contains(r.devices, Value(q))))
    else if r.status == VERSION then whole && !Current(q)
    else if r.status == DENIED then whole && Current(q) && Operation(q) == OP_ADMIN_PROBE && p.uid != 0
    else if r.status == INVALID then
      || !whole
      || (Current(q) && (!(1 <= Operation(q) <= 4) || (Operation(q) == OP_WAIT && !LegalWait(q))))
    else if r.status == TIMEOUT then
      && MustWait(p.packet, r.devices) && p.asked.Some? && p.asked.value >= 0
      && (e.now < 0 || e.now >= p.asked.value + Timeout(q))
    else r.status == IO && MustWait(p.packet, r.devices) && p.asked.Some? && p.asked.value < 0
  }

  predicate Answered(h: History, connection: nat) {
    exists k :: 0 <= k < |h.log| && h.log[k].connection == connection
  }

  /** A response to connection `e.connection` that owes nothing to any other connection. */
  predicate Proper(e: Sent, h: History) {
    && e.connection < |h.peers|
    && e.response.capabilities == PeerCapabilities(h.peers[e.connection].uid)
    && e.response.requestId == Id(Padded(h.peers[e.connection].packet))
    && Justified(h.peers[e.connection], e)
  }

  predicate Occupied(c: Client, connection: nat, h: History) {
    && connection < |h.peers| && !Answered(h, connection)
    && var p := h.peers[connection];
       && c.fd >= 0 && c.uid == p.uid && c.capabilities == PeerCapabilities(c.uid)
       && (c.state == Requesting ==> c.request == ZEROS)
       && (c.state == Waiting ==> Waits(c, p))
  }

  /** A waiting client: its own whole, legal request, and the deadline that follows from when it asked. */
  predicate Waits(c: Client, p: Peer) {
    && |p.packet| >= REQUEST_SIZE && c.request == Padded(p.packet)
    && Current(c.request) && Operation(c.request) == OP_WAIT && LegalWait(c.request)
    && c.waitMask == Value(c.request)
    && p.asked.Some? && p.asked.value >= 0 && c.deadline == p.asked.value + Timeout(c.request)
  }

  predicate SlotGood(c: Client, connection: nat, h: History) {
    if c.state == Free then c == VACANT else Occupied(c, connection, h)
  }

  predicate Shape(cs: seq<Client>, h: History) {
    |cs| == CLIENT_LIMIT && |h.owner| == CLIENT_LIMIT
  }

  predicate SlotsGood(cs: seq<Client>, h: History)
    requires Shape(cs, h)
  {
    forall i :: 0 <= i < CLIENT_LIMIT ==> SlotGood(cs[i], h.owner[i], h)
  }

  /** No two slots serve the same connection. */
  predicate Disjoint(cs: seq<Client>, h: History)
    requires Shape(cs, h)
  {
    forall i, j :: 0 <= i < j < CLIENT_LIMIT && cs[i].state != Free && cs[j].state != Free ==>
      h.owner[i] != h.owner[j]
  }

  predicate LogGood(h: History) {
    && (forall k :: 0 <= k < |h.log| ==> Proper(h.log[k], h))
    && forall k, l :: 0 <= k < l < |h.log| ==> h.log[k].connection != h.log[l].connection
  }

  predicate Good(cs: seq<Client>, h: History) {
    Shape(cs, h) && SlotsGood(cs, h) && Disjoint(cs, h) && LogGood(h)
  }

  /** Nothing that has happened is undone: responses stand, users stay, answered connections are closed books. */
  predicate Extends(h: History, h': History) {
    && h.log <= h'.log && |h.peers| <= |h'.peers|
    && forall c :: 0 <= c < |h.peers| ==>
         h'.peers[c].uid == h.peers[c].uid && (Answered(h, c) ==> h'.peers[c] == h.peers[c])
  }

  lemma ExtendsBoth(a: History, b: History, c: History)
    requires Extends(a, b) && Extends(b, c)
    ensures Extends(a, c)
  {
    forall n | 0 <= n < |a.peers|
      ensures c.peers[n].uid == a.peers[n].uid && (Answered(a, n) ==> c.peers[n] == a.peers[n])
    {
      if Answered(a, n) {
        var k :| 0 <= k < |a.log| && a.log[k].connection == n;
        assert b.log[k] == a.log[k];
      }
    }
  }

  // ---------------------------------------------------------------------------------------------
  // Each step keeps the history good
  // ---------------------------------------------------------------------------------------------

  lemma CloseKeeps(cs: seq<Client>, h: History, i: nat)
    requires Good(cs, h) && i < CLIENT_LIMIT
    ensures Good(cs[i := VACANT], h)
  {
  }

  /** The response a client is sent. */
  function Reply(c: Client, connection: nat, status: int, devices: nat, now: int): Sent {
    Sent(connection, Response(Id(c.request), status, c.capabilities, devices), now)
  }

  function Responded(h: History, e: Sent): History {
    h.(log := h.log + [e])
  }

  lemma RespondKeeps(cs: seq<Client>, h: History, i: nat, e: Sent)
    requires Good(cs, h) && i < CLIENT_LIMIT && cs[i].state != Free && e.connection == h.owner[i] && Proper(e, h)
    ensures Good(cs[i := VACANT], Responded(h, e)) && Extends(h, Responded(h, e))
  {
  }

  function Admitted(h: History, slot: nat, uid: nat): History
    requires slot < |h.owner|
  {
    h.(peers := h.peers + [Peer(uid, [], None)], owner := h.owner[slot := |h.peers|])
  }

  /** A slot that has just been taken. */
  function Admit(fd: nat, uid: nat): Client {
    Client(fd, Requesting, uid, PeerCapabilities(uid), 0, 0, ZEROS)
  }

  lemma AdmitKeeps(cs: seq<Client>, h: History, slot: nat, fd: nat, uid: nat)
    requires Good(cs, h) && slot < CLIENT_LIMIT && cs[slot].state == Free
    ensures Good(cs[slot := cs[slot].(fd := fd, state := Requesting, uid := uid,
                                      capabilities := PeerCapabilities(uid))],
                 Admitted(h, slot, uid))
    ensures Extends(h, Admitted(h, slot, uid))
  {
  }

  /** A connection's own record changes. */
  function Noted(h: History, connection: nat, p: Peer): History
    requires connection < |h.peers|
  {
    h.(peers := h.peers[connection := p])
  }

  /** What is learnt of an unanswered connection that is still to ask touches nobody else. */
  lemma NoteKeeps(cs: seq<Client>, h: History, i: nat, p: Peer)
    requires Good(cs, h) && i < CLIENT_LIMIT && cs[i].state == Requesting
    requires h.owner[i] < |h.peers| ==> p.uid == h.peers[h.owner[i]].uid
    ensures h.owner[i] < |h.peers| && Good(cs, Noted(h, h.owner[i], p)) && Extends(h, Noted(h, h.owner[i], p))
  {
  }

  lemma WaitKeeps(cs: seq<Client>, h: History, i: nat, c: Client)
    requires Good(cs, h) && i < CLIENT_LIMIT && cs[i].state != Free && c.state == Waiting
    requires c.fd == cs[i].fd && c.uid == cs[i].uid && c.capabilities == cs[i].capabilities
    requires h.owner[i] < |h.peers| ==> Waits(c, h.peers[h.owner[i]])
    ensures Good(cs[i := c], h)
  {
  }

  /** Received octets over cleared storage leave the packet and zeros, nothing else. */
  lemma OverlayIsPadded(packet: seq<byte>)
    ensures var n := if |packet| < REQUEST_SIZE then |packet| else REQUEST_SIZE;
            Overlay(ZEROS, 0, packet[..n]) == Padded(packet)
  {
  }

  /** An immediate decision on a whole request is justified. */
  lemma DecisionJustified(p: Peer, e: Sent)
    requires |p.packet| >= REQUEST_SIZE
    requires Decision(p.uid, Padded(p.packet), e.response.devices) == Some(e.response.status)
    ensures Justified(p, e)
  {
  }

  // ---------------------------------------------------------------------------------------------
  // The service
  // ---------------------------------------------------------------------------------------------

  /** What `recv` on a client may give. */
  datatype Receipt = Packet(bytes: seq<byte>) | Again | Lost

  /** What a pass finds on a client's connection, and what reading it would give. */
  datatype Poll = Poll(gone: bool, readable: bool, receipt: Receipt)

  /** The peer has hung up, or is found gone when its request is read. */
  predicate Leaves(c: Client, poll: Poll) {
    poll.gone || (c.state == Requesting && poll.readable && poll.receipt == Lost)
  }

  /**
   * What becomes of an occupied slot with connection `n`: cleared if the peer has left, answered, in
   * waiting if its request has come in, or as it was.
   */
  predicate Treated(c: Client, n: nat, poll: Poll, c': Client, h': History) {
    if Leaves(c, poll) then c' == VACANT
    else if c'.state == Free then Answered(h', n)
    else if c.state == Requesting && poll.readable && poll.receipt.Packet? then c'.state == Waiting
    else c' == c
  }

  /** The slots up to `upTo` have been seen to, those after it are untouched. */
  predicate Seen(cs: seq<Client>, h: History, polled: seq<Client>, polls: seq<Poll>, cs': seq<Client>, h': History,
                 upTo: nat)
    requires Shape(cs, h) && Shape(cs', h') && |polled| == |polls| == CLIENT_LIMIT && upTo <= CLIENT_LIMIT
  {
    && h'.owner == h.owner
    && (forall j :: 0 <= j < upTo && polled[j].state != Free && cs[j].state != Free ==>
          Treated(cs[j], h.owner[j], polls[j], cs'[j], h'))
    && forall j :: 0 <= j < CLIENT_LIMIT && (j >= upTo || polled[j].state == Free || cs[j].state == Free) ==>
         cs'[j] == cs[j]
  }

  lemma AnsweredStays(h: History, h': History, n: nat)
    requires Extends(h, h') && Answered(h, n)
    ensures Answered(h', n)
  {
    var k :| 0 <= k < |h.log| && h.log[k].connection == n;
    assert h'.log[k] == h.log[k];
  }

  lemma SeenStep(cs: seq<Client>, h: History, polled: seq<Client>, polls: seq<Poll>, cs1: seq<Client>, h1: History,
                 cs2: seq<Client>, h2: History, i: nat)
    requires Shape(cs, h) && Shape(cs1, h1) && Shape(cs2, h2) && |polled| == |polls| == CLIENT_LIMIT
    requires i < CLIENT_LIMIT && Seen(cs, h, polled, polls, cs1, h1, i) && Extends(h1, h2) && h2.owner == h1.owner
    requires cs2 == cs1[i := cs2[i]]
    requires if polled[i].state == Free || cs1[i].state == Free then cs2[i] == cs1[i]
             else Treated(cs1[i], h1.owner[i], polls[i], cs2[i], h2)
    ensures Seen(cs, h, polled, polls, cs2, h2, i + 1)
  {
    forall j | 0 <= j < i && polled[j].state != Free && cs[j].state != Free
      ensures Treated(cs[j], h.owner[j], polls[j], cs2[j], h2)
    {
      assert Treated(cs[j], h.owner[j], polls[j], cs1[j], h1);
      if Answered(h1, h.owner[j]) {
        AnsweredStays(h1, h2, h.owner[j]);
      }
    }
  }

  /** Waiters have been answered or left as they were. */
  predicate Waited(cs: seq<Client>, h: History, cs': seq<Client>, h': History)
    requires Shape(cs, h) && Shape(cs', h')
  {
    && h'.owner == h.owner
    && forall j :: 0 <= j < CLIENT_LIMIT ==> cs'[j] == cs[j] || (cs'[j] == VACANT && Answered(h', h.owner[j]))
  }

  lemma WaitedStep(cs: seq<Client>, h: History, cs1: seq<Client>, h1: History, cs2: seq<Client>, h2: History, i: nat)
    requires Shape(cs, h) && Shape(cs1, h1) && Shape(cs2, h2) && i < CLIENT_LIMIT
    requires Waited(cs, h, cs1, h1) && Extends(h1, h2) && h2.owner == h1.owner && cs2 == cs1[i := cs2[i]]
    requires cs2[i] == cs1[i] || (cs2[i] == VACANT && Answered(h2, h1.owner[i]))
    ensures Waited(cs, h, cs2, h2)
  {
    forall j | 0 <= j < CLIENT_LIMIT
      ensures cs2[j] == cs[j] || (cs2[j] == VACANT && Answered(h2, h.owner[j]))
    {
      if Answered(h1, h.owner[j]) {
        AnsweredStays(h1, h2, h.owner[j]);
      }
    }
  }

  /** No connection is dropped by a pass: every slot occupied at its start has been treated as due. */
  predicate NoneDropped(cs: seq<Client>, h: History, polls: seq<Poll>, cs': seq<Client>, h': History)
    requires Shape(cs, h) && Shape(cs', h') && |polls| == CLIENT_LIMIT
  {
    forall j :: 0 <= j < CLIENT_LIMIT && cs[j].state != Free ==>
      h'.owner[j] == h.owner[j] && Treated(cs[j], h.owner[j], polls[j], cs'[j], h')
  }

  /** Admission touches no occupied slot, and the two halves of a pass make up the whole. */
  lemma PassWhole(cs: seq<Client>, h: History, polls: seq<Poll>, cs1: seq<Client>, h1: History,
                  cs2: seq<Client>, h2: History, cs3: seq<Client>, h3: History)
    requires Shape(cs, h) && Shape(cs1, h1) && Shape(cs2, h2) && Shape(cs3, h3) && |polls| == CLIENT_LIMIT
    requires forall j :: 0 <= j < CLIENT_LIMIT && cs[j].state != Free ==> cs1[j] == cs[j] && h1.owner[j] == h.owner[j]
    requires Seen(cs1, h1, cs, polls, cs2, h2, CLIENT_LIMIT) && Waited(cs2, h2, cs3, h3) && Extends(h2, h3)
    ensures NoneDropped(cs, h, polls, cs3, h3)
  {
    forall j | 0 <= j < CLIENT_LIMIT && cs[j].state != Free
      ensures Treated(cs[j], h.owner[j], polls[j], cs3[j], h3)
    {
      assert Treated(cs1[j], h1.owner[j], polls[j], cs2[j], h2);
      if Answered(h2, h.owner[j]) {
        AnsweredStays(h2, h3, h.owner[j]);
      }
    }
  }

  /** Whether a client that is left waiting has to: an unmet legal mask and time to go. */
  predicate MayStay(c: Client, now: int, devices: nat) {
    c.state == Waiting ==>
      1 <= c.waitMask <= 7 && !Contains(devices, c.waitMask) && 0 <= now < c.deadline
  }

  /** How a waiter fares in a pass: its status, or none if it stays. */
  function Fate(c: Client, now: int, devices: nat): Option<int> {
    if c.state != Waiting then None
    else if Contains(devices, c.waitMask) then Some(OK)
    else if now < 0 || now >= c.deadline then Some(TIMEOUT)
    else None
  }

  /** No response from `from` on times a client out. */
  predicate Timeless(log: seq<Sent>, from: nat) {
    forall k :: from <= k < |log| ==> log[k].response.status != TIMEOUT
  }

  /** Responses from `from` on that time a client out were decided on the clock reading `now`. */
  predicate TimedAt(log: seq<Sent>, from: nat, now: int) {
    forall k :: from <= k < |log| && log[k].response.status == TIMEOUT ==> log[k].now == now
  }

  class Service {
    var clients: seq<Client>
    ghost var history: History

    ghost predicate Valid()
      reads this
    {
      Good(clients, history)
    }

    constructor ()
      ensures Valid() && history.peers == [] && history.log == []
    {
      clients := [VACANT, VACANT, VACANT, VACANT, VACANT, VACANT, VACANT, VACANT];
      history := History([], [], [0, 0, 0, 0, 0, 0, 0, 0]);
    }

    /** `current_devices`: a network that is up is present. */
    method CurrentDevices() returns (devices: nat)
      ensures devices < 8 && devices !in {4, 5}
    {
      devices := 0;
      var storage: bool, network: bool, up: bool := *, *, *;
      if storage {
        devices := devices + 1;
      }
      if network {
        devices := devices + 2;
        if up {
          devices := devices + 4;
        }
      }
    }

    /** `close_client`. */
    method CloseClient(i: nat)
      requires Valid() && i < CLIENT_LIMIT
      modifies this`clients
      ensures Valid() && clients == old(clients)[i := VACANT]
    {
      CloseKeeps(clients, history, i);
      clients := clients[i := VACANT];
    }

    /** `respond`: `base` is what the invariant knew of the slot before its request came in. */
    method Respond(i: nat, status: int, devices: nat, now: int, ghost base: Client)
      requires i < CLIENT_LIMIT == |clients| && Good(clients[i := base], history) && base.state != Free
      requires Proper(Reply(clients[i], history.owner[i], status, devices, now), history)
      modifies this
      ensures Valid() && clients == old(clients)[i := VACANT] && Extends(old(history), history)
      ensures history == Responded(old(history), Reply(old(clients)[i], old(history).owner[i], status, devices, now))
    {
      ghost var e := Reply(clients[i], history.owner[i], status, devices, now);
      RespondKeeps(clients[i := base], history, i, e);
      assert clients[i := base][i := VACANT] == clients[i := VACANT];
      history := Responded(history, e);
      clients := clients[i := VACANT];
    }

    /** A slot whose whole request has just come in; the invariant still knows it as `base`. */
    ghost predicate Loaded(i: nat, base: Client)
      reads this
    {
      && i < CLIENT_LIMIT == |clients| && Good(clients[i := base], history)
      && base.state == Requesting && clients[i] == base.(request := clients[i].request)
      && history.owner[i] < |history.peers|
      && clients[i].request == Padded(history.peers[history.owner[i]].packet)
    }

    /**
     * `process_request`: what is decided at once is answered at once; else the clock is read, and
     * the client told if that fails, or left to wait for as long as it asked.
     */
    method ProcessRequest(i: nat, ghost base: Client) returns (devices: nat, now: int)
      requires Loaded(i, base) && |history.peers[history.owner[i]].packet| >= REQUEST_SIZE
      modifies this
      ensures Valid() && Extends(old(history), history) && clients == old(clients)[i := clients[i]]
      ensures var c, h, n := old(clients)[i], old(history), old(history).owner[i];
              var asked := Noted(h, n, h.peers[n].(asked := Some(now)));
              match Decision(c.uid, c.request, devices) {
                case Some(status) =>
                  clients[i] == VACANT && history == Responded(h, Reply(c, n, status, devices, now))
                case None =>
                  if now < 0 then clients[i] == VACANT && history == Responded(asked, Reply(c, n, IO, devices, now))
                  else history == asked
                       && clients[i] == c.(waitMask := Value(c.request), deadline := now + Timeout(c.request),
                                           state := Waiting)
              }
    {
      assert SlotGood(clients[i := base][i], history.owner[i], history);
      var c := clients[i];
      ghost var n := history.owner[i];
      devices := CurrentDevices();
      now := 0;
      var status := Judge(c.request, c.uid, c.capabilities, devices);
      if status.Some? {
        DecisionJustified(history.peers[n], Reply(c, n, status.value, devices, now));
        Respond(i, status.value, devices, now, base);
        return;
      }
      now := *;
      Note(i, history.peers[n].(asked := Some(now)), base);
      if now < 0 {
        ghost var before := history;
        Respond(i, IO, devices, now, base);
        ExtendsBoth(old(history), before, history);
        return;
      }
      c := c.(waitMask := Value(c.request), deadline := now + Timeout(c.request), state := Waiting);
      WaitKeeps(clients[i := base], history, i, c);
      assert clients[i := base][i := c] == clients[i := c];
      clients := clients[i := c];
    }

    /** Bookkeeping about the connection of a slot that is still to ask. */
    ghost method Note(i: nat, p: Peer, base: Client)
      requires i < CLIENT_LIMIT == |clients| && Good(clients[i := base], history) && base.state == Requesting
      requires history.owner[i] < |history.peers| ==> p.uid == history.peers[history.owner[i]].uid
      modifies this`history
      ensures Good(clients[i := base], history) && Extends(old(history), history)
      ensures old(history).owner[i] < |old(history).peers| && history == Noted(old(history), old(history).owner[i], p)
    {
      NoteKeeps(clients[i := base], history, i, p);
      history := Noted(history, history.owner[i], p);
    }

    /** The octets received go over the slot's request storage. */
    method Load(i: nat, bytes: seq<byte>)
      requires Valid() && i < CLIENT_LIMIT && clients[i].state == Requesting && history.owner[i] < |history.peers|
      modifies this
      ensures Loaded(i, old(clients)[i]) && clients == old(clients)[i := clients[i]]
      ensures Extends(old(history), history)
      ensures var n := old(history).owner[i];
              history == Noted(old(history), n, old(history).peers[n].(packet := bytes))
    {
      ghost var base, n := clients[i], history.owner[i];
      assert clients[i := base] == clients && SlotGood(base, n, history);
      Note(i, history.peers[n].(packet := bytes), base);
      var length := if |bytes| < REQUEST_SIZE then |bytes| else REQUEST_SIZE;
      OverlayIsPadded(bytes);
      clients := clients[i := clients[i].(request := Overlay(clients[i].request, 0, bytes[..length]))];
      assert clients[i := base] == old(clients);
    }

    /** A short packet is refused, a whole one processed. */
    method Treat(i: nat, bytes: seq<byte>, ghost base: Client)
      requires Loaded(i, base) && history.peers[history.owner[i]].packet == bytes
      modifies this
      ensures Valid() && Extends(old(history), history) && Timeless(history.log, |old(history).log|)
      ensures clients == old(clients)[i := clients[i]] && clients[i].state != Requesting
      ensures |history.log| == |old(history).log| + if clients[i].state == Free then 1 else 0
      ensures clients[i].state == Free ==> Answered(history, history.owner[i])
      ensures history.owner == old(history).owner && history.peers[history.owner[i]].packet == bytes
    {
      assert SlotGood(clients[i := base][i], history.owner[i], history);
      if |bytes| >= REQUEST_SIZE {
        var devices, now := ProcessRequest(i, base);
      } else {
        var devices := CurrentDevices();
        Respond(i, INVALID, devices, 0, base);
      }
      if clients[i].state == Free {
        assert history.log[|history.log| - 1].connection == history.owner[i];
      }
    }

    /** `receive_request`. */
    method ReceiveRequest(i: nat, receipt: Receipt)
      requires Valid() && i < CLIENT_LIMIT && clients[i].state == Requesting
      modifies this
      ensures Valid() && Extends(old(history), history) && Timeless(history.log, |old(history).log|)
      ensures receipt == Again ==> clients == old(clients) && history == old(history)
      ensures receipt == Lost ==> clients[i] == VACANT && history == old(history)
      ensures history.owner == old(history).owner
      ensures receipt.Packet? ==>
                && clients[i].state != Requesting
                && |history.log| == |old(history).log| + (if clients[i].state == Free then 1 else 0)
                && (clients[i].state == Free ==> Answered(history, history.owner[i]))
                && history.peers[old(history).owner[i]].packet == receipt.bytes
      ensures clients == old(clients)[i := clients[i]] && old(history).owner[i] < |history.peers|
    {
      assert SlotGood(clients[i], history.owner[i], history);
      match receipt {
        case Again =>
        case Lost =>
          CloseClient(i);
        case Packet(bytes) =>
          ghost var base := clients[i];
          Load(i, bytes);
          ghost var before := history;
          Treat(i, bytes, base);
          ExtendsBoth(old(history), before, history);
      }
    }

    /**
     * `accept_client`: the connection goes to the first free slot, or is dropped. A negative `fd` or
     * `uid` stands for a failed accept or credential lookup.
     */
    method AcceptClient() returns (fd: int, uid: int)
      requires Valid()
      modifies this
      ensures Valid() && Extends(old(history), history) && history.log == old(history).log
      ensures forall i :: 0 <= i < CLIENT_LIMIT && old(clients)[i].state != Free ==>
                clients[i] == old(clients)[i] && history.owner[i] == old(history).owner[i]
      ensures fd < 0 || uid < 0 || (forall i :: 0 <= i < CLIENT_LIMIT ==> old(clients)[i].state != Free) ==>
                clients == old(clients) && history == old(history)
      ensures fd >= 0 && uid >= 0 ==>
                forall slot :: 0 <= slot < CLIENT_LIMIT && old(clients)[slot].state == Free
                               && (forall i :: 0 <= i < slot ==> old(clients)[i].state != Free) ==>
                  clients == old(clients)[slot := Admit(fd, uid)] && history == Admitted(old(history), slot, uid)
    {
      fd := *;
      uid := *;
      if fd < 0 {
        return;
      }
      var slot := 0;
      while slot < CLIENT_LIMIT && clients[slot].state != Free
        invariant 0 <= slot <= CLIENT_LIMIT && forall i :: 0 <= i < slot ==> clients[i].state != Free
      {
        slot := slot + 1;
      }
      if slot == CLIENT_LIMIT || uid < 0 {
        return;
      }
      AdmitKeeps(clients, history, slot, fd, uid);
      history := Admitted(history, slot, uid);
      clients := clients[slot := clients[slot].(fd := fd, state := Requesting, uid := uid,
                                                capabilities := PeerCapabilities(uid))];
    }

    /** What one poll result does to a slot; a slot that was free has none. */
    method ServeSlot(i: nat, wasFree: bool, poll: Poll)
      requires Valid() && i < CLIENT_LIMIT
      modifies this
      ensures Valid() && Extends(old(history), history) && Timeless(history.log, |old(history).log|)
      ensures clients == old(clients)[i := clients[i]] && history.owner == old(history).owner
      ensures var c := old(clients)[i];
              if wasFree || c.state == Free then clients[i] == c
              else Treated(c, history.owner[i], poll, clients[i], history)
    {
      if !wasFree && clients[i].state != Free {
        if poll.gone {
          CloseClient(i);
        } else if clients[i].state == Requesting && poll.readable {
          ReceiveRequest(i, poll.receipt);
        }
      }
    }

    /** The first half of a pass: nobody is timed out here. */
    method ServeRequests(polled: seq<Client>, polls: seq<Poll>)
      requires Valid() && |polled| == |polls| == CLIENT_LIMIT
      modifies this
      ensures Valid() && Extends(old(history), history) && Timeless(history.log, |old(history).log|)
      ensures Seen(old(clients), old(history), polled, polls, clients, history, CLIENT_LIMIT)
    {
      for i := 0 to CLIENT_LIMIT
        invariant Valid() && Extends(old(history), history) && Timeless(history.log, |old(history).log|)
        invariant Seen(old(clients), old(history), polled, polls, clients, history, i)
      {
        ghost var before, was := history, clients;
        ServeSlot(i, polled[i].state == Free, polls[i]);
        ExtendsBoth(old(history), before, history);
        SeenStep(old(clients), old(history), polled, polls, was, before, clients, history, i);
      }
    }

    /** A waiter whose devices are there, or whose time is up, is answered; others stay as they are. */
    method ServeWaiter(i: nat, now: int, devices: nat)
      requires Valid() && i < CLIENT_LIMIT
      modifies this
      ensures Valid() && Extends(old(history), history) && TimedAt(history.log, |old(history).log|, now)
      ensures clients == old(clients)[i := clients[i]] && MayStay(clients[i], now, devices)
      ensures var c := old(clients)[i];
              match Fate(c, now, devices) {
                case None => clients == old(clients) && history == old(history)
                case Some(status) =>
                  && clients == old(clients)[i := VACANT]
                  && history == Responded(old(history), Reply(c, old(history).owner[i], status, devices, now))
              }
    {
      var c := clients[i];
      assert SlotGood(c, history.owner[i], history) && clients[i := c] == clients;
      if c.state == Waiting {
        if Contains(devices, c.waitMask) {
          Respond(i, OK, devices, now, c);
        } else if now < 0 || now >= c.deadline {
          Respond(i, TIMEOUT, devices, now, c);
        }
      }
    }

    /** Answered, or still in its slot. */
    lemma FateAnswers(c: Client, n: nat, now: int, devices: nat, was: History)
      requires Fate(c, now, devices).Some?
      ensures var h := Responded(was, Reply(c, n, Fate(c, now, devices).value, devices, now)); Answered(h, n)
    {
      var h := Responded(was, Reply(c, n, Fate(c, now, devices).value, devices, now));
      assert h.log[|was.log|].connection == n;
    }

    /** The second half of a pass. */
    method ServeWaiters(now: int, devices: nat)
      requires Valid()
      modifies this
      ensures Valid() && Extends(old(history), history) && TimedAt(history.log, |old(history).log|, now)
      ensures forall i :: 0 <= i < CLIENT_LIMIT ==> MayStay(clients[i], now, devices)
      ensures Waited(old(clients), old(history), clients, history)
    {
      for i := 0 to CLIENT_LIMIT
        invariant Valid() && Extends(old(history), history) && TimedAt(history.log, |old(history).log|, now)
        invariant forall j :: 0 <= j < i ==> MayStay(clients[j], now, devices)
        invariant Waited(old(clients), old(history), clients, history)
      {
        ghost var before, was := history, clients;
        ServeWaiter(i, now, devices);
        ExtendsBoth(old(history), before, history);
        if Fate(was[i], now, devices).Some? {
          FateAnswers(was[i], before.owner[i], now, devices, before);
        }
        WaitedStep(old(clients), old(history), was, before, clients, history, i);
      }
    }

    /** One pass of the poll loop, with the clock and the devices it looked at. */
    method Pass(polls: seq<Poll>) returns (now: int, devices: nat)
      requires Valid() && |polls| == CLIENT_LIMIT
      modifies this
      ensures Valid() && Extends(old(history), history) && TimedAt(history.log, |old(history).log|, now)
      ensures forall i :: 0 <= i < CLIENT_LIMIT ==> MayStay(clients[i], now, devices)
      ensures NoneDropped(old(clients), old(history), polls, clients, history)
    {
      var polled := clients;
      var pending: bool := *;
      if pending {
        var _, _ := AcceptClient();
      }
      ghost var admitted, cs1 := history, clients;
      ServeRequests(polled, polls);
      ghost var served, cs2 := history, clients;
      ExtendsBoth(old(history), admitted, served);
      now := *;
      devices := CurrentDevices();
      ServeWaiters(now, devices);
      ExtendsBoth(old(history), served, history);
      PassWhole(old(clients), old(history), polls, cs1, admitted, cs2, served, clients, history);
    }

    /** Any number of passes, then the shutdown that closes every slot. */
    method Serve(passes: seq<seq<Poll>>)
      requires Valid() && forall n :: 0 <= n < |passes| ==> |passes[n]| == CLIENT_LIMIT
      modifies this
      ensures Valid() && Extends(old(history), history) && forall i :: 0 <= i < CLIENT_LIMIT ==> clients[i] == VACANT
      ensures var h := history;
              && (forall k, l :: 0 <= k < l < |h.log| ==> h.log[k].connection != h.log[l].connection)
              && (forall k :: 0 <= k < |h.log| ==> Proper(h.log[k], h))
    {
      for n := 0 to |passes|
        invariant Valid() && Extends(old(history), history)
      {
        var broken: bool := *;
        if broken {
          break;
        }
        ghost var before := history;
        var now, devices := Pass(passes[n]);
        ExtendsBoth(old(history), before, history);
      }
      for i := 0 to CLIENT_LIMIT
        invariant Valid() && Extends(old(history), history) && forall j :: 0 <= j < i ==> clients[j] == VACANT
      {
        CloseClient(i);
      }
    }
  }

  /**
   * What the log says to a client: an administrative success is root's, a wait's is complete, and a
   * time-out came no earlier than was asked for.
   */
  lemma ResponseMeaning(h: History, k: nat)
    requires LogGood(h) && k < |h.log|
    ensures var e := h.log[k];
            && e.connection < |h.peers|
            && var p := h.peers[e.connection];
               var q := Padded(p.packet);
               && e.response.capabilities == PeerCapabilities(p.uid)
               && (e.response.status == OK && Operation(q) == OP_ADMIN_PROBE ==> p.uid == 0)
               && (e.response.status == OK && Operation(q) == OP_WAIT ==>
                     LegalWait(q) && forall b: nat :: BitSet(Value(q), b) ==> BitSet(e.response.devices, b))
               && (e.response.status == TIMEOUT ==>
                     && Operation(q) == OP_WAIT
                     && (exists b: nat :: BitSet(Value(q), b) && !BitSet(e.response.devices, b))
                     && p.asked.Some? && (e.now < 0 || e.now - p.asked.value >= Timeout(q) >= 1))
  {
    var e := h.log[k];
    ContainsMeaning(e.response.devices, Value(Padded(h.peers[e.connection].packet)));
  }
}
