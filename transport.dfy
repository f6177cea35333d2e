/** The per-client reliable transport: the shipper numbers, records and
    retransmits outbound packets; the receiver acknowledges every inbound
    packet and suppresses those below its high-water mark. */
module Transport {
  import opened Wrappers
  import opened Wire
  import opened Codec
  import opened Packets

  /** A remote endpoint: its IP address bytes and its port. */
  datatype SocketAddr = SocketAddr(ip: Bytes, port: u16)

  datatype Datagram = Datagram(to: SocketAddr, data: Bytes)

  /** Whether the next `send_to` succeeds under the scripted outcomes; once
      the script is exhausted every send succeeds. */
  function Accepts(outcomes: seq<bool>): bool
  {
    outcomes == [] || outcomes[0]
  }

  function Consume(outcomes: seq<bool>): (r: seq<bool>)
    ensures |r| == if outcomes == [] then 0 else |outcomes| - 1
  {
    if outcomes == [] then [] else outcomes[1..]
  }

  /** The UDP socket as the transport sees it: `send_to` either hands a
      datagram to the network (recorded in `outbox`) or fails; which of the
      two happens is given by `outcomes`, one entry per call. */
  class Socket {
    var outbox: seq<Datagram>
    var outcomes: seq<bool>

    constructor (outcomes: seq<bool>)
      ensures this.outbox == [] && this.outcomes == outcomes
    {
      this.outbox := [];
      this.outcomes := outcomes;
    }

    method SendTo(data: Bytes, to: SocketAddr) returns (ok: bool)
      modifies this
      ensures ok == Accepts(old(outcomes))
      ensures outcomes == Consume(old(outcomes))
      ensures outbox == old(outbox) + if ok then [Datagram(to, data)] else []
    {
      ok := Accepts(outcomes);
      outcomes := Consume(outcomes);
      if ok {
        outbox := outbox + [Datagram(to, data)];
      }
    }
  }

  // --------------------------------------------------------------- shipper

  /** An outbound packet awaiting acknowledgement; times are clock ticks. */
  datatype Packet = Packet(id: u64, creationTime: nat, data: Bytes)

  /** The backlog invariant: ids strictly increase from oldest to newest and
      are all below the next id to be assigned. */
  predicate Ordered(backlog: seq<Packet>, nextId: nat)
  {
    && (forall i, j :: 0 <= i < j < |backlog| ==> backlog[i].id < backlog[j].id)
    && (forall i :: 0 <= i < |backlog| ==> backlog[i].id < nextId)
  }

  /** `Instant::elapsed`, which saturates at zero. */
  function Elapsed(since: nat, now: nat): nat
  {
    if now >= since then now - since else 0
  }

  predicate Due(p: Packet, now: nat, retryDelay: nat)
  {
    Elapsed(p.creationTime, now) >= retryDelay
  }

  /** The length of the longest front run of due packets (the `take_while`). */
  function DueCount(backlog: seq<Packet>, now: nat, retryDelay: nat): (n: nat)
    ensures n <= |backlog|
    ensures forall i :: 0 <= i < n ==> Due(backlog[i], now, retryDelay)
    ensures n < |backlog| ==> !Due(backlog[n], now, retryDelay)
  {
    if backlog == [] || !Due(backlog[0], now, retryDelay) then 0
    else 1 + DueCount(backlog[1..], now, retryDelay)
  }

  /** How many of `n` sends in a row succeed before the first failure. */
  function SendsBeforeFailure(n: nat, outcomes: seq<bool>): (k: nat)
    ensures k <= n
    ensures forall j :: 0 <= j < k && j < |outcomes| ==> outcomes[j]
    ensures k < n ==> k < |outcomes| && !outcomes[k]
  {
    if n == 0 then 0
    else if !Accepts(outcomes) then 0
    else
      var k := 1 + SendsBeforeFailure(n - 1, Consume(outcomes));
      assert forall j :: 1 <= j < |outcomes| ==> Consume(outcomes)[j - 1] == outcomes[j];
      k
  }

  /** A run of `i` successful sends that ends at a failure, or at the `n`th
      send, is exactly the run `SendsBeforeFailure` counts. */
  lemma SendsStopAt(n: nat, outcomes: seq<bool>, i: nat)
    requires i <= n
    requires forall j :: 0 <= j < i && j < |outcomes| ==> outcomes[j]
    requires i == n || (i < |outcomes| && !outcomes[i])
    ensures SendsBeforeFailure(n, outcomes) == i
  {
  }

  /** The number of sends attempted: the successful ones and the failing one. */
  function Attempts(n: nat, outcomes: seq<bool>): nat
  {
    var k := SendsBeforeFailure(n, outcomes);
    if k < n then k + 1 else n
  }

  function Drop(outcomes: seq<bool>, m: nat): seq<bool>
  {
    if m >= |outcomes| then [] else outcomes[m..]
  }

  /** The datagrams that resending `packets` to `to` hands to the network. */
  function Retransmissions(to: SocketAddr, packets: seq<Packet>): seq<Datagram>
  {
    seq(|packets|, i requires 0 <= i < |packets| => Datagram(to, packets[i].data))
  }

  /** The backlog after acknowledging `id`: the first entry with that id
      removed, or the backlog unchanged when there is none. */
  function Acknowledged(backlog: seq<Packet>, id: u64): (r: seq<Packet>)
    ensures (forall i :: 0 <= i < |backlog| ==> backlog[i].id != id) ==> r == backlog
    ensures (exists i :: 0 <= i < |backlog| && backlog[i].id == id) ==> |r| == |backlog| - 1
  {
    match Position(backlog, (p: Packet) => p.id == id)
    case None => backlog
    case Some(i) => backlog[..i] + backlog[i + 1..]
  }

  /** Where the entries of a backlog with entry `i` removed come from. */
  lemma RemovedAt(backlog: seq<Packet>, i: nat)
    requires i < |backlog|
    ensures var r := backlog[..i] + backlog[i + 1..];
      |r| == |backlog| - 1 &&
      forall k :: 0 <= k < |r| ==> r[k] == backlog[if k < i then k else k + 1]
  {
  }

  /** Acknowledging keeps the invariant and removes exactly the entry with
      that id, keeping every other entry. */
  lemma AcknowledgeRemovesExactly(backlog: seq<Packet>, nextId: nat, id: u64)
    requires Ordered(backlog, nextId)
    ensures Ordered(Acknowledged(backlog, id), nextId)
    ensures forall p :: p in Acknowledged(backlog, id) <==> p in backlog && p.id != id
  {
    var r := Acknowledged(backlog, id);
    match Position(backlog, (p: Packet) => p.id == id)
    case None =>
    case Some(i) =>
      RemovedAt(backlog, i);
      AcknowledgedOrdered(backlog, nextId, i, r);
      AcknowledgedMembers(backlog, nextId, id, i, r);
  }

  lemma AcknowledgedOrdered(backlog: seq<Packet>, nextId: nat, i: nat, r: seq<Packet>)
    requires Ordered(backlog, nextId) && i < |backlog|
    requires |r| == |backlog| - 1
    requires forall k :: 0 <= k < |r| ==> r[k] == backlog[if k < i then k else k + 1]
    ensures Ordered(r, nextId)
  {
    forall a, b | 0 <= a < b < |r| ensures r[a].id < r[b].id {
      assert r[a] == backlog[if a < i then a else a + 1];
      assert r[b] == backlog[if b < i then b else b + 1];
    }
    forall a | 0 <= a < |r| ensures r[a].id < nextId {
      assert r[a] == backlog[if a < i then a else a + 1];
    }
  }

  lemma AcknowledgedMembers(backlog: seq<Packet>, nextId: nat, id: u64, i: nat, r: seq<Packet>)
    requires Ordered(backlog, nextId) && i < |backlog| && backlog[i].id == id
    requires |r| == |backlog| - 1
    requires forall k :: 0 <= k < |r| ==> r[k] == backlog[if k < i then k else k + 1]
    ensures forall p :: p in r <==> p in backlog && p.id != id
  {
    forall p ensures p in r <==> p in backlog && p.id != id {
      if p in r {
        var k :| 0 <= k < |r| && r[k] == p;
        var k' := if k < i then k else k + 1;
        assert backlog[k'] == p && k' != i;
        assert backlog[k'].id != backlog[i].id;
      }
      if p in backlog && p.id != id {
        var k :| 0 <= k < |backlog| && backlog[k] == p;
        assert k != i;
        assert r[if k < i then k else k - 1] == p;
      }
    }
  }

  /** Acknowledging the same id twice leaves the backlog as acknowledging it once. */
  lemma AcknowledgeIdempotent(backlog: seq<Packet>, nextId: nat, id: u64)
    requires Ordered(backlog, nextId)
    ensures Acknowledged(Acknowledged(backlog, id), id) == Acknowledged(backlog, id)
  {
    var once := Acknowledged(backlog, id);
    AcknowledgeRemovesExactly(backlog, nextId, id);
    forall i | 0 <= i < |once| ensures once[i].id != id {
      assert once[i] in once;
    }
  }

  class PacketShipper {
    const socketAddress: SocketAddr
    var nextId: u64
    var backedUp: seq<Packet>

    predicate Valid()
      reads this
    {
      Ordered(backedUp, nextId)
    }

    constructor (socketAddress: SocketAddr)
      ensures this.socketAddress == socketAddress
      ensures nextId == 0 && backedUp == [] && Valid()
    {
      this.socketAddress := socketAddress;
      nextId := 0;
      backedUp := [];
    }

    /** Frames the packet with the current id, sends it (a failed send is
      ignored), records it at the end of the backlog and advances the id. */
    method Send(socket: Socket, packet: ServerPacket, now: nat)
      requires Valid() && nextId < U64_LIMIT - 1
      modifies this, socket
      ensures Valid()
      ensures nextId == old(nextId) + 1
      ensures backedUp == old(backedUp) + [Packet(old(nextId), now, ServerDatagram(old(nextId), packet))]
      ensures socket.outcomes == Consume(old(socket.outcomes))
      ensures socket.outbox == old(socket.outbox) +
        if Accepts(old(socket.outcomes)) then [Datagram(socketAddress, ServerDatagram(old(nextId), packet))] else []
    {
      var data := WriteU64([], nextId) + BuildServerPacket(packet);
      var _ := socket.SendTo(data, socketAddress);
      backedUp := backedUp + [Packet(nextId, now, data)];
      nextId := nextId + 1;
    }

    /** Retransmits the front run of packets at least `retryDelay` old, in
      order, stopping at the first failed send; the backlog is not changed. */
    method ResendUnacknowledgedPackets(socket: Socket, now: nat, retryDelay: nat)
      modifies socket
      ensures socket.outbox == old(socket.outbox) +
        Retransmissions(socketAddress, backedUp[..SendsBeforeFailure(DueCount(backedUp, now, retryDelay), old(socket.outcomes))])
      ensures socket.outcomes == Drop(old(socket.outcomes), Attempts(DueCount(backedUp, now, retryDelay), old(socket.outcomes)))
    {
      ghost var due := DueCount(backedUp, now, retryDelay);
      ghost var script := socket.outcomes;
      var i := 0;
      while i < |backedUp| && Due(backedUp[i], now, retryDelay)
        invariant i <= due
        invariant forall j :: 0 <= j < i && j < |script| ==> script[j]
        invariant socket.outcomes == Drop(script, i)
        invariant socket.outbox == old(socket.outbox) + Retransmissions(socketAddress, backedUp[..i])
      {
        assert Accepts(socket.outcomes) == (i >= |script| || script[i]);
        var ok := socket.SendTo(backedUp[i].data, socketAddress);
        if !ok {
          SendsStopAt(due, script, i);
          break;
        }
        assert backedUp[..i + 1] == backedUp[..i] + [backedUp[i]];
        i := i + 1;
      }
      if i == due {
        SendsStopAt(due, script, i);
      }
    }

    method Acknowledge(id: u64)
      requires Valid()
      modifies this
      ensures Valid() && nextId == old(nextId)
      ensures backedUp == Acknowledged(old(backedUp), id)
    {
      AcknowledgeRemovesExactly(backedUp, nextId, id);
      var position := Position(backedUp, (p: Packet) => p.id == id);
      if position.Some? {
        backedUp := backedUp[..position.value] + backedUp[position.value + 1..];
      }
    }
  }

  // -------------------------------------------------------------- receiver

  /** The high-water mark after a packet with `id` arrives. */
  function NextExpected(nextId: nat, id: nat): (r: nat)
    ensures r >= nextId && r > id
    ensures id >= nextId ==> r == id + 1
  {
    if id < nextId then nextId else id + 1
  }

  /** The high-water mark after a run of arrivals. */
  function AfterArrivals(nextId: nat, ids: seq<nat>): nat
    decreases ids
  {
    if ids == [] then nextId else AfterArrivals(NextExpected(nextId, ids[0]), ids[1..])
  }

  lemma {:induction false} AfterArrivalsNeverDecreases(nextId: nat, ids: seq<nat>)
    ensures AfterArrivals(nextId, ids) >= nextId
    decreases ids
  {
    if ids != [] {
      AfterArrivalsNeverDecreases(NextExpected(nextId, ids[0]), ids[1..]);
    }
  }

  lemma {:induction false} AfterArrivalsConcat(nextId: nat, a: seq<nat>, b: seq<nat>)
    ensures AfterArrivals(nextId, a + b) == AfterArrivals(AfterArrivals(nextId, a), b)
    decreases a
  {
    if a == [] {
      assert a + b == b;
    } else {
      assert (a + b)[1..] == a[1..] + b;
      AfterArrivalsConcat(NextExpected(nextId, a[0]), a[1..], b);
    }
  }

  /** Dedupe: once a packet id has arrived, any later arrival of the same id
      falls below the high-water mark and is not forwarded. */
  lemma NoIdForwardedTwice(nextId: nat, ids: seq<nat>, i: nat, j: nat)
    requires i < j < |ids| && ids[i] == ids[j]
    ensures ids[j] < AfterArrivals(nextId, ids[..j])
  {
    var before := AfterArrivals(nextId, ids[..i]);
    assert ids[..j] == ids[..i] + ([ids[i]] + ids[i + 1..j]);
    AfterArrivalsConcat(nextId, ids[..i], [ids[i]] + ids[i + 1..j]);
    assert ([ids[i]] + ids[i + 1..j])[1..] == ids[i + 1..j];
    AfterArrivalsNeverDecreases(NextExpected(before, ids[i]), ids[i + 1..j]);
  }

  /** The source's `id + 1` on a `u64`: it wraps to zero at the largest id
      (in a build without overflow checks; with them it panics). */
  function NextExpectedAsWritten(nextId: u64, id: u64): u64
  {
    if id < nextId then nextId else (id + 1) % U64_LIMIT
  }

  /** After a packet with the largest id, the mark is back at zero, so an old
      packet (id 3 after id 4 was seen) is forwarded a second time. */
  lemma AsWrittenWrapResetsDedupe()
    ensures NextExpectedAsWritten(5, U64_LIMIT - 1) == 0
    ensures !(3 < NextExpectedAsWritten(NextExpectedAsWritten(NextExpectedAsWritten(3, 3), 4), U64_LIMIT - 1))
  {
  }

  class PacketReceiver {
    const socketAddress: SocketAddr
    var nextId: nat
    var lastMessageTime: nat

    constructor (socketAddress: SocketAddr, now: nat)
      ensures this.socketAddress == socketAddress
      ensures nextId == 0 && lastMessageTime == now
    {
      this.socketAddress := socketAddress;
      nextId := 0;
      lastMessageTime := now;
    }

    function GetLastMessageTime(): nat
      reads this
    {
      lastMessageTime
    }

    /** Refreshes the liveness time, acknowledges `id` and forwards the packet
      unless its id is below the high-water mark. */
    method SortPackets(socket: Socket, id: u64, packet: ClientPacket, now: nat) returns (r: Option<ClientPacket>)
      modifies this, socket
      ensures lastMessageTime == now
      ensures r == if id < old(nextId) then None else Some(packet)
      ensures nextId == NextExpected(old(nextId), id)
      ensures socket.outcomes == Consume(old(socket.outcomes))
      ensures socket.outbox == old(socket.outbox) +
        if Accepts(old(socket.outcomes)) then [Datagram(socketAddress, BuildServerPacket(ServerPacket.Ack(id)))] else []
    {
      lastMessageTime := now;
      SendAck(socket, id);
      if id < nextId {
        r := None;
      } else {
        nextId := id + 1;
        r := Some(packet);
      }
    }

    /** Sends an Ack for `id` as a bare packet, without a sequence header. */
    method SendAck(socket: Socket, id: u64)
      modifies socket
      ensures socket.outcomes == Consume(old(socket.outcomes))
      ensures socket.outbox == old(socket.outbox) +
        if Accepts(old(socket.outcomes)) then [Datagram(socketAddress, BuildServerPacket(ServerPacket.Ack(id)))] else []
    {
      var buf := BuildServerPacket(ServerPacket.Ack(id));
      var _ := socket.SendTo(buf, socketAddress);
    }
  }
}
