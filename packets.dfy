/** The control packets of the rendezvous protocol and their wire format:
    8-byte little-endian sequence id, 2-byte little-endian tag, then the
    fields of that packet kind. */
module Packets {
  import opened Wrappers
  import opened Wire
  import opened Codec

  /** The tags, with the discriminants that `as u16` gives them. */
  datatype PacketId = PingPong | Ack | Create | Join | Close | Error

  function PacketIdToU16(id: PacketId): u16
  {
    match id
    case PingPong => 0
    case Ack => 1
    case Create => 2
    case Join => 3
    case Close => 4
    case Error => 5
  }

  /** `num::FromPrimitive::from_u16`: defined exactly on the six discriminants,
      and the inverse of `PacketIdToU16` there. */
  function PacketIdFromU16(tag: u16): (r: Option<PacketId>)
    ensures r.Some? <==> tag <= 5
    ensures r.Some? ==> PacketIdToU16(r.value) == tag
    ensures forall id: PacketId :: PacketIdToU16(id) == tag ==> r == Some(id)
  {
    if tag == 0 then Some(PingPong)
    else if tag == 1 then Some(PacketId.Ack)
    else if tag == 2 then Some(PacketId.Create)
    else if tag == 3 then Some(PacketId.Join)
    else if tag == 4 then Some(PacketId.Close)
    else if tag == 5 then Some(PacketId.Error)
    else None
  }

  /** Packets the server sends. */
  datatype ServerPacket =
    | Pong
    | Ack(id: u64)
    | Create(sessionKey: Text)
    | Join(clientAddr: Text)   // the peer's socket address as text (its formatting is not modelled)
    | Close
    | Error(id: u64, message: Text)

  /** Packets clients send. */
  datatype ClientPacket =
    | Ping
    | Ack(id: u64)
    | Create(clientHash: Text, passwordProtected: bool)
    | Join(clientHash: Text, sessionKey: Text)
    | Close

  function ClientPacketId(p: ClientPacket): PacketId
  {
    match p
    case Ping => PingPong
    case Ack(_) => PacketId.Ack
    case Create(_, _) => PacketId.Create
    case Join(_, _) => PacketId.Join
    case Close => PacketId.Close
  }

  function ServerPacketId(p: ServerPacket): PacketId
  {
    match p
    case Pong => PingPong
    case Ack(_) => PacketId.Ack
    case Create(_) => PacketId.Create
    case Join(_) => PacketId.Join
    case Close => PacketId.Close
    case Error(_, _) => PacketId.Error
  }

  // ---------------------------------------------------------------- decoder

  function ParseHeaders(buf: Bytes): (r: Read<u64>)
    ensures r.value.Some? <==> |buf| >= 8
    ensures r.value.Some? ==> buf == ToLe(r.value.value, 8) + r.rest
  {
    ReadU64(buf)
  }

  /** Decodes the tag and the fields of a client packet; the bytes after them
      are ignored. */
  function ParsePacket(buf: Bytes): (r: Option<ClientPacket>)
    ensures |buf| < 2 ==> r.None?
    ensures |buf| >= 2 && Le(buf[..2]) >= 5 ==> r.None?
    ensures r.Some? ==> buf[..2] == ToLe(PacketIdToU16(ClientPacketId(r.value)), 2)
  {
    var tag := ReadU16(buf);
    if tag.value.None? then None
    else
      assert buf[..2] == ToLe(tag.value.value, 2);
      Limits();
      match PacketIdFromU16(tag.value.value)
      case None => None
      case Some(kind) =>
        var r := ParseFields(kind, tag.rest);
        assert r.Some? ==> ClientPacketId(r.value) == kind;
        r
  }

  /** The fields of a client packet of the given kind, read in declaration
      order; tag 5 (Error) is not a client packet. */
  function ParseFields(kind: PacketId, buf: Bytes): (r: Option<ClientPacket>)
    ensures r.Some? ==> ClientPacketId(r.value) == kind
  {
    match kind
    case PingPong => Some(ClientPacket.Ping)
    case Ack =>
      var id := ReadU64(buf);
      if id.value.None? then None else Some(ClientPacket.Ack(id.value.value))
    case Create =>
      var hash := ReadStringU8(buf);
      if hash.value.None? then None
      else
        var pp := ReadBool(hash.rest);
        if pp.value.None? then None
        else Some(ClientPacket.Create(hash.value.value, pp.value.value))
    case Join =>
      var hash := ReadStringU8(buf);
      if hash.value.None? then None
      else
        var key := ReadStringU8(hash.rest);
        if key.value.None? then None
        else Some(ClientPacket.Join(hash.value.value, key.value.value))
    case Close => Some(ClientPacket.Close)
    case Error => None
  }

  /** Decodes a whole datagram into its sequence id and packet. */
  function ParseClientPacket(buf: Bytes): (r: Option<(u64, ClientPacket)>)
    ensures |buf| < 10 ==> r.None?
    ensures |buf| >= 10 && Le(buf[8..10]) >= 5 ==> r.None?
    ensures r.Some? ==> buf[..8] == ToLe(r.value.0, 8)
    ensures r.Some? ==> buf[8..10] == ToLe(PacketIdToU16(ClientPacketId(r.value.1)), 2)
  {
    var header := ParseHeaders(buf);
    if header.value.None? then None
    else
      assert header.rest == buf[8..];
      assert buf[..8] == ToLe(header.value.value, 8);
      assert |buf| >= 10 ==> header.rest[..2] == buf[8..10];
      match ParsePacket(header.rest)
      case None => None
      case Some(p) => Some((header.value.value, p))
  }

  // ---------------------------------------------------------------- encoder

  /** Writes the tag and then the fields of a server packet. */
  function BuildServerPacket(p: ServerPacket): (r: Bytes)
    ensures |r| >= 2 && r[..2] == ToLe(PacketIdToU16(ServerPacketId(p)), 2)
    ensures p.Pong? || p.Close? ==> |r| == 2
    ensures p.Ack? ==> |r| == 10 && r[2..] == ToLe(p.id, 8)
    ensures p.Create? ==> |r| == 3 + PrefixLen(p.sessionKey)
    ensures p.Create? ==> r[2] == PrefixLen(p.sessionKey) && r[3..] == p.sessionKey[..PrefixLen(p.sessionKey)]
    ensures p.Join? ==> |r| == 3 + PrefixLen(p.clientAddr)
    ensures p.Join? ==> r[2] == PrefixLen(p.clientAddr) && r[3..] == p.clientAddr[..PrefixLen(p.clientAddr)]
    ensures p.Error? ==> |r| == 11 + PrefixLen(p.message) && r[2..10] == ToLe(p.id, 8)
    ensures p.Error? ==> r[10] == PrefixLen(p.message) && r[11..] == p.message[..PrefixLen(p.message)]
  {
    var tag := WriteU16([], PacketIdToU16(ServerPacketId(p)));
    Limits();
    ToLeOfLe(tag);
    match p
    case Pong => tag
    case Ack(id) =>
      var r := WriteU64(tag, id);
      ToLeOfLe(r[2..]);
      r
    case Create(key) => WriteStringU8(tag, key)
    case Join(addr) => WriteStringU8(tag, addr)
    case Close => tag
    case Error(id, message) =>
      var withId := WriteU64(tag, id);
      ToLeOfLe(withId[2..]);
      var r := WriteStringU8(withId, message);
      assert r[..10] == withId;
      assert r[2..10] == withId[2..];
      r
  }

  /** A datagram as the shipper frames it: sequence id, then the packet. */
  function ServerDatagram(id: u64, p: ServerPacket): (r: Bytes)
    ensures |r| == 8 + |BuildServerPacket(p)|
  {
    WriteU64([], id) + BuildServerPacket(p)
  }

  // ------------------------------------------- partners for the round trips

  /** Every string field fits the one-byte length prefix. */
  predicate ClientFits(p: ClientPacket)
  {
    match p
    case Create(h, _) => |h| <= MAX_STRING_LEN
    case Join(h, k) => |h| <= MAX_STRING_LEN && |k| <= MAX_STRING_LEN
    case _ => true
  }

  predicate ServerFits(p: ServerPacket)
  {
    match p
    case Create(k) => |k| <= MAX_STRING_LEN
    case Join(a) => |a| <= MAX_STRING_LEN
    case Error(_, m) => |m| <= MAX_STRING_LEN
    case _ => true
  }

  /** The client side of the protocol, which is not in this repository: the
      tag and fields of a client packet, written with the codec's writers. */
  function ClientPayload(p: ClientPacket): Bytes
  {
    WriteU16([], PacketIdToU16(ClientPacketId(p))) + ClientFields(p)
  }

  function ClientFields(p: ClientPacket): Bytes
  {
    match p
    case Ping => []
    case Ack(id) => WriteU64([], id)
    case Create(hash, pp) => WriteBool(WriteStringU8([], hash), pp)
    case Join(hash, key) => WriteStringU8(WriteStringU8([], hash), key)
    case Close => []
  }

  function EncodeClientPacket(id: u64, p: ClientPacket): Bytes
  {
    WriteU64([], id) + ClientPayload(p)
  }

  /** The client side's decoder of server packets (tag 5 is Error here). */
  function ParseServerPacket(buf: Bytes): Option<ServerPacket>
  {
    var tag := ReadU16(buf);
    if tag.value.None? then None
    else match PacketIdFromU16(tag.value.value)
      case None => None
      case Some(kind) => ParseServerFields(kind, tag.rest)
  }

  function ParseServerFields(kind: PacketId, buf: Bytes): Option<ServerPacket>
  {
    match kind
    case PingPong => Some(ServerPacket.Pong)
    case Ack =>
      var id := ReadU64(buf);
      if id.value.None? then None else Some(ServerPacket.Ack(id.value.value))
    case Create =>
      var key := ReadStringU8(buf);
      if key.value.None? then None else Some(ServerPacket.Create(key.value.value))
    case Join =>
      var addr := ReadStringU8(buf);
      if addr.value.None? then None else Some(ServerPacket.Join(addr.value.value))
    case Close => Some(ServerPacket.Close)
    case Error =>
      var id := ReadU64(buf);
      if id.value.None? then None
      else
        var message := ReadStringU8(id.rest);
        if message.value.None? then None
        else Some(ServerPacket.Error(id.value.value, message.value.value))
  }

  function ParseServerDatagram(buf: Bytes): Option<(u64, ServerPacket)>
  {
    var header := ReadU64(buf);
    if header.value.None? then None
    else match ParseServerPacket(header.rest)
      case None => None
      case Some(p) => Some((header.value.value, p))
  }
}
