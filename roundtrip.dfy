/** Framing properties of the packet codec: every packet kind decodes back
    from its encoding, whatever trails it, and no truncated encoding decodes. */
module RoundTrip {
  import opened Wrappers
  import opened Wire
  import opened Codec
  import opened Packets

  /** After a well-formed tag, decoding continues with that kind's fields. */
  lemma ParsePacketAfterTag(buf: Bytes, kind: PacketId, rest: Bytes)
    requires buf == WriteU16([], PacketIdToU16(kind)) + rest
    ensures ParsePacket(buf) == ParseFields(kind, rest)
  {
    assert ReadU16(buf) == Read(Some(PacketIdToU16(kind)), rest) by {
      ReadWriteU16(PacketIdToU16(kind), rest);
    }
    assert PacketIdFromU16(PacketIdToU16(kind)) == Some(kind);
  }

  /** The same for the client side's decoder of server packets: a tag and
      fields that decode, followed by anything, decode. */
  lemma ParseServerPacketAfterTag(packet: Bytes, kind: PacketId, fields: Bytes, tail: Bytes, p: ServerPacket)
    requires packet == WriteU16([], PacketIdToU16(kind)) + fields
    requires ParseServerFields(kind, fields + tail) == Some(p)
    ensures ParseServerPacket(packet + tail) == Some(p)
  {
    var tag := WriteU16([], PacketIdToU16(kind));
    var buf := packet + tail;
    var rest := fields + tail;
    assert buf == tag + rest by {
      AppendAssoc(tag, fields, tail);
    }
    assert ReadU16(buf) == Read(Some(PacketIdToU16(kind)), rest) by {
      ReadWriteU16(PacketIdToU16(kind), rest);
    }
    assert PacketIdFromU16(PacketIdToU16(kind)) == Some(kind);
  }

  lemma ParseAckFields(x: u64, tail: Bytes)
    ensures ParseFields(PacketId.Ack, WriteU64([], x) + tail) == Some(ClientPacket.Ack(x))
  {
    ReadWriteU64(x, tail);
  }

  lemma ParseCreateFields(h: Text, pp: bool, tail: Bytes)
    requires |h| <= MAX_STRING_LEN
    ensures ParseFields(PacketId.Create, WriteBool(WriteStringU8([], h), pp) + tail)
         == Some(ClientPacket.Create(h, pp))
  {
    var s := WriteStringU8([], h);
    assert WriteBool(s, pp) + tail == s + (WriteBool([], pp) + tail);
    ReadWriteStringU8(h, WriteBool([], pp) + tail);
    ReadWriteBool(pp, tail);
  }

  lemma ParseJoinFields(h: Text, k: Text, tail: Bytes)
    requires |h| <= MAX_STRING_LEN && |k| <= MAX_STRING_LEN
    ensures ParseFields(PacketId.Join, WriteStringU8(WriteStringU8([], h), k) + tail)
         == Some(ClientPacket.Join(h, k))
  {
    var s1 := WriteStringU8([], h);
    var s2 := WriteStringU8([], k);
    var buf := s1 + (s2 + tail);
    assert WriteStringU8(s1, k) + tail == buf by {
      WriteStringU8Appends(s1, k);
    }
    assert ReadStringU8(buf) == Read(Some(h), s2 + tail) by {
      ReadWriteStringU8(h, s2 + tail);
    }
    assert ReadStringU8(s2 + tail) == Read(Some(k), tail) by {
      ReadWriteStringU8(k, tail);
    }
    JoinFieldsStep(buf, h, k, s2 + tail, tail);
  }

  /** Join's fields are two strings read one after the other. */
  lemma JoinFieldsStep(buf: Bytes, h: Text, k: Text, rest: Bytes, tail: Bytes)
    requires ReadStringU8(buf) == Read(Some(h), rest)
    requires ReadStringU8(rest) == Read(Some(k), tail)
    ensures ParseFields(PacketId.Join, buf) == Some(ClientPacket.Join(h, k))
  {
  }

  lemma ParseClientFields(p: ClientPacket, tail: Bytes)
    requires ClientFits(p)
    ensures ParseFields(ClientPacketId(p), ClientFields(p) + tail) == Some(p)
  {
    match p
    case Ping =>
    case Close =>
    case Ack(x) => ParseAckFields(x, tail);
    case Create(h, pp) => ParseCreateFields(h, pp, tail);
    case Join(h, k) => ParseJoinFields(h, k, tail);
  }

  /** The payload of a client packet decodes back to the packet. */
  lemma ParseClientPayload(p: ClientPacket, tail: Bytes)
    requires ClientFits(p)
    ensures ParsePacket(ClientPayload(p) + tail) == Some(p)
  {
    var kind := ClientPacketId(p);
    var tag := WriteU16([], PacketIdToU16(kind));
    var fields := ClientFields(p);
    assert ClientPayload(p) + tail == tag + (fields + tail) by {
      AppendAssoc(tag, fields, tail);
    }
    ParseClientFields(p, tail);
    ParsePacketAfterTag(ClientPayload(p) + tail, kind, fields + tail);
  }

  /** Concatenation regroups freely. */
  lemma AppendAssoc(a: Bytes, b: Bytes, c: Bytes)
    ensures (a + b) + c == a + (b + c)
  {
  }

  /** After a complete header, decoding continues with the payload. */
  lemma ParseClientPacketAfterHeader(buf: Bytes, id: u64, rest: Bytes)
    requires buf == WriteU64([], id) + rest
    ensures ParseClientPacket(buf)
         == match ParsePacket(rest) case None => None case Some(p) => Some((id, p))
  {
    assert ReadU64(buf) == Read(Some(id), rest) by {
      ReadWriteU64(id, rest);
    }
  }

  /** Decoding an encoded datagram gives back its sequence id and packet;
      trailing bytes are ignored. */
  lemma ParseEncodedClientPacket(id: u64, p: ClientPacket, tail: Bytes)
    requires ClientFits(p)
    ensures ParseClientPacket(EncodeClientPacket(id, p) + tail) == Some((id, p))
  {
    var header := WriteU64([], id);
    var payload := ClientPayload(p) + tail;
    assert EncodeClientPacket(id, p) + tail == header + payload by {
      AppendAssoc(header, ClientPayload(p), tail);
    }
    ParseClientPayload(p, tail);
    ParseClientPacketAfterHeader(EncodeClientPacket(id, p) + tail, id, payload);
  }

  lemma TruncatedCreateFields(h: Text, pp: bool, m: nat)
    requires m < |WriteBool(WriteStringU8([], h), pp)|
    ensures ParseFields(PacketId.Create, WriteBool(WriteStringU8([], h), pp)[..m]) == None
  {
    var s := WriteStringU8([], h);
    var b := WriteBool([], pp);
    assert WriteBool(s, pp) == s + b;
    if m < |s| {
      assert (s + b)[..m] == s[..m];
      TruncatedStringU8(h, m);
    } else {
      assert (s + b)[..m] == s + [];
      SkipStringU8(h, []);
    }
  }

  lemma TruncatedJoinFields(h: Text, k: Text, m: nat)
    requires m < |WriteStringU8(WriteStringU8([], h), k)|
    ensures ParseFields(PacketId.Join, WriteStringU8(WriteStringU8([], h), k)[..m]) == None
  {
    var s1 := WriteStringU8([], h);
    var s2 := WriteStringU8([], k);
    assert WriteStringU8(s1, k) == s1 + s2;
    if m < |s1| {
      assert (s1 + s2)[..m] == s1[..m];
      TruncatedStringU8(h, m);
    } else {
      PrefixOfConcat(s1, s2, m);
      SkipStringU8(h, s2[..m - |s1|]);
      TruncatedStringU8(k, m - |s1|);
    }
  }

  /** Cutting the fields of a client packet anywhere makes them undecodable. */
  lemma TruncatedClientFields(p: ClientPacket, m: nat)
    requires m < |ClientFields(p)|
    ensures ParseFields(ClientPacketId(p), ClientFields(p)[..m]) == None
  {
    match p
    case Ping =>
    case Close =>
    case Ack(x) => TruncatedU64(x, m);
    case Create(h, pp) => TruncatedCreateFields(h, pp, m);
    case Join(h, k) => TruncatedJoinFields(h, k, m);
  }

  lemma PrefixOfConcat(a: Bytes, b: Bytes, k: nat)
    requires |a| <= k <= |a| + |b|
    ensures (a + b)[..k] == a + b[..k - |a|]
  {
  }

  /** No proper prefix of an encoded datagram decodes: a truncated header or
      a truncated payload is rejected. */
  lemma TruncatedClientPacket(id: u64, p: ClientPacket, k: nat)
    requires k < |EncodeClientPacket(id, p)|
    ensures ParseClientPacket(EncodeClientPacket(id, p)[..k]) == None
  {
    if k >= 10 {
      var kind := ClientPacketId(p);
      var header := WriteU64([], id);
      var tag := WriteU16([], PacketIdToU16(kind));
      var fields := ClientFields(p)[..k - 10];
      var cut := EncodeClientPacket(id, p)[..k];
      assert cut == header + (tag + fields) by {
        assert EncodeClientPacket(id, p) == header + (tag + ClientFields(p));
        PrefixOfConcat(tag, ClientFields(p), k - 8);
        PrefixOfConcat(header, tag + ClientFields(p), k);
      }
      assert ParsePacket(tag + fields) == None by {
        ParsePacketAfterTag(tag + fields, kind, fields);
        TruncatedClientFields(p, k - 10);
      }
      ParseClientPacketAfterHeader(cut, id, tag + fields);
    }
  }

  lemma ParseServerAckFields(x: u64, tail: Bytes)
    ensures ParseServerFields(PacketId.Ack, WriteU64([], x) + tail) == Some(ServerPacket.Ack(x))
  {
    ReadWriteU64(x, tail);
  }

  lemma ParseServerStringFields(kind: PacketId, s: Text, tail: Bytes)
    requires kind == PacketId.Create || kind == PacketId.Join
    requires |s| <= MAX_STRING_LEN
    ensures ParseServerFields(kind, WriteStringU8([], s) + tail)
         == Some(if kind == PacketId.Create then ServerPacket.Create(s) else ServerPacket.Join(s))
  {
    ReadWriteStringU8(s, tail);
  }

  lemma ParseServerErrorFields(x: u64, message: Text, tail: Bytes)
    requires |message| <= MAX_STRING_LEN
    ensures ParseServerFields(PacketId.Error, WriteStringU8(WriteU64([], x), message) + tail)
         == Some(ServerPacket.Error(x, message))
  {
    var f := WriteU64([], x);
    var s := WriteStringU8([], message);
    var buf := f + (s + tail);
    assert WriteStringU8(f, message) + tail == buf by {
      WriteStringU8Appends(f, message);
    }
    assert ReadU64(buf) == Read(Some(x), s + tail) by {
      ReadWriteU64(x, s + tail);
    }
    assert ReadStringU8(s + tail) == Read(Some(message), tail) by {
      ReadWriteStringU8(message, tail);
    }
    ErrorFieldsStep(buf, x, message, s + tail, tail);
  }

  /** Error's fields are a sequence id followed by a string. */
  lemma ErrorFieldsStep(buf: Bytes, x: u64, message: Text, rest: Bytes, tail: Bytes)
    requires ReadU64(buf) == Read(Some(x), rest)
    requires ReadStringU8(rest) == Read(Some(message), tail)
    ensures ParseServerFields(PacketId.Error, buf) == Some(ServerPacket.Error(x, message))
  {
  }

  /** The bytes after the tag of a built server packet are its fields, and
      they decode back to the packet. */
  lemma ParseBuiltServerFields(p: ServerPacket, tail: Bytes)
    requires ServerFits(p)
    ensures BuildServerPacket(p) == WriteU16([], PacketIdToU16(ServerPacketId(p))) + BuildServerPacket(p)[2..]
    ensures ParseServerFields(ServerPacketId(p), BuildServerPacket(p)[2..] + tail) == Some(p)
  {
    var r := BuildServerPacket(p);
    var tag := WriteU16([], PacketIdToU16(ServerPacketId(p)));
    assert r[..2] == tag;
    assert r == r[..2] + r[2..];
    match p
    case Pong =>
    case Close =>
    case Ack(x) =>
      assert r[2..] == WriteU64([], x);
      ParseServerAckFields(x, tail);
    case Create(key) =>
      assert r[2..] == WriteStringU8([], key);
      ParseServerStringFields(PacketId.Create, key, tail);
    case Join(addr) =>
      assert r[2..] == WriteStringU8([], addr);
      ParseServerStringFields(PacketId.Join, addr, tail);
    case Error(x, message) =>
      assert r[2..] == WriteStringU8(WriteU64([], x), message);
      ParseServerErrorFields(x, message, tail);
  }

  /** Every server packet whose strings fit decodes back with the client's
      decoder, whatever trails it. */
  lemma ParseBuiltServerPacket(p: ServerPacket, tail: Bytes)
    requires ServerFits(p)
    ensures ParseServerPacket(BuildServerPacket(p) + tail) == Some(p)
  {
    ParseBuiltServerFields(p, tail);
    ParseServerPacketAfterTag(BuildServerPacket(p), ServerPacketId(p), BuildServerPacket(p)[2..], tail, p);
  }

  /** A datagram framed by the shipper decodes to its sequence id and packet. */
  lemma ParseServerDatagramRoundTrip(id: u64, p: ServerPacket)
    requires ServerFits(p)
    ensures ParseServerDatagram(ServerDatagram(id, p)) == Some((id, p))
  {
    ReadWriteU64(id, BuildServerPacket(p));
    assert BuildServerPacket(p) + [] == BuildServerPacket(p);
    ParseBuiltServerPacket(p, []);
  }
}
