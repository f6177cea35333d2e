# Matchmaker rendezvous core, modelled in Dafny

Matchmaker is a UDP rendezvous server. Clients register with it so that two of
them can later learn each other's network address. This project models three
parts of its core:

- **Wire codec.** The little-endian readers and writers, the client-packet
  decoder and the server-packet encoder. A datagram is an 8-byte sequence id,
  a 2-byte tag (0 PingPong, 1 Ack, 2 Create, 3 Join, 4 Close, 5 Error) and
  that kind's fields.
- **Per-client transport.**
  - The packet shipper numbers, frames, records and retransmits outbound
    packets, and retires them when they are acknowledged.
  - The packet receiver acknowledges every inbound packet and forwards only
    those at or above its high-water mark.
- **Server registry.**
  - The client table, keyed by address.
  - The session index, from session key to owner address.
  - The allow-list of client hashes.
  - Session creation and removal, and the dispatch of one decoded client
    packet in the event loop.

Modules, one per file:

| file | module | contents |
|---|---|---|
| `wrappers.dfy` | `Wrappers` | `Option`, and `Position`, the first index satisfying a predicate |
| `wire.dfy` | `Wire` | byte, `u16`/`u32`/`u64`, little-endian value `Le` and encoding `ToLe` |
| `utf8.dfy` | `Utf8` | well-formed UTF-8 as defined in section 4 of RFC 3629 (what `std::str::from_utf8` accepts) |
| `codec.dfy` | `Codec` | cursor-style readers returning `Read(value, rest)`, writers, and their round trips |
| `packets.dfy` | `Packets` | packet kinds and packets, the decoder, the encoder, and reference codecs for the directions the repository leaves to its clients |
| `roundtrip.dfy` | `RoundTrip` | every packet decodes back from its encoding whatever follows it, and no truncated datagram decodes |
| `transport.dfy` | `Transport` | `Socket` stand-in, `PacketShipper` and `PacketReceiver` classes |
| `rendezvous.dfy` | `Rendezvous` | key generation, the pure `Registry` view and its invariant, and the `Server` class |

`Server` keeps the source's fields (`port`, `clients`, `sessions`,
`validClientHashes`). Its methods are proved against transition functions on
`Registry`:

- `Created` (create_session);
- `Dropped` (drop_client_session);
- `Handled` (handle_packet);
- `Dispatched` (the ClientPacket branch of `poll`).

The invariant `Consistent` says two things. Every index entry names a client
whose session carries that key. Every client's session is indexed under its
key. Every transition keeps `Consistent`, and uniqueness of keys follows from
it.

Time, randomness and the socket are parameters:

- **Time.** Times are integer clock readings (`now`). `Instant::elapsed`
  becomes `Elapsed`, which saturates at zero.
- **Retry delay.** The delay derived from `TICK_RATE` is the parameter
  `retryDelay`. The file that defines `TICK_RATE` is not part of this model.
- **Key generation.** `rand`'s `Alphanumeric` sampler is a supplied stream of
  draws, each an index below 62 into "A".."Z", "a".."z", "0".."9".
- **Socket.** The UDP socket is a `Socket` object. It records accepted
  datagrams in `outbox`. It takes its success or failure per `send_to` from a
  scripted `outcomes` list; once the list is used up, every send succeeds.

Where the code and its own packet names and comments suggest different
behaviour, the model follows the code:

- **Sessions index.** In the code, `sessions` maps each key to a `Client`
  value. It is modelled as key to owner address, the address under which
  that client sits in `clients`.
- **No allow-list check.** `handle_packet` never consults the allow-list.
  The model's Create ignores the client hash.
- **Only a new address can create.** `create_session` refuses any address
  already in the client table, not just one that owns a session. So a Create
  from a known sender never opens a session (`KnownSenderCannotCreate`).

Matchmaker's source does not compile in places, for example `if Some(data) =`
without `let`, and `socket_addr` for `socket_address`. The model follows the
evident meaning of such lines:

- The receiver stored for a known client is the one updated.
- A forwarded packet is handled.
- A new sender is stored once, with the receiver that acknowledged its first
  packet. When that packet was Create, the sender keeps the session that
  `create_session` opened (see Findings). The stored mark is then id + 1, so a
  retransmitted copy of the first datagram is not forwarded again.

Three functions model source lines without a row of their own, because the
lemmas about them carry the contracts:

- `Packets.PacketIdToU16` is the `as u16` discriminant of each tag
  (src/packets/packets.rs:6-14).
- `Transport.NextExpectedAsWritten` is the receiver's wrapping `id + 1` as
  written (src/packets/packets.rs:163).
- `Rendezvous.DispatchedAsWritten` is the new-connection branch of `poll` as
  written (src/main.rs:87-101).

## Model

| member | source | states |
|---|---|---|
| Wrappers.Position | src/packets/packets.rs:112-118 | `Iterator::position`: when some index is returned, it satisfies the predicate and no earlier element does; when none is, no element does |
| Wire.Limits | src/packets/packets.rs:293-316 | the 2-, 4- and 8-byte little-endian ranges are exactly the u16, u32 and u64 ranges |
| Wire.Le | src/packets/packets.rs:195-239 | the little-endian value of n bytes is below 256^n |
| Wire.ToLe | src/packets/packets.rs:293-316 | the encoding has the requested width, and a value that fits decodes back to itself |
| Wire.ToLeOfLe | src/packets/packets.rs:195-239 | re-encoding the value of any byte string at its own width gives the same bytes |
| Utf8.CharWidth | src/packets/packets.rs:252 | the width of the leading UTF-8 character is at most 4 and at most the input length; an ASCII byte is a 1-byte character, and only an ASCII byte is |
| Utf8.AsciiIsValid | src/packets/packets.rs:252 | every ASCII string is accepted by `from_utf8` |
| Utf8.AsciiPrefix | src/packets/packets.rs:252 | an ASCII prefix does not change whether a string is well-formed |
| Codec.ReadByte | src/packets/packets.rs:179-189 | fails exactly on empty input, leaving it empty; otherwise returns the first byte and advances past it |
| Codec.ReadBool | src/packets/packets.rs:191-193 | fails exactly on empty input; the value is true exactly when the byte is non-zero |
| Codec.ReadU16 | src/packets/packets.rs:195-208 | succeeds exactly with at least 2 bytes, returning their little-endian value and the rest; a short input is consumed entirely |
| Codec.ReadU32 | src/packets/packets.rs:210-224 | the same with 4 bytes |
| Codec.ReadU64 | src/packets/packets.rs:226-239 | the same with 8 bytes |
| Codec.ReadString | src/packets/packets.rs:246-259 | a short input fails and is consumed entirely; otherwise the cursor always advances `len` bytes, and the value is those bytes exactly when they are well-formed UTF-8 |
| Codec.ReadStringU8 | src/packets/packets.rs:241-244 | empty input and a length byte larger than what follows fail and consume everything; otherwise the result is the string of that length, present exactly when it is well-formed |
| Codec.WriteBool | src/packets/packets.rs:288-291 | appends one byte, 1 for true and 0 for false |
| Codec.WriteU16 | src/packets/packets.rs:293-299 | appends 2 bytes whose little-endian value is the number, keeping the buffer before them |
| Codec.WriteU32 | src/packets/packets.rs:301-308 | appends 4 such bytes |
| Codec.WriteU64 | src/packets/packets.rs:310-316 | appends 8 such bytes |
| Codec.PrefixLen | src/packets/packets.rs:319-323 | the length byte is the string length when it is below 255, and 255 otherwise |
| Codec.WriteStringU8 | src/packets/packets.rs:318-327 | appends a length byte equal to the number of bytes that follow, then that many leading bytes of the string: all of it when it has at most 255 bytes, exactly 255 otherwise |
| Codec.ReadWriteBool | src/packets/packets.rs:191-193 | reading a written bool gives it back and leaves what followed |
| Codec.ReadWriteU16 | src/packets/packets.rs:195-208 | reading a written u16 gives it back and leaves what followed |
| Codec.ReadWriteU32 | src/packets/packets.rs:210-224 | the same for u32 |
| Codec.ReadWriteU64 | src/packets/packets.rs:226-239 | the same for u64 |
| Codec.WriteStringU8Appends | src/packets/packets.rs:318-327 | writing after a buffer appends the string's own encoding |
| Codec.ReadWriteStringU8 | src/packets/packets.rs:241-259 | a string of at most 255 bytes is read back from its encoding, leaving what followed |
| Codec.ReadWriteLongStringU8 | src/packets/packets.rs:318-327 | a longer string reads back as its first 255 bytes, and only when that cut is well-formed; either way the reader stops at what followed |
| Codec.SkipStringU8 | src/packets/packets.rs:241-259 | whatever the string, the reader lands exactly after its encoding |
| Codec.TruncationSplitsCharacter | src/packets/packets.rs:318-327 | a valid 256-byte string (254 ASCII bytes then a 2-byte character) whose 255-byte cut is not valid: the writer can emit a string the reader rejects |
| Codec.TruncatedStringU8 | src/packets/packets.rs:241-259 | no proper prefix of a written string reads as a string |
| Codec.TruncatedU64 | src/packets/packets.rs:226-239 | fewer than 8 written bytes never read as a u64, and they are consumed |
| Packets.PacketIdFromU16 | src/packets/packets.rs:6-14 | `FromPrimitive`: a tag maps to a kind exactly when it is at most 5, and to the kind whose discriminant it is |
| Packets.ParseHeaders | src/packets/packets.rs:261-263 | succeeds exactly with at least 8 bytes, which are the little-endian encoding of the sequence id |
| Packets.ParseFields | src/packets/packets.rs:268-283 | a decoded packet is of the kind given by the tag; tag 5 (Error) yields nothing |
| Packets.ParsePacket | src/packets/packets.rs:265-284 | fails under 2 bytes and on any tag of 5 or more; on success, the first two bytes are the packet's own tag |
| Packets.ParseClientPacket | src/packets/packets.rs:362-364 | fails under 10 bytes and on a tag of 5 or more; on success, bytes 0-7 encode the returned id and bytes 8-9 the packet's tag |
| Packets.BuildServerPacket | src/packets/packets.rs:329-360 | the tag first; Pong and Close are 2 bytes; Ack is 10 bytes carrying the id; Create and Join are the tag, a length byte of at most 255, and that many leading bytes of the key or address; Error is the tag, the 8-byte id, the length byte and the message cut to that length |
| Packets.ServerDatagram | src/packets/packets.rs:76-80 | the shipper's framing is 8 header bytes longer than the packet |
| RoundTrip.ParseAckFields | src/packets/packets.rs:270-272 | Ack fields read back |
| RoundTrip.ParseCreateFields | src/packets/packets.rs:273-276 | Create's hash then bool read back in declaration order |
| RoundTrip.ParseJoinFields | src/packets/packets.rs:277-280 | Join's hash then key read back in declaration order |
| RoundTrip.ParseClientFields | src/packets/packets.rs:268-283 | the fields of every client packet whose strings fit read back as that packet |
| RoundTrip.ParseClientPayload | src/packets/packets.rs:265-284 | tag plus fields of every fitting client packet decode back to it, whatever follows |
| RoundTrip.ParseClientPacketAfterHeader | src/packets/packets.rs:362-364 | after a complete 8-byte header, the datagram decodes as its payload does, paired with the header's id |
| RoundTrip.ParseEncodedClientPacket | src/packets/packets.rs:362-364 | every encoded client datagram decodes back to its id and packet, whatever trails it |
| RoundTrip.TruncatedCreateFields | src/packets/packets.rs:273-276 | a cut Create payload never decodes |
| RoundTrip.TruncatedJoinFields | src/packets/packets.rs:277-280 | a cut Join payload never decodes |
| RoundTrip.TruncatedClientFields | src/packets/packets.rs:268-283 | cutting any packet's fields makes them undecodable |
| RoundTrip.TruncatedClientPacket | src/packets/packets.rs:362-364 | no proper prefix of an encoded datagram decodes: the decoder fails closed on truncation |
| RoundTrip.ParseServerAckFields | src/packets/packets.rs:337-340 | an Ack built by the server reads back |
| RoundTrip.ParseServerStringFields | src/packets/packets.rs:341-348 | a Create or Join built by the server reads back when its string fits |
| RoundTrip.ParseServerErrorFields | src/packets/packets.rs:352-356 | an Error's id then message read back |
| RoundTrip.ParseBuiltServerFields | src/packets/packets.rs:329-360 | every built packet is its tag followed by fields that read back as the packet |
| RoundTrip.ParseBuiltServerPacket | src/packets/packets.rs:329-360 | every fitting server packet decodes back from `build_server_packet`'s bytes, whatever trails them |
| RoundTrip.ParseServerDatagramRoundTrip | src/packets/packets.rs:76-80 | a datagram framed by the shipper decodes to its sequence id and packet |
| Transport.Socket.SendTo | src/packets/packets.rs:82 | `send_to` succeeds as its outcome says, uses one outcome, and records the datagram only when it succeeds |
| Transport.DueCount | src/packets/packets.rs:97-100 | `take_while`: every packet before the count is due, and the one at the count, if any, is not |
| Transport.SendsBeforeFailure | src/packets/packets.rs:102-109 | the count of successful sends is at most the number attempted; all of them succeeded, and when it is short, the next send failed |
| Transport.SendsStopAt | src/packets/packets.rs:102-109 | a run of successes ending at a failure or at the last due packet is exactly that count |
| Transport.Acknowledged | src/packets/packets.rs:112-118 | an absent id leaves the backlog unchanged; a present one shortens it by one |
| Transport.AcknowledgeRemovesExactly | src/packets/packets.rs:112-118 | acknowledging keeps ids increasing and below the next id, and keeps exactly the entries whose id differs |
| Transport.AcknowledgeIdempotent | src/packets/packets.rs:112-118 | acknowledging the same id twice equals acknowledging it once |
| Transport.PacketShipper.constructor | src/packets/packets.rs:68-74 | a shipper starts at id 0 with an empty backlog |
| Transport.PacketShipper.Send | src/packets/packets.rs:76-91 | frames with the current id, sends once (a failure is ignored), appends the packet with that id and time to the backlog, advances the id by one, and keeps the backlog ordered |
| Transport.PacketShipper.ResendUnacknowledgedPackets | src/packets/packets.rs:94-110 | resends the front run of due packets in order, stops at the first failed send, and uses one outcome per attempt |
| Transport.PacketShipper.Acknowledge | src/packets/packets.rs:112-118 | the backlog becomes `Acknowledged(backlog, id)` and stays ordered |
| Transport.NextExpected | src/packets/packets.rs:159-165 | the high-water mark never decreases, ends above the arrived id, and is id + 1 for an accepted packet |
| Transport.AfterArrivalsNeverDecreases | src/packets/packets.rs:159-165 | over any run of arrivals the mark never decreases |
| Transport.AfterArrivalsConcat | src/packets/packets.rs:159-165 | processing two runs in turn equals processing them joined |
| Transport.NoIdForwardedTwice | src/packets/packets.rs:159-165 | once an id has arrived, every later arrival of the same id is below the mark and is dropped |
| Transport.AsWrittenWrapResetsDedupe | src/packets/packets.rs:163 | with `id + 1` on u64, the largest id resets the mark to 0, and an old id is forwarded again |
| Transport.PacketReceiver.constructor | src/packets/packets.rs:137-144 | a receiver starts at mark 0, last heard at construction |
| Transport.PacketReceiver.SortPackets | src/packets/packets.rs:150-166 | records the time, always sends an Ack for the id, forwards the packet exactly when its id is at or above the mark, and moves the mark to `NextExpected`; the recorded time is what `GetLastMessageTime` (`get_last_message_time`, lines 146-148) returns |
| Transport.PacketReceiver.SendAck | src/packets/packets.rs:168-174 | sends the built Ack packet, without a sequence header, to the receiver's address; a failure is ignored |
| Rendezvous.AlphanumericChar | src/main.rs:51 | every draw maps to an alphanumeric character |
| Rendezvous.AlphanumericIndex | src/main.rs:51 | every alphanumeric character has a draw mapping to it |
| Rendezvous.GenerateKey | src/main.rs:49-55 | a generated key is 7 alphanumeric characters |
| Rendezvous.GenerateKeyInjective | src/main.rs:49-55 | different draws give different keys |
| Rendezvous.EveryKeyIsGenerated | src/main.rs:49-55 | every 7-character alphanumeric key can be generated |
| Rendezvous.FirstFresh | src/main.rs:161-164 | the chosen candidate is not an open key, and every candidate before it is |
| Rendezvous.KeysUnique | src/main.rs:164 | in a consistent registry, no two clients hold sessions with the same key |
| Rendezvous.RegisteredKeepsConsistent | src/main.rs:171-172 | entering a new address with no session, or with a well-formed unindexed key, keeps the registry consistent |
| Rendezvous.CreatedKeepsConsistent | src/main.rs:157-184 | session creation keeps every index entry resolving to its owner and every session indexed |
| Rendezvous.DroppedKeepsConsistent | src/main.rs:196-206 | removing a client and its key leaves no dangling index entry |
| Rendezvous.HandledKeepsConsistent | src/main.rs:108-131 | every arm of `handle_packet` keeps the registry consistent |
| Rendezvous.DispatchedKeepsConsistent | src/main.rs:76-102 | every dispatch step of `poll`, corrected as under Findings, keeps the registry consistent |
| Rendezvous.DispatchedRegistersSender | src/main.rs:76-102 | after dispatch the sender is in the table unless it was a known client whose Close was forwarded; a new sender holds a session exactly when its packet was Create, with the requested protection |
| Rendezvous.KnownSenderCannotCreate | src/main.rs:157-160 | a Create from an address already in the table changes nothing |
| Rendezvous.AsWrittenDispatchLeavesDanglingKey | src/main.rs:87-101 | as written, a new client's first packet being Create leaves an index entry whose owner holds no session |
| Rendezvous.AckSent | src/packets/packets.rs:168-174 | at most one Ack goes out, exactly when the socket accepts it; it is addressed to the sender and decodes as Ack(id) |
| Rendezvous.Server.constructor | src/main.rs:40-47 | a server starts with the given port, no clients, no sessions and an empty allow-list |
| Rendezvous.PasswordCommandIsOneToken | src/main.rs:57-59 | `IsPasswordCommand` accepts "PASSWORD-ONLY" and no other token: two accepted tokens are equal, and a lower-case, padded or shortened form is refused |
| Rendezvous.Server.HasKey | src/main.rs:137-139 | in a consistent server, true exactly when some client's session has that key |
| Rendezvous.Server.HasSocket | src/main.rs:141-143 | true exactly for addresses in the client table; an unknown address owns no session |
| Rendezvous.Server.ValidClientHash | src/main.rs:145-147 | true exactly when some allow-list entry equals the hash |
| Rendezvous.Server.SupportClientHashes | src/main.rs:153-155 | replaces the allow-list and nothing else |
| Rendezvous.Server.FindFreshKey | src/main.rs:161-178 | the retry loop stops at the first candidate that is not an open key |
| Rendezvous.Server.CreateSession | src/main.rs:157-184 | a known address gets None and nothing changes; a new one gets a fresh client and a session under the first fresh key, the key is returned, and the server stays consistent |
| Rendezvous.Server.GetClientFromSession | src/main.rs:186-188 | in a consistent server, found exactly for an open key; the client found is the table's entry for the key's owner, and it holds that key |
| Rendezvous.Server.GetClientFromOpenSession | src/main.rs:190-194 | returns some client with an unprotected session, or None only when every session is protected |
| Rendezvous.Server.DropClientSession | src/main.rs:196-206 | reports whether the address was known, and removes it together with its session's index entry |
| Rendezvous.Server.HandlePacket | src/main.rs:108-131 | Create runs `create_session`, Close runs `drop_client_session`, and the other arms change nothing |
| Rendezvous.Server.PollKnownClient | src/main.rs:81-86 | the stored receiver acknowledges the id, records the time and moves its mark to `NextExpected`; only a forwarded packet is handled; the table is unchanged except that a forwarded Close removes the sender |
| Rendezvous.Server.PollNewClient | src/main.rs:87-102 | a fresh receiver acknowledges and forwards the packet; the sender, and no other entry, is added to the table, with that receiver (mark id + 1, time now), an empty fresh shipper, and the session handling opened, if any |
| Rendezvous.Server.AcceptFirst | src/main.rs:89-97 | the new connection's receiver and shipper are fresh and talk to the sender; the receiver has acknowledged the id and forwards the packet, with mark id + 1 |
| Rendezvous.Server.HandleFirst | src/main.rs:97-101 | the first packet is handled and the sender stored under its address with the acknowledging receiver, the other entries unchanged |
| Rendezvous.Server.Admit | src/main.rs:101 | stores the sender with the given receiver; a sender already stored keeps its shipper and session, a new one gets the given shipper and no session; the index is unchanged |
| Rendezvous.Server.Register | src/main.rs:171-172 | stores a client and indexes its key, keeping the server consistent |
| Rendezvous.Server.PollClientPacket | src/main.rs:76-103 | one ClientPacket event: the socket takes the Ack for the id, addressed to the sender, exactly when its next send succeeds; the registry makes the `Dispatched` step, with the packet forwarded for a new sender or an id at or above the stored mark; a known sender's receiver gets mark `NextExpected` and the time, and the table changes only by a forwarded Close's removal; a new sender is the one entry added, with a fresh receiver at mark id + 1 and an empty fresh shipper; the socket uses one outcome; port and allow-list are unchanged; the server stays consistent |

## Left out

- `main`, process startup, parsing the port and reading `hashes.txt`
  (`file_read_lines`): file and console I/O.
- Printing: `print_key`, `test_hash`, and the `println!` in `create_session`.
- The listening thread, the `mpsc` channel and the message enum: concurrency
  and I/O. The model starts at one received `ThreadMessage::ClientPacket`.
- Binding the socket and reading the 100-byte datagram buffer: I/O.
- The Ping, Ack and Join arms of `handle_packet` and the replies of the Create
  arm. They are `TODO` comments in the source and do nothing.
- The heartbeat/ping-pong timer and silence eviction: the source has no code
  for them beyond the unused `last_ping_pong` and `time` variables.
- The receiver's `backed_up` vector and the `RecievedPacket` type: never read
  or written.
- `Instant`: replaced by integer clock readings passed as `now`.
- `TICK_RATE` and the retry delay derived from it: the file defining
  `TICK_RATE` is not part of this model, so the delay is the parameter
  `retryDelay`.
- `SocketAddr::to_string` in the Join server packet: the model carries the
  already formatted address string (`clientAddr`).
- Rendezvous.GenerateKey: does not model `rand`'s generator, because it is
  randomness. The model takes the seven draws as input.
- Rendezvous.Server.CreateSession: requires that the supplied candidate stream
  contain a key that is not open. The source's `loop` has no bound and would
  not end otherwise.
- Transport.PacketShipper.Send: requires that the next id is below
  2^64 - 1. The source's `next_id += 1` would overflow at the largest id.
- Transport.PacketReceiver.SortPackets: keeps the mark as an unbounded
  integer, the corrected behaviour under Findings, not the source's u64
  `id + 1`.
- Rendezvous.Server.GetClientFromOpenSession: does not fix HashMap iteration
  order. It promises some matching client, not a particular one.
- Aliasing of `Client` values between `clients` and `sessions`: the index
  holds owner addresses, so a session reaches its client through the table.

## Findings

| source | as written | input that shows it | evidently intended | confidence | as-written member | corrected member |
|---|---|---|---|---|---|---|
| src/main.rs:87-101 | the new-connection branch handles the packet and then always inserts a fresh client with no session under the sender's address | the first packet from a new address is Create: `create_session` stores a client with a session and indexes its key, then the insert replaces that client, leaving an index entry whose owner holds no session | store the sender once, with the receiver that acknowledged its packet and the session that `create_session` opened, if any | high (not executed) | Rendezvous.AsWrittenDispatchLeavesDanglingKey | Rendezvous.DispatchedKeepsConsistent |
| src/packets/packets.rs:163 | `self.next_id = id + 1` on u64, with the id chosen by the peer | ids 3, 4, then 2^64 - 1: the mark wraps to 0 (or the server panics when overflow checks are on), and a replayed 3 is forwarded again | a high-water mark that never falls back, so a seen id is never forwarded twice | high (not executed) | Transport.AsWrittenWrapResetsDedupe | Transport.NoIdForwardedTwice |
