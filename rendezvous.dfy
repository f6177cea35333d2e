/** The rendezvous registry: the client table keyed by address, the index of
    open sessions keyed by session key, and the allow-list of client hashes. */
module Rendezvous {
  import opened Wrappers
  import opened Wire
  import opened Codec
  import opened Packets
  import opened Transport
  import RoundTrip

  // ----------------------------------------------------------- session keys

  type Key = seq<char>

  const KEY_LEN: nat := 7

  predicate IsAlphanumeric(c: char)
  {
    'A' <= c <= 'Z' || 'a' <= c <= 'z' || '0' <= c <= '9'
  }

  predicate IsKey(k: Key)
  {
    |k| == KEY_LEN && forall i :: 0 <= i < |k| ==> IsAlphanumeric(k[i])
  }

  /** One sample of `rand`'s `Alphanumeric` distribution: an index into its
      62-character set "A".."Z", "a".."z", "0".."9". */
  type Draw = d: nat | d < 62

  /** The seven samples that make one key. */
  type KeyDraws = s: seq<Draw> | |s| == KEY_LEN witness [0, 0, 0, 0, 0, 0, 0]

  function AlphanumericChar(d: Draw): (c: char)
    ensures IsAlphanumeric(c)
  {
    if d < 26 then (('A' as int) + d) as char
    else if d < 52 then (('a' as int) + d - 26) as char
    else (('0' as int) + d - 52) as char
  }

  function AlphanumericIndex(c: char): (d: Draw)
    requires IsAlphanumeric(c)
    ensures AlphanumericChar(d) == c
  {
    if 'A' <= c <= 'Z' then (c as int) - ('A' as int)
    else if 'a' <= c <= 'z' then (c as int) - ('a' as int) + 26
    else (c as int) - ('0' as int) + 52
  }

  /** `generate_key`: seven samples mapped to characters. */
  function GenerateKey(draws: KeyDraws): (k: Key)
    ensures IsKey(k)
  {
    seq(KEY_LEN, i requires 0 <= i < KEY_LEN => AlphanumericChar(draws[i]))
  }

  /** The generator is injective ... */
  lemma GenerateKeyInjective(a: KeyDraws, b: KeyDraws)
    requires GenerateKey(a) == GenerateKey(b)
    ensures a == b
  {
    forall i | 0 <= i < KEY_LEN ensures a[i] == b[i] {
      assert GenerateKey(a)[i] == GenerateKey(b)[i];
      assert AlphanumericIndex(AlphanumericChar(a[i])) == a[i];
      assert AlphanumericIndex(AlphanumericChar(b[i])) == b[i];
    }
  }

  /** ... and reaches every key: its range is exactly the 7-character
      alphanumeric strings. */
  lemma EveryKeyIsGenerated(k: Key)
    requires IsKey(k)
    ensures exists draws: KeyDraws :: GenerateKey(draws) == k
  {
    var draws: KeyDraws := seq(KEY_LEN, i requires 0 <= i < KEY_LEN => AlphanumericIndex(k[i]));
    assert GenerateKey(draws) == k;
  }

  /** Some candidate in the stream misses the index, so the retry loop of
      `create_session` ends. */
  predicate HasFresh(draws: seq<KeyDraws>, index: map<Key, SocketAddr>)
  {
    exists i :: 0 <= i < |draws| && GenerateKey(draws[i]) !in index
  }

  /** The position of the first candidate that misses the index. */
  function FirstFresh(draws: seq<KeyDraws>, index: map<Key, SocketAddr>): (i: nat)
    requires HasFresh(draws, index)
    ensures i < |draws| && GenerateKey(draws[i]) !in index
    ensures forall j :: 0 <= j < i ==> GenerateKey(draws[j]) in index
  {
    if GenerateKey(draws[0]) !in index then 0
    else
      var w :| 0 <= w < |draws| && GenerateKey(draws[w]) !in index;
      assert GenerateKey(draws[1..][w - 1]) !in index;
      1 + FirstFresh(draws[1..], index)
  }

  // ------------------------------------------------------ the registry view

  datatype Session = Session(key: Key, passwordProtected: bool)

  datatype Client = Client(receiver: PacketReceiver, shipper: PacketShipper, session: Option<Session>)

  /** What the registry's invariants are about: each known address with its
      session, if any, and the index from session key to owner address. */
  datatype Registry = Registry(owners: map<SocketAddr, Option<Session>>, index: map<Key, SocketAddr>)

  /** Every indexed key is well-formed and belongs to a client in the table
      whose session carries that key, and every client's session is indexed
      under its key. */
  predicate Consistent(r: Registry)
  {
    && (forall k :: k in r.index ==>
          IsKey(k) && r.index[k] in r.owners &&
          r.owners[r.index[k]].Some? && r.owners[r.index[k]].value.key == k)
    && (forall a :: a in r.owners && r.owners[a].Some? ==>
          r.owners[a].value.key in r.index && r.index[r.owners[a].value.key] == a)
  }

  /** Session keys are unique among clients. */
  lemma KeysUnique(r: Registry, a: SocketAddr, b: SocketAddr)
    requires Consistent(r)
    requires a in r.owners && b in r.owners && r.owners[a].Some? && r.owners[b].Some?
    requires r.owners[a].value.key == r.owners[b].value.key
    ensures a == b
  {
  }

  /** A new address entered in the view, with its session's key indexed. */
  function Registered(r: Registry, a: SocketAddr, session: Option<Session>): Registry
  {
    Registry(r.owners[a := session], if session.None? then r.index else r.index[session.value.key := a])
  }

  /** `create_session` on the view: nothing changes for a known address;
      otherwise the address gets a session under the first fresh key. */
  function Created(r: Registry, a: SocketAddr, passwordProtected: bool, draws: seq<KeyDraws>): Registry
    requires a !in r.owners ==> HasFresh(draws, r.index)
  {
    if a in r.owners then r
    else Registered(r, a, Some(Session(GenerateKey(draws[FirstFresh(draws, r.index)]), passwordProtected)))
  }

  /** `drop_client_session` on the view: the address and its key go together. */
  function Dropped(r: Registry, a: SocketAddr): Registry
  {
    if a !in r.owners then r
    else
      var owners := r.owners - {a};
      match r.owners[a]
      case None => Registry(owners, r.index)
      case Some(session) => Registry(owners, r.index - {session.key})
  }

  /** Entering a new address keeps the view consistent when its session, if
      any, has a well-formed key that is not yet indexed. */
  lemma RegisteredKeepsConsistent(r: Registry, a: SocketAddr, session: Option<Session>)
    requires Consistent(r) && a !in r.owners
    requires session.Some? ==> IsKey(session.value.key) && session.value.key !in r.index
    ensures Consistent(Registered(r, a, session))
  {
    var r' := Registered(r, a, session);
    forall k | k in r'.index
      ensures IsKey(k) && r'.index[k] in r'.owners
      ensures r'.owners[r'.index[k]].Some? && r'.owners[r'.index[k]].value.key == k
    {
      if session.None? || k != session.value.key {
        assert r.index[k] in r.owners;
      }
    }
  }

  lemma CreatedKeepsConsistent(r: Registry, a: SocketAddr, passwordProtected: bool, draws: seq<KeyDraws>)
    requires Consistent(r)
    requires a !in r.owners ==> HasFresh(draws, r.index)
    ensures Consistent(Created(r, a, passwordProtected, draws))
  {
    if a !in r.owners {
      var key := GenerateKey(draws[FirstFresh(draws, r.index)]);
      RegisteredKeepsConsistent(r, a, Some(Session(key, passwordProtected)));
    }
  }

  lemma DroppedKeepsConsistent(r: Registry, a: SocketAddr)
    requires Consistent(r)
    ensures Consistent(Dropped(r, a))
  {
    if a in r.owners {
      var r' := Dropped(r, a);
      forall k | k in r'.index
        ensures r'.index[k] in r'.owners
      {
        assert r.index[k] != a;
      }
    }
  }

  /** The source's `handle_packet`: Create runs `create_session` (its reply
      and the allow-list check are absent), Close runs `drop_client_session`,
      and the other arms do nothing. */
  function Handled(r: Registry, a: SocketAddr, p: ClientPacket, draws: seq<KeyDraws>): Registry
    requires p.Create? && a !in r.owners ==> HasFresh(draws, r.index)
  {
    match p
    case Create(_, passwordProtected) => Created(r, a, passwordProtected, draws)
    case Close => Dropped(r, a)
    case _ => r
  }

  /** The dispatch step of `poll` for a packet from `a`. For a known address
      the stored receiver decides whether the packet is handled; a new
      address gets a fresh client with no session once the packet has been
      handled, unless handling already registered it. */
  function Dispatched(r: Registry, a: SocketAddr, forwarded: bool, p: ClientPacket, draws: seq<KeyDraws>): Registry
    requires p.Create? && a !in r.owners ==> HasFresh(draws, r.index)
  {
    if a in r.owners then
      if forwarded then Handled(r, a, p, draws) else r
    else
      var handled := Handled(r, a, p, draws);
      if a in handled.owners then handled
      else Registered(handled, a, None)
  }

  /** The dispatch step as the source writes it: the fresh client is inserted
      after handling, over whatever handling put there. */
  function DispatchedAsWritten(r: Registry, a: SocketAddr, forwarded: bool, p: ClientPacket, draws: seq<KeyDraws>): Registry
    requires p.Create? && a !in r.owners ==> HasFresh(draws, r.index)
  {
    if a in r.owners then
      if forwarded then Handled(r, a, p, draws) else r
    else
      var handled := Handled(r, a, p, draws);
      Registered(handled, a, None)
  }

  lemma HandledKeepsConsistent(r: Registry, a: SocketAddr, p: ClientPacket, draws: seq<KeyDraws>)
    requires Consistent(r)
    requires p.Create? && a !in r.owners ==> HasFresh(draws, r.index)
    ensures Consistent(Handled(r, a, p, draws))
  {
    match p
    case Create(_, passwordProtected) => CreatedKeepsConsistent(r, a, passwordProtected, draws);
    case Close => DroppedKeepsConsistent(r, a);
    case _ =>
  }

  /** Every dispatch step keeps the registry consistent. */
  lemma DispatchedKeepsConsistent(r: Registry, a: SocketAddr, forwarded: bool, p: ClientPacket, draws: seq<KeyDraws>)
    requires Consistent(r)
    requires p.Create? && a !in r.owners ==> HasFresh(draws, r.index)
    ensures Consistent(Dispatched(r, a, forwarded, p, draws))
  {
    HandledKeepsConsistent(r, a, p, draws);
    var handled := Handled(r, a, p, draws);
    if a !in r.owners && a !in handled.owners {
      RegisteredKeepsConsistent(handled, a, None);
    }
  }

  /** After a dispatch step the sender is in the table, unless it was a
      known client whose Close packet was forwarded; a new sender that did
      not create a session holds none. */
  lemma DispatchedRegistersSender(r: Registry, a: SocketAddr, forwarded: bool, p: ClientPacket, draws: seq<KeyDraws>)
    requires p.Create? && a !in r.owners ==> HasFresh(draws, r.index)
    ensures var r' := Dispatched(r, a, forwarded, p, draws);
      && (a in r' .owners <==> !(a in r.owners && forwarded && p.Close?))
      && (a !in r.owners && !p.Create? ==> r'.owners[a] == None && r'.index == r.index)
      && (a !in r.owners && p.Create? ==> r'.owners[a].Some? && r'.owners[a].value.passwordProtected == p.passwordProtected)
  {
  }

  /** `create_session` refuses every address already in the table, so a
      Create from a known sender changes nothing, whether or not it holds a
      session. */
  lemma KnownSenderCannotCreate(r: Registry, a: SocketAddr, forwarded: bool, hash: Text, passwordProtected: bool, draws: seq<KeyDraws>)
    requires a in r.owners
    ensures Dispatched(r, a, forwarded, ClientPacket.Create(hash, passwordProtected), draws) == r
  {
  }

  /** The first packet from a new address being Create leaves, as written,
      an index entry whose owner holds no session. */
  lemma AsWrittenDispatchLeavesDanglingKey(a: SocketAddr, draws: KeyDraws)
    ensures Consistent(Registry(map[], map[]))
    ensures HasFresh([draws], map[])
    ensures !Consistent(DispatchedAsWritten(Registry(map[], map[]), a, true, ClientPacket.Create([], false), [draws]))
  {
    var r := Registry(map[], map[]);
    assert HasFresh([draws], r.index) by { assert GenerateKey([draws][0]) !in r.index; }
    var key := GenerateKey(draws);
    assert FirstFresh([draws], r.index) == 0;
    var r' := DispatchedAsWritten(r, a, true, ClientPacket.Create([], false), [draws]);
    assert key in r'.index && r'.index[key] == a && r'.owners[a] == None;
  }

  // --------------------------------------------------------------- the server

  /** `is_password_command` accepts one token and no other, matched exactly:
      a change of case, an added space or a shortened form is refused. */
  lemma PasswordCommandIsOneToken(a: string, b: string)
    ensures Server.IsPasswordCommand("PASSWORD-ONLY")
    ensures Server.IsPasswordCommand(a) && Server.IsPasswordCommand(b) ==> a == b
    ensures !Server.IsPasswordCommand("password-only") && !Server.IsPasswordCommand("PASSWORD-ONLY ")
    ensures !Server.IsPasswordCommand("PASSWORD")
  {
  }

  /** Each address in a client table with the session its client holds. */
  function Owners(clients: map<SocketAddr, Client>): map<SocketAddr, Option<Session>>
  {
    map a | a in clients :: clients[a].session
  }

  /** Overwriting `a` forgets whatever an earlier update or removal did to `a`. */
  lemma OverwriteForgets(m0: map<SocketAddr, Client>, m1: map<SocketAddr, Client>, a: SocketAddr, c: Client)
    requires m1 == m0 || m1 == m0 - {a} || (a in m1 && m1 == m0[a := m1[a]])
    ensures m1[a := c] == m0[a := c]
  {
  }

  lemma OwnersInsert(clients: map<SocketAddr, Client>, a: SocketAddr, client: Client)
    ensures Owners(clients[a := client]) == Owners(clients)[a := client.session]
  {
  }

  lemma OwnersRemove(clients: map<SocketAddr, Client>, a: SocketAddr)
    ensures Owners(clients - {a}) == Owners(clients) - {a}
  {
  }

  /** The acknowledgement the receiver sends for packet `id`, which the
      socket takes when its next outcome is a success. */
  function AckSent(socketAddress: SocketAddr, id: u64, outcomes: seq<bool>): (sent: seq<Datagram>)
    ensures |sent| <= 1
    ensures |sent| == 1 <==> Accepts(outcomes)
    ensures |sent| == 1 ==> sent[0].to == socketAddress && ParseServerPacket(sent[0].data) == Some(ServerPacket.Ack(id))
  {
    RoundTrip.ParseBuiltServerPacket(ServerPacket.Ack(id), []);
    assert BuildServerPacket(ServerPacket.Ack(id)) + [] == BuildServerPacket(ServerPacket.Ack(id));
    if Accepts(outcomes) then [Datagram(socketAddress, BuildServerPacket(ServerPacket.Ack(id)))] else []
  }

  /** A client as the server first makes it: a receiver expecting sequence
      id 0 that heard from the peer at `now`, and a shipper with nothing sent. */
  predicate NewClient(c: Client, socketAddress: SocketAddr, now: nat)
    reads c.receiver, c.shipper
  {
    && c.receiver.socketAddress == socketAddress && c.receiver.nextId == 0 && c.receiver.lastMessageTime == now
    && c.shipper.socketAddress == socketAddress && c.shipper.nextId == 0 && c.shipper.backedUp == []
  }

  class Server {
    var port: u16
    var clients: map<SocketAddr, Client>
    var sessions: map<Key, SocketAddr>
    var validClientHashes: seq<Text>

    function View(): Registry
      reads this
    {
      Registry(Owners(clients), sessions)
    }

    /** The registry is consistent and every client's receiver and shipper
      talk to the address it is stored under. */
    predicate Valid()
      reads this
    {
      && Consistent(View())
      && forall a :: a in clients ==>
           clients[a].receiver.socketAddress == a && clients[a].shipper.socketAddress == a
    }

    constructor (port: u16)
      ensures this.port == port && clients == map[] && sessions == map[] && validClientHashes == []
      ensures Valid()
    {
      this.port := port;
      clients := map[];
      sessions := map[];
      validClientHashes := [];
    }

    static function IsPasswordCommand(token: string): bool
    {
      token == "PASSWORD-ONLY"
    }

    /** Some client's session carries `key`. */
    function HasKey(key: Key): (b: bool)
      reads this
      ensures Valid() ==> (b <==> exists a :: a in clients && clients[a].session.Some? && clients[a].session.value.key == key)
    {
      assert forall a :: a in clients ==> a in Owners(clients) && Owners(clients)[a] == clients[a].session;
      key in sessions
    }

    function HasSocket(socketAddress: SocketAddr): (b: bool)
      reads this
      ensures b <==> socketAddress in View().owners
      ensures Valid() && !b ==> forall k :: k in sessions ==> sessions[k] != socketAddress
    {
      socketAddress in clients
    }

    function ValidClientHash(hash: Text): (b: bool)
      reads this
      ensures b <==> exists i :: 0 <= i < |validClientHashes| && validClientHashes[i] == hash
    {
      Position(validClientHashes, (h: Text) => h == hash).Some?
    }

    method SupportClientHashes(hashes: seq<Text>)
      modifies this
      ensures validClientHashes == hashes
      ensures port == old(port) && clients == old(clients) && sessions == old(sessions)
    {
      validClientHashes := hashes;
    }

    /** The retry loop of `create_session`: draws candidates until one is not
      an indexed key. */
    method FindFreshKey(draws: seq<KeyDraws>) returns (key: Key)
      requires HasFresh(draws, sessions)
      ensures key == GenerateKey(draws[FirstFresh(draws, sessions)])
      ensures IsKey(key) && key !in sessions
    {
      ghost var first := FirstFresh(draws, sessions);
      var i := 0;
      while true
        invariant i <= first
        invariant forall j :: 0 <= j < i ==> GenerateKey(draws[j]) in sessions
        decreases first - i
      {
        key := GenerateKey(draws[i]);
        if !HasKey(key) {
          return;
        }
        i := i + 1;
      }
    }

    /** Registers `socketAddress` with a new session under the first candidate
      key not already indexed; fails, changing nothing, for a known address. */
    method CreateSession(socketAddress: SocketAddr, passwordProtected: bool, now: nat, draws: seq<KeyDraws>)
      returns (result: Option<Key>)
      requires Valid()
      requires socketAddress !in clients ==> HasFresh(draws, sessions)
      modifies this
      ensures Valid()
      ensures View() == Created(old(View()), socketAddress, passwordProtected, draws)
      ensures port == old(port) && validClientHashes == old(validClientHashes)
      ensures socketAddress in old(clients) ==> result.None? && clients == old(clients) && sessions == old(sessions)
      ensures socketAddress !in old(clients) ==>
        && result == Some(GenerateKey(draws[FirstFresh(draws, old(sessions))]))
        && socketAddress in clients && clients == old(clients)[socketAddress := clients[socketAddress]]
        && sessions == old(sessions)[result.value := socketAddress]
        && clients[socketAddress].session == Some(Session(result.value, passwordProtected))
        && NewClient(clients[socketAddress], socketAddress, now)
      ensures socketAddress !in old(clients) ==>
        fresh(clients[socketAddress].receiver) && fresh(clients[socketAddress].shipper)
    {
      result := None;
      if !HasSocket(socketAddress) {
        var newKey := FindFreshKey(draws);
        var receiver := new PacketReceiver(socketAddress, now);
        var shipper := new PacketShipper(socketAddress);
        Register(Client(receiver, shipper, Some(Session(newKey, passwordProtected))), socketAddress);
        result := Some(newKey);
      }
    }

    /** The client owning session `key`. */
    function GetClientFromSession(key: Key): (r: Option<Client>)
      reads this
      ensures Valid() ==> (r.Some? <==> key in sessions)
      ensures Valid() && r.Some? ==> r.value.session.Some? && r.value.session.value.key == key
      ensures Valid() && r.Some? ==> sessions[key] in clients && r.value == clients[sessions[key]]
    {
      if key in sessions && sessions[key] in clients then Some(clients[sessions[key]]) else None
    }

    /** Some client whose session is not password-protected, found in an
      unspecified order, or None when every session is protected. */
    method GetClientFromOpenSession() returns (r: Option<Client>)
      requires Valid()
      ensures r.Some? ==> exists k :: k in sessions && clients[sessions[k]] == r.value
      ensures r.Some? ==> r.value.session.Some? && !r.value.session.value.passwordProtected
      ensures r.None? ==> forall k :: k in sessions ==> clients[sessions[k]].session.value.passwordProtected
    {
      var keys := sessions.Keys;
      while keys != {}
        invariant keys <= sessions.Keys
        invariant forall k :: k in sessions && k !in keys ==> clients[sessions[k]].session.value.passwordProtected
        decreases keys
      {
        var k :| k in keys;
        var client := clients[sessions[k]];
        if !client.session.value.passwordProtected {
          return Some(client);
        }
        keys := keys - {k};
      }
      return None;
    }

    /** Removes the client at `socketAddress` and its session's index entry;
      reports whether there was one. */
    method DropClientSession(socketAddress: SocketAddr) returns (dropped: bool)
      requires Valid()
      modifies this
      ensures Valid()
      ensures View() == Dropped(old(View()), socketAddress)
      ensures dropped == (socketAddress in old(clients))
      ensures clients == old(clients) - {socketAddress}
      ensures sessions == if dropped && old(clients)[socketAddress].session.Some?
        then old(sessions) - {old(clients)[socketAddress].session.value.key}
        else old(sessions)
      ensures port == old(port) && validClientHashes == old(validClientHashes)
    {
      ghost var before := View();
      DroppedKeepsConsistent(before, socketAddress);
      dropped := false;
      if socketAddress in clients {
        var client := clients[socketAddress];
        clients := clients - {socketAddress};
        if client.session.Some? {
          sessions := sessions - {client.session.value.key};
        }
        dropped := true;
      }
      OwnersRemove(old(clients), socketAddress);
    }

    /** The Create and Close arms of `handle_packet`. */
    method HandlePacket(socketAddress: SocketAddr, packet: ClientPacket, now: nat, draws: seq<KeyDraws>)
      requires Valid()
      requires packet.Create? && socketAddress !in clients ==> HasFresh(draws, sessions)
      modifies this
      ensures Valid()
      ensures View() == Handled(old(View()), socketAddress, packet, draws)
      ensures port == old(port) && validClientHashes == old(validClientHashes)
      ensures forall a :: a in clients && a in old(clients) ==> clients[a] == old(clients)[a]
      ensures packet.Close? ==> clients == old(clients) - {socketAddress}
      ensures packet.Create? && socketAddress !in old(clients) ==>
        && socketAddress in clients && clients == old(clients)[socketAddress := clients[socketAddress]]
        && NewClient(clients[socketAddress], socketAddress, now)
        && fresh(clients[socketAddress].receiver) && fresh(clients[socketAddress].shipper)
      ensures packet.Create? && socketAddress in old(clients) ==> clients == old(clients) && sessions == old(sessions)
      ensures !packet.Create? && !packet.Close? ==> clients == old(clients) && sessions == old(sessions)
      ensures !packet.Create? && socketAddress !in old(clients) ==> clients == old(clients) && sessions == old(sessions)
    {
      match packet
      case Create(_, passwordProtected) =>
        var _ := CreateSession(socketAddress, passwordProtected, now, draws);
      case Close =>
        var _ := DropClientSession(socketAddress);
      case _ =>
    }

    /** A ClientPacket from a known sender: its stored receiver acknowledges
      the packet and decides whether it is handled. */
    method PollKnownClient(socket: Socket, socketAddress: SocketAddr, id: u64, packet: ClientPacket,
                           now: nat, draws: seq<KeyDraws>)
      requires Valid() && socketAddress in clients
      modifies this, socket, clients[socketAddress].receiver
      ensures Valid()
      ensures port == old(port) && validClientHashes == old(validClientHashes)
      ensures socket.outcomes == Consume(old(socket.outcomes))
      ensures socket.outbox == old(socket.outbox) + AckSent(socketAddress, id, old(socket.outcomes))
      ensures View() == Dispatched(old(View()), socketAddress, id >= old(clients[socketAddress].receiver.nextId), packet, draws)
      ensures clients == if id >= old(clients[socketAddress].receiver.nextId) && packet.Close?
        then old(clients) - {socketAddress} else old(clients)
      ensures old(clients[socketAddress]).receiver.nextId == NextExpected(old(clients[socketAddress].receiver.nextId), id)
      ensures old(clients[socketAddress]).receiver.lastMessageTime == now
    {
      var client := clients[socketAddress];
      var data := client.receiver.SortPackets(socket, id, packet, now);
      if data.Some? {
        HandlePacket(socketAddress, packet, now, draws);
      }
    }

    /** A ClientPacket from a new sender: a fresh receiver acknowledges and
      forwards it, and the sender is stored with that receiver, keeping the
      session that handling the packet opened, if any. */
    method PollNewClient(socket: Socket, socketAddress: SocketAddr, id: u64, packet: ClientPacket,
                         now: nat, draws: seq<KeyDraws>)
      requires Valid() && socketAddress !in clients
      requires packet.Create? ==> HasFresh(draws, sessions)
      modifies this, socket
      ensures Valid()
      ensures port == old(port) && validClientHashes == old(validClientHashes)
      ensures socket.outcomes == Consume(old(socket.outcomes))
      ensures socket.outbox == old(socket.outbox) + AckSent(socketAddress, id, old(socket.outcomes))
      ensures View() == Dispatched(old(View()), socketAddress, true, packet, draws)
      ensures socketAddress in clients && clients == old(clients)[socketAddress := clients[socketAddress]]
      ensures fresh(clients[socketAddress].receiver) && fresh(clients[socketAddress].shipper)
      ensures clients[socketAddress].receiver.nextId == id + 1 && clients[socketAddress].receiver.lastMessageTime == now
      ensures clients[socketAddress].shipper.nextId == 0 && clients[socketAddress].shipper.backedUp == []
    {
      var receiver, shipper, data := AcceptFirst(socket, socketAddress, id, packet, now);
      HandleFirst(socketAddress, data, receiver, shipper, now, draws);
    }

    /** The new connection's transport: a fresh receiver and shipper for
      `socketAddress`, with the receiver having acknowledged the packet. */
    static method AcceptFirst(socket: Socket, socketAddress: SocketAddr, id: u64, packet: ClientPacket, now: nat)
      returns (receiver: PacketReceiver, shipper: PacketShipper, data: Option<ClientPacket>)
      modifies socket
      ensures fresh(receiver) && fresh(shipper)
      ensures data == Some(packet)
      ensures receiver.socketAddress == socketAddress && receiver.nextId == id + 1 && receiver.lastMessageTime == now
      ensures shipper.socketAddress == socketAddress && shipper.nextId == 0 && shipper.backedUp == []
      ensures socket.outcomes == Consume(old(socket.outcomes))
      ensures socket.outbox == old(socket.outbox) + AckSent(socketAddress, id, old(socket.outcomes))
    {
      receiver := new PacketReceiver(socketAddress, now);
      shipper := new PacketShipper(socketAddress);
      data := receiver.SortPackets(socket, id, packet, now);
    }

    /** Handles the first packet of a new sender, which a fresh receiver
      always forwards, then stores the sender with the given transport. */
    method HandleFirst(socketAddress: SocketAddr, data: Option<ClientPacket>, receiver: PacketReceiver,
                       shipper: PacketShipper, now: nat, draws: seq<KeyDraws>)
      requires Valid() && socketAddress !in clients && data.Some?
      requires data.value.Create? ==> HasFresh(draws, sessions)
      requires receiver.socketAddress == socketAddress
      requires shipper.socketAddress == socketAddress && shipper.nextId == 0 && shipper.backedUp == []
      modifies this
      ensures Valid()
      ensures port == old(port) && validClientHashes == old(validClientHashes)
      ensures View() == Dispatched(old(View()), socketAddress, true, data.value, draws)
      ensures socketAddress in clients && clients == old(clients)[socketAddress := clients[socketAddress]]
      ensures clients[socketAddress].receiver == receiver
      ensures fresh(clients[socketAddress].shipper) || clients[socketAddress].shipper == shipper
      ensures clients[socketAddress].shipper.nextId == 0 && clients[socketAddress].shipper.backedUp == []
    {
      HandlePacket(socketAddress, data.value, now, draws);
      ghost var handled := clients;
      Admit(socketAddress, receiver, shipper);
      OverwriteForgets(old(clients), handled, socketAddress, clients[socketAddress]);
    }

    /** Stores the sender with the receiver that acknowledged its packet: a
      sender that handling already stored keeps its shipper and session,
      any other is stored with `shipper` and no session. */
    method Admit(socketAddress: SocketAddr, receiver: PacketReceiver, shipper: PacketShipper)
      requires Valid()
      requires receiver.socketAddress == socketAddress && shipper.socketAddress == socketAddress
      modifies this
      ensures Valid()
      ensures View() == if socketAddress in old(clients) then old(View()) else Registered(old(View()), socketAddress, None)
      ensures clients == old(clients)[socketAddress := Client(receiver,
        if socketAddress in old(clients) then old(clients)[socketAddress].shipper else shipper,
        if socketAddress in old(clients) then old(clients)[socketAddress].session else None)]
      ensures sessions == old(sessions) && port == old(port) && validClientHashes == old(validClientHashes)
    {
      if socketAddress !in clients {
        Register(Client(receiver, shipper, None), socketAddress);
      } else {
        var c := clients[socketAddress];
        OwnersInsert(clients, socketAddress, Client(receiver, c.shipper, c.session));
        assert Owners(clients)[socketAddress := c.session] == Owners(clients);
        clients := clients[socketAddress := Client(receiver, c.shipper, c.session)];
      }
    }

    /** Stores `client` under an address not yet in the table, indexing its
      session's key, which must be well-formed and not yet indexed. */
    method Register(client: Client, socketAddress: SocketAddr)
      requires Valid() && socketAddress !in clients
      requires client.receiver.socketAddress == socketAddress && client.shipper.socketAddress == socketAddress
      requires client.session.Some? ==> IsKey(client.session.value.key) && client.session.value.key !in sessions
      modifies this
      ensures Valid()
      ensures clients == old(clients)[socketAddress := client]
      ensures sessions == if client.session.None? then old(sessions)
        else old(sessions)[client.session.value.key := socketAddress]
      ensures View() == Registered(old(View()), socketAddress, client.session)
      ensures port == old(port) && validClientHashes == old(validClientHashes)
    {
      RegisteredKeepsConsistent(View(), socketAddress, client.session);
      OwnersInsert(clients, socketAddress, client);
      clients := clients[socketAddress := client];
      if client.session.Some? {
        sessions := sessions[client.session.value.key := socketAddress];
      }
    }

    /** One ClientPacket message of the event loop, for a known or a new
      sender. */
    method PollClientPacket(socket: Socket, socketAddress: SocketAddr, id: u64, packet: ClientPacket,
                            now: nat, draws: seq<KeyDraws>)
      requires Valid()
      requires packet.Create? && socketAddress !in clients ==> HasFresh(draws, sessions)
      modifies this, socket, if socketAddress in clients then {clients[socketAddress].receiver} else {}
      ensures Valid()
      ensures port == old(port) && validClientHashes == old(validClientHashes)
      ensures socket.outcomes == Consume(old(socket.outcomes))
      ensures socket.outbox == old(socket.outbox) + AckSent(socketAddress, id, old(socket.outcomes))
      ensures View() == Dispatched(old(View()), socketAddress,
        socketAddress !in old(clients) || id >= old(clients[socketAddress].receiver.nextId), packet, draws)
      ensures socketAddress in old(clients) ==>
        && clients == (if id >= old(clients[socketAddress].receiver.nextId) && packet.Close?
                       then old(clients) - {socketAddress} else old(clients))
        && old(clients[socketAddress]).receiver.nextId == NextExpected(old(clients[socketAddress].receiver.nextId), id)
        && old(clients[socketAddress]).receiver.lastMessageTime == now
      ensures socketAddress !in old(clients) ==>
        && socketAddress in clients && clients == old(clients)[socketAddress := clients[socketAddress]]
        && fresh(clients[socketAddress].receiver) && fresh(clients[socketAddress].shipper)
        && clients[socketAddress].receiver.nextId == NextExpected(0, id)
        && clients[socketAddress].receiver.lastMessageTime == now
        && clients[socketAddress].shipper.nextId == 0 && clients[socketAddress].shipper.backedUp == []
    {
      if HasSocket(socketAddress) {
        PollKnownClient(socket, socketAddress, id, packet, now, draws);
      } else {
        PollNewClient(socket, socketAddress, id, packet, now, draws);
      }
    }
  }
}
