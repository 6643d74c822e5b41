/// The chat node (`ChatClient`): the collection of connected peers, kept
/// free of duplicates by (address, listen port); the two ways a peer joins
/// (dialled from an address, or accepted on the listen socket); the gossip
/// of a new peer to the others; broadcast and private chat; and shutdown.
///
/// Calls into the user interface are recorded, in order, in `ui`. Whether
/// each network write succeeds is an oracle argument: `ok` flags for one
/// send, and `fails`, the set of peers whose write fails, for a sweep over
/// the collection. A handler submitted to the worker pool after shutdown is
/// refused: each pooled handler does nothing once `finished` is set.

module ChatNode {
  import opened Bytes
  import opened Wrappers
  import opened Messaging
  import opened Connection
  import opened Peers

  /** Why the interface is told a peer is gone (the text of the exception
      that caused it is not modelled). */
  datatype Reason = KeepAliveFailed | ExchangeFailed | BroadcastFailed | PrivateFailed | UserQuit

  /** The `UIAdapter` callbacks the node makes. */
  datatype UiEvent =
    | ClientConnected(client: Client)
    | ClientDisconnected(reason: Reason, client: Client)
    | BroadcastSent(timestamp: int64, text: JString)
    | PrivateSent(timestamp: int64, text: JString, client: Client)
    | BroadcastReceived(timestamp: int64, text: JString, client: Client)
    | PrivateReceived(timestamp: int64, text: JString, client: Client)

  /** The parts of a connection the node reads or changes: what was written
      to it, its listeners, its run flag, whether its socket was opened and
      whether it is closed. */
  datatype PeerState = PeerState(written: seq<Message>, listeners: seq<ListenerId>, keepRunning: bool, connected: bool, closed: bool)
  {
    /** A write can reach the socket. */
    predicate Open()
    {
      connected && !closed
    }
  }

  function StateOf(c: Client): (s: PeerState)
    reads c`written, c`listeners, c`keepRunning, c`connected, c`closed
    ensures s.Open() == c.Usable()
  {
    PeerState(c.written, c.listeners, c.keepRunning, c.connected, c.closed)
  }

  /** One more message written. */
  function Sent(s: PeerState, m: Message): PeerState
  {
    s.(written := s.written + [m])
  }

  /** `disconnect`: the read loop stops and the socket is closed. */
  function Closing(s: PeerState): PeerState
  {
    s.(keepRunning := false, closed := true)
  }

  /** `removeMessageListener(this)` and then `disconnect`. */
  function Dropping(s: PeerState, self: ListenerId): PeerState
  {
    Closing(s.(listeners := RemoveFirst(s.listeners, self)))
  }

  /** A send whose failure drops the peer (keep-alive, exchange, private
      chat). */
  function AfterSend(s: PeerState, sent: bool, m: Message, self: ListenerId): PeerState
  {
    if sent then Sent(s, m) else Dropping(s, self)
  }

  /** A broadcast send: a failing peer is closed but keeps its listeners. */
  function AfterBroadcast(s: PeerState, sent: bool, m: Message): PeerState
  {
    if sent then Sent(s, m) else Closing(s)
  }

  /** `doShutdown` for one peer: a disconnect message if it can be written,
      then `disconnect` whatever happened. */
  function AfterShutdown(s: PeerState, sent: bool): PeerState
  {
    Closing(if sent then Sent(s, Messaging.Disconnect) else s)
  }

  /** A member of the collection: built with this node's username and
      listen port, and its handshake has supplied the peer's username. */
  predicate Member(c: Client, name: JString, port: int32)
    reads c`username
  {
    c.localUsername == name && c.localPort == port && c.username.Some?
  }

  predicate Members(cs: seq<Client>, name: JString, port: int32)
    reads cs`username
  {
    forall i :: 0 <= i < |cs| ==> Member(cs[i], name, port)
  }

  /** Members taken from a collection of members are members. */
  lemma MembersOfSubset(cs: seq<Client>, ds: seq<Client>, name: JString, port: int32)
    requires Members(cs, name, port)
    requires forall i :: 0 <= i < |ds| ==> ds[i] in cs
    ensures Members(ds, name, port)
  {
    forall i | 0 <= i < |ds|
      ensures Member(ds[i], name, port)
    {
      var j :| 0 <= j < |cs| && cs[j] == ds[i];
    }
  }

  /** The survivors of a sweep over members are members. */
  lemma SurvivorsAreMembers(cs: seq<Client>, fails: set<Client>, name: JString, port: int32)
    requires Members(cs, name, port)
    ensures Members(Without(cs, fails), name, port)
  {
    SweepMembers(cs, fails);
    MembersOfSubset(cs, Without(cs, fails), name, port);
  }

  /** The peers among cs whose write fails: those the network rejects and
      those whose socket is not usable. */
  function Failing(cs: seq<Client>, fails: set<Client>): (r: set<Client>)
    reads cs`connected, cs`closed
    ensures forall i :: 0 <= i < |cs| ==> (cs[i] in r <==> cs[i] in fails || !cs[i].Usable())
    ensures forall c :: c in r ==> c in cs
  {
    set c | c in cs && (c in fails || !c.Usable())
  }

  /** One disconnect callback per peer, in order. */
  function Dropped(cs: seq<Client>, why: Reason): (r: seq<UiEvent>)
    ensures |r| == |cs|
  {
    if cs == [] then [] else [ClientDisconnected(why, cs[0])] + Dropped(cs[1..], why)
  }

  /** The callbacks during a sweep: the callbacks so far followed by those
      of the members not yet visited. */
  lemma DroppedStep(pre: seq<UiEvent>, cs: seq<Client>, i: int, fails: set<Client>, why: Reason)
    requires 0 <= i < |cs|
    ensures pre + Dropped(Failed(cs[i..], fails), why)
         == (if cs[i] in fails then pre + [ClientDisconnected(why, cs[i])] else pre) + Dropped(Failed(cs[i + 1..], fails), why)
  {
    assert cs[i..][1..] == cs[i + 1..];
    var f := Failed(cs[i + 1..], fails);
    if cs[i] in fails {
      var g := [cs[i]] + f;
      assert g[1..] == f;
      var d := ClientDisconnected(why, cs[i]);
      assert Dropped(g, why) == [d] + Dropped(f, why);
      assert pre + ([d] + Dropped(f, why)) == pre + [d] + Dropped(f, why);
    } else {
      assert [] + f == f;
    }
  }

  /** A pass that writes one message to every peer of the collection: the
      gossip about a new peer (`notifyClients`), or a broadcast chat. */
  datatype Pass = Gossip(msg: Message) | Broadcast(msg: Message)
  {
    /** What the interface is told about a peer whose write failed. */
    function Why(): Reason
    {
      if Gossip? then ExchangeFailed else BroadcastFailed
    }
  }

  /** How an `addClient` call ends. */
  datatype Admission = Added | DuplicateAlive | DialFailed | HandshakeFailed | HandshakeCrashed

  /** The outcome of a dialled client's handshake: an exception thrown
      inside `performHandshake` ends `addClient` as a failure does. */
  function AfterHandshake(r: HandshakeResult): (a: Admission)
    ensures a == Added <==> r == Accepted
  {
    match r
    case Accepted => Added
    case Rejected => HandshakeFailed
    case Crashed => HandshakeCrashed
  }

  class ChatClient {
    const listenPort: int32
    const username: JString
    /** This node in its role as `MessageListener` of every peer. */
    const self: ListenerId
    var keepRunning: bool
    /** `doShutdown` has run and the worker pool refuses new tasks. */
    var finished: bool
    var clients: seq<Client>
    var ui: seq<UiEvent>

    constructor (listenPort: int32, username: JString, self: ListenerId)
      ensures this.listenPort == listenPort && this.username == username && this.self == self
      ensures keepRunning && !finished && clients == [] && ui == []
      ensures Valid()
    {
      this.listenPort := listenPort;
      this.username := username;
      this.self := self;
      keepRunning := true;
      finished := false;
      clients := [];
      ui := [];
    }

    /** The collection's invariant: no two peers are equal by (address,
        listen port), and every peer is a member. */
    predicate Valid()
      reads this`clients, clients`port, clients`username
    {
      NoDuplicates(clients) && Members(clients, username, listenPort)
    }

    /** Whether the keep-alive probe of `addClient` keeps a live duplicate
        of the peer id: one is known, its write succeeds (ok) and its socket
        is usable. */
    function Busy(id: PeerId, ok: bool): bool
      reads this`clients, clients`port, clients`connected, clients`closed
    {
      var k := FirstEqual(clients, id);
      k >= 0 && ok && clients[k].Usable()
    }

    /** The peer list once that probe is over: a duplicate that fails it
        is removed. */
    function Kept(id: PeerId, ok: bool): seq<Client>
      reads this`clients, clients`port, clients`connected, clients`closed
    {
      if FirstEqual(clients, id) >= 0 && !Busy(id, ok) then RemoveEqual(clients, id) else clients
    }

    /** The interface trace once that probe is over: a duplicate that fails
        it is reported as dropped. */
    function Probed(id: PeerId, ok: bool): seq<UiEvent>
      reads this`clients, this`ui, clients`port, clients`connected, clients`closed
    {
      var k := FirstEqual(clients, id);
      if k >= 0 && !Busy(id, ok) then ui + [ClientDisconnected(KeepAliveFailed, clients[k])] else ui
    }

    /** `findDuplicate`: the first peer equal to c, if any. */
    method FindDuplicate(c: Client) returns (d: Option<Client>)
      ensures var k := FirstEqual(clients, c.Id());
        d == if k < 0 then None else Some(clients[k])
    {
      var i := 0;
      while i < |clients|
        invariant 0 <= i <= |clients|
        invariant forall j :: 0 <= j < i ==> clients[j].Id() != c.Id()
      {
        if c.Equals(clients[i]) {
          return Some(clients[i]);
        }
        i := i + 1;
      }
      return None;
    }

    /** `remove(c)` on the collection: the first peer equal to c goes. */
    method Forget(c: Client)
      requires Valid()
      modifies this`clients
      ensures clients == old(RemoveEqual(clients, c.Id()))
      ensures !Known(clients, c.Id())
      ensures Valid()
    {
      RemoveEqualKeepsDistinct(clients, c.Id());
      MembersOfSubset(clients, RemoveEqual(clients, c.Id()), username, listenPort);
      clients := RemoveEqual(clients, c.Id());
    }

    /** `c.removeMessageListener(this)` and `c.disconnect()`. */
    method Unlisten(c: Client)
      modifies c`listeners, c`keepRunning, c`closed
      ensures StateOf(c) == Dropping(old(StateOf(c)), self)
    {
      c.RemoveMessageListener(self);
      c.Disconnect();
    }

    /** Drops c: `remove(c)` on the collection, stop listening to it, close
        it, and tell the interface why. */
    method Evict(c: Client, why: Reason)
      requires Valid()
      modifies this`clients, this`ui, c`listeners, c`keepRunning, c`closed
      ensures clients == old(RemoveEqual(clients, c.Id()))
      ensures ui == old(ui) + [ClientDisconnected(why, c)]
      ensures StateOf(c) == Dropping(old(StateOf(c)), self)
      ensures !Known(clients, c.Id())
      ensures Valid()
    {
      Forget(c);
      label L:
      Unlisten(c);
      ui := ui + [ClientDisconnected(why, c)];
      KeepsValid@L();
      KeepsUnknown@L(c.Id());
    }

    /** Valid depends only on the collection and on its members' listen
        ports and usernames. */
    twostate lemma KeepsValid()
      requires old(Valid())
      requires unchanged(this`clients)
      requires forall i :: 0 <= i < |clients| ==> clients[i].port == old(clients[i].port) && clients[i].username == old(clients[i].username)
      ensures Valid()
    {
    }

    /** Whether a peer with identity id is in the collection depends only
        on the collection and on its members' listen ports. */
    twostate lemma KeepsUnknown(id: PeerId)
      requires old(!Known(clients, id))
      requires unchanged(this`clients)
      requires forall i :: 0 <= i < |clients| ==> clients[i].port == old(clients[i].port)
      ensures !Known(clients, id)
    {
      forall i | 0 <= i < |clients|
        ensures clients[i].Id() != id
      {
        assert old(clients[i].Id() != id);
      }
    }

    /** `testClient`: a keep-alive probe; a peer whose write fails is
        evicted. */
    method TestClient(c: Client, ok: bool) returns (alive: bool)
      requires Valid()
      modifies this`clients, this`ui, c`written, c`listeners, c`keepRunning, c`closed
      ensures alive == (ok && old(c.Usable()))
      ensures StateOf(c) == AfterSend(old(StateOf(c)), alive, KeepAlive, self)
      ensures clients == if alive then old(clients) else old(RemoveEqual(clients, c.Id()))
      ensures ui == if alive then old(ui) else old(ui) + [ClientDisconnected(KeepAliveFailed, c)]
      ensures !alive ==> !Known(clients, c.Id()) && c !in clients
      ensures forall p :: p in clients ==> p in old(clients)
      ensures Valid()
    {
      alive := c.SendKeepAliveMessage(ok);
      if !alive {
        Evict(c, KeepAliveFailed);
        UnknownIsAbsent(clients, c);
      }
    }

    /** The duplicate check both `addClient` overloads make: the first peer
        equal to c, if any, is probed with a keep-alive (and evicted if that
        fails); busy when it answers, and then c is to be discarded. */
    method ProbeDuplicate(c: Client, ok: bool) returns (busy: bool)
      requires Valid()
      modifies this`clients, this`ui, clients`written, clients`listeners, clients`keepRunning, clients`closed
      ensures busy == old(Busy(c.Id(), ok)) && clients == old(Kept(c.Id(), ok)) && ui == old(Probed(c.Id(), ok))
      ensures var k := old(FirstEqual(clients, c.Id()));
        k >= 0 ==> StateOf(old(clients[k])) == AfterSend(old(StateOf(clients[k])), busy, KeepAlive, self)
      ensures forall p :: p in old(clients) && p.Id() != c.Id() ==> StateOf(p) == old(StateOf(p))
      ensures !busy ==> !Known(clients, c.Id())
      ensures forall p :: p in clients ==> p in old(clients)
      ensures Valid()
    {
      var d := FindDuplicate(c);
      busy := false;
      if d.Some? {
        busy := ProbeFound(c, d.value, ok);
      }
    }

    /** The duplicate check once d, the first peer equal to c, is found. */
    method ProbeFound(c: Client, d: Client, ok: bool) returns (busy: bool)
      requires Valid()
      requires var k := FirstEqual(clients, c.Id()); k >= 0 && clients[k] == d
      modifies this`clients, this`ui, d`written, d`listeners, d`keepRunning, d`closed
      ensures busy == old(Busy(c.Id(), ok)) && clients == old(Kept(c.Id(), ok)) && ui == old(Probed(c.Id(), ok))
      ensures StateOf(d) == AfterSend(old(StateOf(d)), busy, KeepAlive, self)
      ensures !busy ==> !Known(clients, c.Id())
      ensures forall p :: p in clients ==> p in old(clients)
      ensures Valid()
    {
      busy := TestClient(d, ok);
    }

    /** `registerClient`: listen to the peer and tell the interface (the
        peer's read thread is not modelled). */
    method RegisterClient(c: Client)
      modifies this`ui, c`listeners
      ensures c.listeners == old(c.listeners) + [self]
      ensures ui == old(ui) + [ClientConnected(c)]
    {
      c.AddMessageListener(self);
      ui := ui + [ClientConnected(c)];
    }

    /** A peer's state once the pass has visited it. */
    function Step(p: Pass, s: PeerState, sent: bool): PeerState
    {
      match p
      case Gossip(m) => AfterSend(s, sent, m, self)
      case Broadcast(m) => AfterBroadcast(s, sent, m)
    }

    /** The peers of cs before the cursor i have been visited by the pass;
        the others are as they were. */
    predicate SweptTo(cs: seq<Client>, i: int, p: Pass, f: set<Client>, before: seq<PeerState>)
      requires |before| == |cs|
      reads cs`written, cs`listeners, cs`keepRunning, cs`connected, cs`closed
    {
      forall j :: 0 <= j < |cs| ==>
        StateOf(cs[j]) == if j < i then Step(p, before[j], cs[j] !in f) else before[j]
    }

    /** One turn of the iterator loop, at the cursor i: the message is
        written to the peer under the cursor; if that fails, the peer is
        closed (gossip also stops listening to it first) and reported, and
        it is not kept. */
    method Visit(cs: seq<Client>, i: int, p: Pass, fails: set<Client>, ghost f: set<Client>, ghost before: seq<PeerState>, kept: seq<Client>)
      returns (kept': seq<Client>)
      requires 0 <= i < |cs| == |before|
      requires forall j, k :: 0 <= j < |cs| && 0 <= k < |cs| && j != k ==> cs[j] != cs[k]
      requires forall j :: 0 <= j < |cs| ==> (cs[j] in f <==> cs[j] in fails || !before[j].Open())
      requires SweptTo(cs, i, p, f, before)
      modifies this`ui, {cs[i]}`written, {cs[i]}`listeners, {cs[i]}`keepRunning, {cs[i]}`closed
      ensures kept' + Without(cs[i + 1..], f) == kept + Without(cs[i..], f)
      ensures ui + Dropped(Failed(cs[i + 1..], f), p.Why()) == old(ui) + Dropped(Failed(cs[i..], f), p.Why())
      ensures SweptTo(cs, i + 1, p, f, before)
    {
      var c := cs[i];
      SweepStep(kept, cs, i, f);
      DroppedStep(ui, cs, i, f, p.Why());
      var sent := c.Send(p.msg, c !in fails);
      if !sent {
        if p.Gossip? {
          Unlisten(c);
        } else {
          c.Disconnect();
        }
        ui := ui + [ClientDisconnected(p.Why(), c)];
      }
      kept' := if sent then kept + [c] else kept;
    }

    /** The iterator loop of `notifyClients` and of `broadcastChatMessage`
        over the peers cs. The iterator's removals are collected: the result
        is the peers that stay, in order. */
    method Sweep(cs: seq<Client>, p: Pass, fails: set<Client>) returns (kept: seq<Client>)
      requires forall i, j :: 0 <= i < |cs| && 0 <= j < |cs| && i != j ==> cs[i] != cs[j]
      modifies this`ui, cs`written, cs`listeners, cs`keepRunning, cs`closed
      ensures var failing := old(Failing(cs, fails));
        && kept == Without(cs, failing)
        && ui == old(ui) + Dropped(Failed(cs, failing), p.Why())
        && forall j :: 0 <= j < |cs| ==> StateOf(cs[j]) == Step(p, old(StateOf(cs[j])), cs[j] !in failing)
    {
      ghost var f := Failing(cs, fails);
      ghost var before := seq(|cs|, j requires 0 <= j < |cs| reads cs => StateOf(cs[j]));
      var i := 0;
      kept := [];
      assert kept + Without(cs[i..], f) == Without(cs, f);
      assert ui + Dropped(Failed(cs[i..], f), p.Why()) == old(ui) + Dropped(Failed(cs, f), p.Why());
      while i < |cs|
        invariant 0 <= i <= |cs|
        invariant kept + Without(cs[i..], f) == Without(cs, f)
        invariant ui + Dropped(Failed(cs[i..], f), p.Why()) == old(ui) + Dropped(Failed(cs, f), p.Why())
        invariant SweptTo(cs, i, p, f, before)
      {
        kept := Visit(cs, i, p, fails, f, before, kept);
        i := i + 1;
      }
      assert kept == Without(cs, f) && ui == old(ui) + Dropped(Failed(cs, f), p.Why());
    }

    /** A pass over the whole collection: the peers whose write fails leave
        it, and the invariant holds again. */
    method SweepClients(p: Pass, fails: set<Client>)
      requires Valid()
      modifies this`clients, this`ui, clients`written, clients`listeners, clients`keepRunning, clients`closed
      ensures var cs, failing := old(clients), old(Failing(clients, fails));
        && clients == Without(cs, failing)
        && ui == old(ui) + Dropped(Failed(cs, failing), p.Why())
        && forall i :: 0 <= i < |cs| ==> StateOf(cs[i]) == Step(p, old(StateOf(cs[i])), cs[i] !in failing)
      ensures Valid()
    {
      var cs := clients;
      ghost var f := Failing(cs, fails);
      DistinctMembers(cs);
      label Pass:
      var kept := Sweep(cs, p, fails);
      KeepsValid@Pass();
      WithoutKeepsDistinct(cs, f);
      SurvivorsAreMembers(cs, f, username, listenPort);
      clients := kept;
    }

    /** `notifyClients`: gossip nc to every peer; the peers whose write
        fails are unlistened, closed, reported and removed. */
    method NotifyClients(nc: Client, fails: set<Client>)
      requires Valid() && nc.username.Some?
      modifies this`clients, this`ui, clients`written, clients`listeners, clients`keepRunning, clients`closed
      ensures var cs, failing := old(clients), old(Failing(clients, fails));
        && clients == Without(cs, failing)
        && ui == old(ui) + Dropped(Failed(cs, failing), ExchangeFailed)
        && forall i :: 0 <= i < |cs| ==>
             StateOf(cs[i]) == AfterSend(old(StateOf(cs[i])), cs[i] !in failing, ExchangeOf(nc), self)
      ensures Valid()
    {
      SweepClients(Gossip(ExchangeOf(nc)), fails);
    }

    /** The gossip about a new peer nc to the other peers (`notifyClients`),
        then `clients.add(nc)`. */
    method Admit(nc: Client, fails: set<Client>)
      requires Valid() && Member(nc, username, listenPort) && !Known(clients, nc.Id())
      modifies this`clients, this`ui, clients`written, clients`listeners, clients`keepRunning, clients`closed
      ensures var cs, failing := old(clients), old(Failing(clients, fails));
        && clients == Without(cs, failing) + [nc]
        && ui == old(ui) + Dropped(Failed(cs, failing), ExchangeFailed)
        && forall i :: 0 <= i < |cs| ==>
             StateOf(cs[i]) == AfterSend(old(StateOf(cs[i])), cs[i] !in failing, ExchangeOf(nc), self)
      ensures Valid()
    {
      UnknownIsAbsent(clients, nc);
      ghost var id := nc.Id();
      WithoutStaysUnknown(clients, Failing(clients, fails), id);
      label Entry:
      NotifyClients(nc, fails);
      UnknownKept@Entry((clients, id));
      AppendNewKeepsDistinct(clients, nc);
      clients := clients + [nc];
    }

    /** The end of `addClient(socket)` for a new peer nc: `registerClient`,
        the gossip about nc to the other peers, and `clients.add`. The peers
        that fail are named by failing, which must agree, peer by peer, with
        the send oracle and the peers' sockets; peers is any set holding
        every peer. */
    method Enrol(nc: Client, fails: set<Client>, ghost failing: set<Client>, ghost peers: set<Client>)
      requires Valid() && Member(nc, username, listenPort) && !Known(clients, nc.Id())
      requires forall c :: c in clients ==> c in peers && (c in failing <==> c in fails || !c.Usable())
      modifies this`clients, this`ui, nc`listeners, peers`written, peers`listeners, peers`keepRunning, peers`closed
      ensures var cs := old(clients);
        && clients == Without(cs, failing) + [nc]
        && ui == old(ui) + [ClientConnected(nc)] + Dropped(Failed(cs, failing), ExchangeFailed)
        && forall i :: 0 <= i < |cs| ==>
             StateOf(cs[i]) == AfterSend(old(StateOf(cs[i])), cs[i] !in failing, ExchangeOf(nc), self)
      ensures StateOf(nc) == old(StateOf(nc)).(listeners := old(nc.listeners) + [self])
      ensures Valid()
    {
      SameVerdicts(clients, Failing(clients, fails), failing);
      UnknownIsAbsent(clients, nc);
      RegisterClient(nc);
      assert Valid() && Member(nc, username, listenPort) && !Known(clients, nc.Id());
      assert Failing(clients, fails) == old(Failing(clients, fails));
      Admit(nc, fails);
    }

    /** The end of `addClient(host)` once no live duplicate is known: dial
        nc and handshake; if the handshake passes, register nc and add it.
        A client that fails is discarded without being closed. */
    method Join(nc: Client, dialOk: bool, remoteBytes: seq<byte>, sendOk: bool) returns (outcome: Admission)
      requires Valid() && !Known(clients, nc.Id()) && 0 <= nc.port < TWO_16
      requires nc.localUsername == username && nc.localPort == listenPort
      requires !nc.connected && !nc.closed
      modifies this`clients, this`ui, nc`connected, nc`inbound, nc`username, nc`port, nc`written, nc`listeners
      ensures var h := HandshakeRule(sendOk, old(nc.username), old(nc.port), remoteBytes);
        && outcome == (if dialOk then AfterHandshake(h.result) else DialFailed)
        && nc.connected == dialOk && !nc.closed
        && (dialOk ==>
              && nc.written == old(nc.written) + (if sendOk then [Handshake(username, listenPort)] else [])
              && nc.username == h.username && nc.port == h.port && nc.inbound == h.inbound)
        && (!dialOk ==>
              nc.written == old(nc.written) && nc.username == old(nc.username) && nc.port == old(nc.port) && nc.inbound == old(nc.inbound))
        && nc.listeners == (if outcome == Added then old(nc.listeners) + [self] else old(nc.listeners))
        && clients == (if outcome == Added then old(clients) + [nc] else old(clients))
        && ui == (if outcome == Added then old(ui) + [ClientConnected(nc)] else old(ui))
      ensures Valid()
    {
      UnknownIsAbsent(clients, nc);
      ghost var id := nc.Id();
      label Entry:
      var dialled := nc.Connect(dialOk, remoteBytes);
      if !dialled {
        KeepsValid@Entry();
        return DialFailed;
      }
      var r := nc.PerformHandshake(sendOk);
      AcceptedHandshake(sendOk, old(nc.username), old(nc.port), remoteBytes);
      outcome := AfterHandshake(r);
      KeepsValid@Entry();
      if r == Accepted {
        RegisterClient(nc);
        UnknownKept@Entry((clients, id));
        AppendNewKeepsDistinct(clients, nc);
        clients := clients + [nc];
      }
    }

    /** `addClient(host, port, username)` once the client nc is built: the
        duplicate check, then the dial and the handshake. */
    method Recruit(nc: Client, probeOk: bool, dialOk: bool, remoteBytes: seq<byte>, sendOk: bool) returns (outcome: Admission)
      requires Valid() && nc !in clients && 0 <= nc.port < TWO_16
      requires nc.localUsername == username && nc.localPort == listenPort
      requires !nc.connected && !nc.closed
      modifies this`clients, this`ui, clients`written, clients`listeners, clients`keepRunning, clients`closed
      modifies nc`connected, nc`inbound, nc`username, nc`port, nc`written, nc`listeners
      ensures var busy, base, ui0 := old(Busy(nc.Id(), probeOk)), old(Kept(nc.Id(), probeOk)), old(Probed(nc.Id(), probeOk));
        var h := HandshakeRule(sendOk, old(nc.username), old(nc.port), remoteBytes);
        && outcome == (if busy then DuplicateAlive else if dialOk then AfterHandshake(h.result) else DialFailed)
        && clients == (if outcome == Added then base + [nc] else base)
        && ui == (if outcome == Added then ui0 + [ClientConnected(nc)] else ui0)
        && nc.written == old(nc.written) + (if !busy && dialOk && sendOk then [Handshake(username, listenPort)] else [])
        && nc.listeners == old(nc.listeners) + (if outcome == Added then [self] else [])
        && (outcome == Added ==> nc.username == h.username && nc.port == old(nc.port))
        && !nc.closed
      ensures Valid()
    {
      ghost var id, name0, port0 := nc.Id(), nc.username, nc.port;
      ghost var written0, listeners0 := nc.written, nc.listeners;
      var busy := ProbeDuplicate(nc, probeOk);
      assert nc.Id() == id && nc.username == name0 && nc.port == port0;
      assert nc.written == written0 && nc.listeners == listeners0 && !nc.connected && !nc.closed;
      if busy {
        return DuplicateAlive;
      }
      ghost var h := HandshakeRule(sendOk, name0, port0, remoteBytes);
      AcceptedHandshake(sendOk, name0, port0, remoteBytes);
      outcome := Join(nc, dialOk, remoteBytes, sendOk);
      assert outcome == (if dialOk then AfterHandshake(h.result) else DialFailed);
      assert outcome == Added ==> nc.port == port0;
    }

    /** `addClient(host, port, username)`: a client to be dialled at (ip,
        port), expecting the given username if one is known. A live
        duplicate makes the new client be discarded; a failed keep-alive
        evicts the duplicate first. */
    method AddClientFromAddress(ip: Ipv4, port: int32, name: Option<JString>, probeOk: bool, dialOk: bool, remoteBytes: seq<byte>, sendOk: bool)
      returns (nc: Client, outcome: Admission)
      requires Valid() && 0 <= port < TWO_16
      modifies this`clients, this`ui, clients`written, clients`listeners, clients`keepRunning, clients`closed
      ensures fresh(nc) && nc.ip == ip && !nc.closed
      ensures var id := PeerId(ip, port);
        var busy, base, ui0 := old(Busy(id, probeOk)), old(Kept(id, probeOk)), old(Probed(id, probeOk));
        var h := HandshakeRule(sendOk, name, port, remoteBytes);
        && outcome == (if busy then DuplicateAlive else if dialOk then AfterHandshake(h.result) else DialFailed)
        && clients == (if outcome == Added then base + [nc] else base)
        && ui == (if outcome == Added then ui0 + [ClientConnected(nc)] else ui0)
        && nc.written == (if !busy && dialOk && sendOk then [Handshake(username, listenPort)] else [])
        && nc.listeners == (if outcome == Added then [self] else [])
        && (outcome == Added ==> nc.username == h.username && nc.port == port)
      ensures Valid()
    {
      ghost var id := PeerId(ip, port);
      ghost var busy, base, ui0 := Busy(id, probeOk), Kept(id, probeOk), Probed(id, probeOk);
      nc := new Client.FromAddress(ip, port, name, username, listenPort);
      assert nc.Id() == id;
      assert Busy(id, probeOk) == busy && Kept(id, probeOk) == base && Probed(id, probeOk) == ui0;
      outcome := Recruit(nc, probeOk, dialOk, remoteBytes, sendOk);
    }

    /** `addClient(socket)` once the accepted client nc has passed its
        handshake: the duplicate check, then `registerClient`, the gossip
        about nc and `clients.add(nc)`, unless a live duplicate is kept. */
    method Settle(nc: Client, probeOk: bool, fails: set<Client>, ghost failing: set<Client>, ghost peers: set<Client>)
      returns (outcome: Admission)
      requires Valid() && Member(nc, username, listenPort) && nc !in peers
      requires forall c :: c in clients ==> c in peers && (c in failing <==> c in fails || !c.Usable())
      modifies this`clients, this`ui, nc`listeners, peers`written, peers`listeners, peers`keepRunning, peers`closed
      ensures outcome == (if old(Busy(nc.Id(), probeOk)) then DuplicateAlive else Added)
      ensures outcome == DuplicateAlive ==>
        clients == old(Kept(nc.Id(), probeOk)) && ui == old(Probed(nc.Id(), probeOk)) && nc.listeners == old(nc.listeners)
      ensures outcome == Added ==>
        var base := old(Kept(nc.Id(), probeOk));
        && clients == Without(base, failing) + [nc]
        && ui == old(Probed(nc.Id(), probeOk)) + [ClientConnected(nc)] + Dropped(Failed(base, failing), ExchangeFailed)
        && nc.listeners == old(nc.listeners) + [self]
      ensures nc.username == old(nc.username) && nc.port == old(nc.port)
      ensures nc.written == old(nc.written) && nc.closed == old(nc.closed)
      ensures Valid()
    {
      var busy := ProbeDuplicate(nc, probeOk);
      if busy {
        return DuplicateAlive;
      }
      Enrol(nc, fails, failing, peers);
      return Added;
    }

    /** The start of `addClient(socket)`: the accepted connection from ip
        becomes a client with no username and port -1 and runs the
        handshake; a rejected one is disconnected. Nothing that existed
        before changes. */
    method Accept(ip: Ipv4, remoteBytes: seq<byte>, sendOk: bool) returns (nc: Client, r: HandshakeResult)
      ensures fresh(nc) && nc.ip == ip
      ensures var h := HandshakeRule(sendOk, None, -1, remoteBytes);
        && r == h.result
        && nc.written == (if sendOk then [Handshake(username, listenPort)] else [])
        && nc.closed == (r == Rejected)
        && nc.listeners == []
        && (r == Accepted ==> nc.username == h.username && nc.port == h.port && Member(nc, username, listenPort))
    {
      nc := new Client.FromSocket(ip, remoteBytes, username, listenPort);
      r := nc.PerformHandshake(sendOk);
      if r == Rejected {
        nc.Disconnect();
      }
      if r == Accepted {
        AcceptedHandshake(sendOk, None, -1, remoteBytes);
      }
    }

    /** `addClient(socket)`: the accepted client must pass the handshake
        first. A failed handshake disconnects it; an exception inside the
        handshake ends the task with nothing changed; a live duplicate makes
        the new client be discarded without closing it. */
    method AddClientFromSocket(ip: Ipv4, remoteBytes: seq<byte>, sendOk: bool, probeOk: bool, fails: set<Client>)
      returns (nc: Client, outcome: Admission)
      requires Valid()
      modifies this`clients, this`ui, clients`written, clients`listeners, clients`keepRunning, clients`closed
      ensures fresh(nc) && nc.ip == ip
      ensures var h := HandshakeRule(sendOk, None, -1, remoteBytes);
        var id := PeerId(ip, h.port);
        var busy, base, ui0 := old(Busy(id, probeOk)), old(Kept(id, probeOk)), old(Probed(id, probeOk));
        var failing := old(Failing(clients, fails));
        && outcome == (if h.result != Accepted then AfterHandshake(h.result) else if busy then DuplicateAlive else Added)
        && clients == (if outcome == Added then Without(base, failing) + [nc] else if outcome == DuplicateAlive then base else old(clients))
        && ui == (if outcome == Added then ui0 + [ClientConnected(nc)] + Dropped(Failed(base, failing), ExchangeFailed)
                  else if outcome == DuplicateAlive then ui0 else old(ui))
        && nc.written == (if sendOk then [Handshake(username, listenPort)] else [])
        && nc.closed == (outcome == HandshakeFailed)
        && nc.listeners == (if outcome == Added then [self] else [])
        && (h.result == Accepted ==> nc.username == h.username && nc.port == h.port)
      ensures Valid()
    {
      ghost var failing, peers := Failing(clients, fails), set c | c in clients;
      var r;
      nc, r := Accept(ip, remoteBytes, sendOk);
      if r != Accepted {
        return nc, AfterHandshake(r);
      }
      assert nc !in peers;
      outcome := Settle(nc, probeOk, fails, failing, peers);
    }

    /** `broadcastChatMessage`: a chat message to every peer; a peer whose
        write fails is removed, closed and reported (its listener is left
        registered). The interface hears once, after the whole pass, that
        the message went out. */
    method BroadcastChatMessage(text: JString, now: int64, fails: set<Client>)
      requires Valid()
      modifies this`clients, this`ui, clients`written, clients`listeners, clients`keepRunning, clients`closed
      ensures finished ==> unchanged(this) && unchanged(clients)
      ensures !finished ==> var cs, failing := old(clients), old(Failing(clients, fails));
        && clients == Without(cs, failing)
        && ui == old(ui) + Dropped(Failed(cs, failing), BroadcastFailed) + [BroadcastSent(now, text)]
        && forall i :: 0 <= i < |cs| ==>
             StateOf(cs[i]) == AfterBroadcast(old(StateOf(cs[i])), cs[i] !in failing, Chat(now, username, text))
      ensures Valid()
    {
      if finished {
        return;
      }
      SweepClients(Broadcast(Chat(now, username, text)), fails);
      ui := ui + [BroadcastSent(now, text)];
    }

    /** The task `privateChatMessage` (newer copy) hands to the pool: a
        private chat to c; if the write fails, c is removed, unlistened,
        closed and reported. The interface hears that the message was sent
        either way. */
    method PrivateChatTask(c: Client, text: JString, now: int64, ok: bool) returns (sent: bool)
      requires Valid()
      modifies this`clients, this`ui, c`written, c`listeners, c`keepRunning, c`closed
      ensures sent == (ok && old(c.Usable()))
      ensures StateOf(c) == AfterSend(old(StateOf(c)), sent, PrivateChat(now, c.localUsername, text), self)
      ensures clients == if sent then old(clients) else old(RemoveEqual(clients, c.Id()))
      ensures ui == old(ui) + (if sent then [] else [ClientDisconnected(PrivateFailed, c)]) + [PrivateSent(now, text, c)]
      ensures Valid()
    {
      sent := c.SendPrivateMessage(text, now, ok);
      if !sent {
        Evict(c, PrivateFailed);
      }
      ui := ui + [PrivateSent(now, text, c)];
    }

    /** `privateChatMessage` (newer copy): the private chat task, refused
        once the pool has shut down. */
    method PrivateChatMessage(c: Client, text: JString, now: int64, ok: bool) returns (sent: bool)
      requires Valid()
      modifies this`clients, this`ui, c`written, c`listeners, c`keepRunning, c`closed
      ensures sent == (!finished && ok && old(c.Usable()))
      ensures finished ==> unchanged(this) && unchanged(c)
      ensures !finished ==> StateOf(c) == AfterSend(old(StateOf(c)), sent, PrivateChat(now, c.localUsername, text), self)
      ensures !finished ==> clients == if sent then old(clients) else old(RemoveEqual(clients, c.Id()))
      ensures !finished ==> ui == old(ui) + (if sent then [] else [ClientDisconnected(PrivateFailed, c)]) + [PrivateSent(now, text, c)]
      ensures Valid()
    {
      if finished {
        return false;
      }
      sent := PrivateChatTask(c, text, now, ok);
    }

    /** `privateChatMessage` (older copy): the text goes out as an ordinary
        chat message, and no sent notification follows. */
    method LegacyPrivateChatMessage(c: Client, text: JString, now: int64, ok: bool) returns (sent: bool)
      requires Valid()
      modifies this`clients, this`ui, c`written, c`listeners, c`keepRunning, c`closed
      ensures sent == (!finished && ok && old(c.Usable()))
      ensures finished ==> unchanged(this) && unchanged(c)
      ensures !finished ==> StateOf(c) == AfterSend(old(StateOf(c)), sent, Chat(now, c.localUsername, text), self)
      ensures !finished ==> clients == if sent then old(clients) else old(RemoveEqual(clients, c.Id()))
      ensures !finished ==> ui == old(ui) + (if sent then [] else [ClientDisconnected(PrivateFailed, c)])
      ensures Valid()
    {
      if finished {
        return false;
      }
      sent := c.SendMessage(text, now, ok);
      if !sent {
        Evict(c, PrivateFailed);
      }
    }

    /** The task `disconnectMessageArrived` hands to the pool: stop
        listening to c, close it, remove it from the collection and tell
        the interface the user quit. */
    method DisconnectTask(c: Client)
      requires Valid()
      modifies this`clients, this`ui, c`listeners, c`keepRunning, c`closed
      ensures StateOf(c) == Dropping(old(StateOf(c)), self)
      ensures clients == old(RemoveEqual(clients, c.Id()))
      ensures ui == old(ui) + [ClientDisconnected(UserQuit, c)]
      ensures !Known(clients, c.Id())
      ensures Valid()
    {
      label L:
      Unlisten(c);
      KeepsValid@L();
      Forget(c);
      ui := ui + [ClientDisconnected(UserQuit, c)];
    }

    /** `disconnectMessageArrived`: the disconnect task; once the pool has
        shut down the refusal is caught and nothing happens. */
    method DisconnectMessageArrived(c: Client)
      requires Valid()
      modifies this`clients, this`ui, c`listeners, c`keepRunning, c`closed
      ensures finished ==> unchanged(this) && unchanged(c)
      ensures !finished ==> StateOf(c) == Dropping(old(StateOf(c)), self)
      ensures !finished ==> clients == old(RemoveEqual(clients, c.Id()))
      ensures !finished ==> ui == old(ui) + [ClientDisconnected(UserQuit, c)]
      ensures !finished ==> !Known(clients, c.Id())
      ensures Valid()
    {
      if finished {
        return;
      }
      DisconnectTask(c);
    }

    /** `chatMessageArrived`: the chat goes to the interface with its sender. */
    method ChatMessageArrived(c: Client, m: Message)
      requires m.Chat?
      modifies this`ui
      ensures ui == old(ui) + (if finished then [] else [BroadcastReceived(m.timestamp, m.body, c)])
    {
      if finished {
        return;
      }
      ui := ui + [BroadcastReceived(m.timestamp, m.body, c)];
    }

    /** `privateChatMessageArrived` (newer copy only). */
    method PrivateChatMessageArrived(c: Client, m: Message)
      requires m.PrivateChat?
      modifies this`ui
      ensures ui == old(ui) + (if finished then [] else [PrivateReceived(m.timestamp, m.body, c)])
    {
      if finished {
        return;
      }
      ui := ui + [PrivateReceived(m.timestamp, m.body, c)];
    }

    /** `clientMessageArrived`: the announced peer is added as if dialled by
        address, expecting the announced username. Its port is the masked
        16-bit value the decoder produced. */
    method ClientMessageArrived(c: Client, m: Message, probeOk: bool, dialOk: bool, remoteBytes: seq<byte>, sendOk: bool)
      returns (nc: Client?, outcome: Option<Admission>)
      requires Valid() && m.ClientExchange? && 0 <= m.port < TWO_16
      modifies this`clients, this`ui, clients`written, clients`listeners, clients`keepRunning, clients`closed
      ensures finished ==> nc == null && outcome == None && unchanged(this) && unchanged(clients)
      ensures !finished ==> nc != null && fresh(nc) && nc.ip == m.ip
      ensures !finished ==> var busy := old(Busy(PeerId(m.ip, m.port), probeOk));
        var h := HandshakeRule(sendOk, Some(m.username), m.port, remoteBytes);
        && outcome == Some(if busy then DuplicateAlive else if dialOk then AfterHandshake(h.result) else DialFailed)
        && (outcome == Some(Added) ==> nc.username == Some(m.username) && nc.port == m.port && nc in clients)
      ensures Valid()
    {
      if finished {
        return null, None;
      }
      var added, admitted := AddClientFromAddress(m.ip, m.port, Some(m.username), probeOk, dialOk, remoteBytes, sendOk);
      nc, outcome := added, Some(admitted);
    }

    /** `userRequestedShutdown`: the accept loop stops at its next timeout
        and then runs `doShutdown`. */
    method UserRequestedShutdown()
      modifies this`keepRunning
      ensures !keepRunning
    {
      keepRunning := false;
    }

    /** The peers of cs before the cursor i have been sent a disconnect
        (where the write succeeds) and closed; the others are as they were. */
    predicate ShutDownTo(cs: seq<Client>, i: int, fails: set<Client>, before: seq<PeerState>)
      requires |before| == |cs|
      reads cs`written, cs`listeners, cs`keepRunning, cs`connected, cs`closed
    {
      forall j :: 0 <= j < |cs| ==>
        StateOf(cs[j]) == if j < i then AfterShutdown(before[j], cs[j] !in fails && before[j].Open()) else before[j]
    }

    /** `doShutdown`: every peer is sent a disconnect message, a failed write
        being ignored, and is then closed; the collection is left as it is,
        and the worker pool stops taking tasks. */
    method DoShutdown(fails: set<Client>)
      requires Valid()
      modifies this`finished, clients`written, clients`keepRunning, clients`closed
      ensures finished && clients == old(clients)
      ensures forall i :: 0 <= i < |clients| ==>
        StateOf(clients[i]) == AfterShutdown(old(StateOf(clients[i])), clients[i] !in fails && old(clients[i].Usable()))
      ensures forall i :: 0 <= i < |clients| ==> clients[i].closed && !clients[i].keepRunning
    {
      var cs := clients;
      DistinctMembers(cs);
      ghost var before := seq(|cs|, j requires 0 <= j < |cs| reads cs => StateOf(cs[j]));
      var i := 0;
      while i < |cs|
        invariant 0 <= i <= |cs|
        invariant ShutDownTo(cs, i, fails, before)
      {
        var c := cs[i];
        var sent := c.SendDisconnectMessage(c !in fails);
        c.Disconnect();
        i := i + 1;
      }
      finished := true;
    }
  }
}
