/// One connection to a remote peer (`Client`): its identity, the handshake
/// that fixes the peer's username and listen port, the sends, and the read
/// loop that hands each received frame to the registered listeners.
///
/// The socket is abstracted: `connected` and `closed` are its two flags,
/// `inbound` holds every byte the remote will send before it closes its end
/// (running out is end-of-stream), and `written` collects the messages
/// written to it, whose bytes on the wire are `EncodeAll(written)`.
/// Whether a write is accepted by the network is an oracle argument. The
/// listener callbacks are recorded, in order, in `delivered`.

module Connection {
  import opened Bytes
  import opened Wrappers
  import Utf16
  import opened Messaging

  /** A registered `MessageListener`, by identity. */
  type ListenerId = nat

  /** What `equals(Client)` compares: the resolved address and the listen port. */
  datatype PeerId = PeerId(ip: Ipv4, port: int32)

  /** The four `MessageListener` callbacks. */
  datatype MessageEvent =
    | ChatArrived(chat: Message)
    | ClientArrived(exchange: Message)
    | DisconnectArrived
    | PrivateChatArrived(privateChat: Message)

  datatype Delivery = Delivery(listener: ListenerId, event: MessageEvent)

  /** Whether callback e is the one meant for message m, carrying m. */
  predicate Carries(e: MessageEvent, m: Message)
  {
    match e
    case ChatArrived(x) => m.Chat? && x == m
    case ClientArrived(x) => m.ClientExchange? && x == m
    case DisconnectArrived => m.Disconnect?
    case PrivateChatArrived(x) => m.PrivateChat? && x == m
  }

  /** One callback to every listener, in registration order. */
  function ToAll(ls: seq<ListenerId>, e: MessageEvent): (r: seq<Delivery>)
    ensures |r| == |ls|
    ensures forall i :: 0 <= i < |ls| ==> r[i] == Delivery(ls[i], e)
  {
    if ls == [] then [] else [Delivery(ls[0], e)] + ToAll(ls[1..], e)
  }

  lemma ToAllStep(pre: seq<Delivery>, ls: seq<ListenerId>, i: int, e: MessageEvent)
    requires 0 <= i < |ls|
    ensures pre + ToAll(ls[..i + 1], e) == pre + ToAll(ls[..i], e) + [Delivery(ls[i], e)]
  {
    assert ToAll(ls[..i + 1], e) == ToAll(ls[..i], e) + [Delivery(ls[i], e)];
  }

  /** The read loop's dispatch table for one decoded message. */
  function Dispatch(ls: seq<ListenerId>, m: Message): (r: seq<Delivery>)
    ensures m.Handshake? || m.KeepAlive? ==> r == []
    ensures !(m.Handshake? || m.KeepAlive?) ==>
      |r| == |ls| && forall i :: 0 <= i < |ls| ==> r[i].listener == ls[i] && Carries(r[i].event, m)
  {
    match m
    case Chat(_, _, _) => ToAll(ls, ChatArrived(m))
    case ClientExchange(_, _, _) => ToAll(ls, ClientArrived(m))
    case Disconnect => ToAll(ls, DisconnectArrived)
    case PrivateChat(_, _, _) => ToAll(ls, PrivateChatArrived(m))
    case Handshake(_, _) => []
    case KeepAlive => []
  }

  /** Every callback the read loop makes while reading stream s: each frame
      is dispatched, `null` is retried, and the first failure (end of stream
      or a negative size) ends the loop with one disconnect callback per
      listener. */
  function ReadLoop(ls: seq<ListenerId>, s: seq<byte>): seq<Delivery>
    decreases |s|
  {
    match Decode(s)
    case Frame(m, rest) => Dispatch(ls, m) + ReadLoop(ls, rest)
    case Unrecognised(_, rest) => ReadLoop(ls, rest)
    case _ => ToAll(ls, DisconnectArrived)
  }

  /** The first decode outcome that is not `null`: what the handshake loop
      settles on. */
  function NextFrame(s: seq<byte>): (r: DecodeResult)
    ensures !r.Unrecognised?
    ensures r.Frame? ==> |r.rest| < |s| && r.rest == s[|s| - |r.rest|..]
    decreases |s|
  {
    match Decode(s)
    case Unrecognised(_, rest) =>
      var r := NextFrame(rest);
      assert r.Frame? ==> r.rest == rest[|rest| - |r.rest|..];
      r
    case r => r
  }

  /** The username and listen port after the handshake's checks, and
      whether they passed. */
  datatype Adoption = Adoption(accepted: bool, username: Option<JString>, port: int32)

  /** An unknown username or a negative port is adopted from the handshake;
      a known one must equal it. The username is settled first, so a port
      mismatch leaves an adopted username in place. */
  function AdoptOrVerify(username: Option<JString>, port: int32, declaredName: JString, declaredPort: int32)
    : (a: Adoption)
    ensures a.accepted <==>
      (username.None? || username == Some(declaredName)) && (port < 0 || port == declaredPort)
    ensures a.accepted ==> a.username == Some(declaredName) && a.port == declaredPort
    ensures username.Some? && username != Some(declaredName) ==> a.username == username && a.port == port
    ensures username.None? ==> a.username == Some(declaredName)
    ensures port >= 0 ==> a.port == port
  {
    if username.Some? && username.value != declaredName then Adoption(false, username, port)
    else
      var name := Some(declaredName);
      if port < 0 then Adoption(true, name, declaredPort)
      else Adoption(port == declaredPort, name, port)
  }

  /** How `performHandshake` ends: true, false, or an unchecked exception
      (a negative size read) that escapes it. */
  datatype HandshakeResult = Accepted | Rejected | Crashed

  /** The result and the fields `performHandshake` leaves behind. */
  datatype HandshakeOutcome =
    HandshakeOutcome(result: HandshakeResult, username: Option<JString>, port: int32, inbound: seq<byte>)

  /** `performHandshake` as a function of whether the outgoing handshake was
      written, the fields before, and the incoming stream. A stream that
      ends or fails is not read again. */
  function HandshakeRule(sent: bool, username: Option<JString>, port: int32, s: seq<byte>): HandshakeOutcome
  {
    if !sent then HandshakeOutcome(Rejected, username, port, s)
    else
      match NextFrame(s)
      case Frame(m, rest) =>
        if m.Handshake? then
          var a := AdoptOrVerify(username, port, m.username, m.listenPort);
          HandshakeOutcome(if a.accepted then Accepted else Rejected, a.username, a.port, rest)
        else HandshakeOutcome(Rejected, username, port, rest)
      case NegativeSize => HandshakeOutcome(Crashed, username, port, [])
      case _ => HandshakeOutcome(Rejected, username, port, [])
  }

  class Client {
    const ip: Ipv4
    var port: int32
    var username: Option<JString>
    const localUsername: JString
    const localPort: int32
    var listeners: seq<ListenerId>
    var keepRunning: bool
    var connected: bool
    var closed: bool
    var inbound: seq<byte>
    /** The messages written to the socket, in order. */
    var written: seq<Message>
    var delivered: seq<Delivery>

    /** A client to dial later, with a known listen port and a username that
        may be unknown. */
    constructor FromAddress(ip: Ipv4, port: int32, username: Option<JString>, localUsername: JString, localPort: int32)
      ensures this.ip == ip && this.port == port && this.username == username
      ensures this.localUsername == localUsername && this.localPort == localPort
      ensures listeners == [] && keepRunning && !connected && !closed
      ensures inbound == [] && written == [] && delivered == []
    {
      this.ip := ip;
      this.port := port;
      this.username := username;
      this.localUsername := localUsername;
      this.localPort := localPort;
      listeners := [];
      keepRunning := true;
      connected := false;
      closed := false;
      inbound := [];
      written := [];
      delivered := [];
    }

    /** A client for an accepted connection: port -1 and no username until
        the handshake supplies them. */
    constructor FromSocket(ip: Ipv4, remoteBytes: seq<byte>, localUsername: JString, localPort: int32)
      ensures this.ip == ip && port == -1 && username == None
      ensures this.localUsername == localUsername && this.localPort == localPort
      ensures listeners == [] && keepRunning && connected && !closed
      ensures inbound == remoteBytes && written == [] && delivered == []
    {
      this.ip := ip;
      port := -1;
      username := None;
      this.localUsername := localUsername;
      this.localPort := localPort;
      listeners := [];
      keepRunning := true;
      connected := true;
      closed := false;
      inbound := remoteBytes;
      written := [];
      delivered := [];
    }

    function Id(): PeerId
      reads this`port
    {
      PeerId(ip, port)
    }

    /** `equals(Client)`: same address and same listen port; the username
        plays no part. */
    predicate Equals(other: Client)
      reads this`port, other`port
    {
      ip == other.ip && port == other.port
    }

    /** Whether `getInputStream`/`getOutputStream` succeed. */
    predicate Usable()
      reads this`connected, this`closed
    {
      connected && !closed
    }

    /** `connect`: dials only an unconnected socket; a closed socket or a
        failed dial throws. */
    method Connect(dialOk: bool, remoteBytes: seq<byte>) returns (ok: bool)
      requires 0 <= port < TWO_16
      modifies this`connected, this`inbound
      ensures ok == (old(connected) || (!closed && dialOk))
      ensures connected == ok
      ensures inbound == if !old(connected) && ok then remoteBytes else old(inbound)
    {
      if !connected {
        if closed || !dialOk {
          return false;
        }
        connected := true;
        inbound := remoteBytes;
      }
      return true;
    }

    /** `encodeMessage` onto the output stream: written when the socket is
        usable and the network accepts it, otherwise an IOException. */
    method Send(m: Message, ok: bool) returns (sent: bool)
      modifies this`written
      ensures sent == (ok && Usable())
      ensures written == if sent then old(written) + [m] else old(written)
    {
      sent := ok && Usable();
      if sent {
        written := written + [m];
      }
    }

    method SendMessage(text: JString, now: int64, ok: bool) returns (sent: bool)
      modifies this`written
      ensures sent == (ok && Usable())
      ensures written == if sent then old(written) + [Chat(now, localUsername, text)] else old(written)
    {
      sent := Send(Chat(now, localUsername, text), ok);
    }

    method SendPrivateMessage(text: JString, now: int64, ok: bool) returns (sent: bool)
      modifies this`written
      ensures sent == (ok && Usable())
      ensures written == if sent then old(written) + [PrivateChat(now, localUsername, text)] else old(written)
    {
      sent := Send(PrivateChat(now, localUsername, text), ok);
    }

    /** `sendClient`; the other client's username is read, so it must be known. */
    method SendClient(other: Client, ok: bool) returns (sent: bool)
      requires other.username.Some?
      modifies this`written
      ensures sent == (ok && Usable())
      ensures written == if sent then old(written) + [ExchangeOf(other)] else old(written)
    {
      sent := Send(ClientExchange(other.ip, other.port, other.username.value), ok);
    }

    method SendDisconnectMessage(ok: bool) returns (sent: bool)
      modifies this`written
      ensures sent == (ok && Usable())
      ensures written == if sent then old(written) + [Messaging.Disconnect] else old(written)
    {
      sent := Send(Messaging.Disconnect, ok);
    }

    method SendKeepAliveMessage(ok: bool) returns (sent: bool)
      modifies this`written
      ensures sent == (ok && Usable())
      ensures written == if sent then old(written) + [KeepAlive] else old(written)
    {
      sent := Send(KeepAlive, ok);
    }

    /** The handshake's decode loop: decode until the result is not `null`.
        A failed read leaves nothing more to read. */
    method AwaitMessage() returns (d: DecodeResult)
      modifies this`inbound
      ensures d == NextFrame(old(inbound))
      ensures inbound == if d.Frame? then d.rest else []
    {
      d := Decode(inbound);
      while d.Unrecognised?
        invariant d == Decode(inbound)
        invariant NextFrame(inbound) == NextFrame(old(inbound))
        decreases |inbound|
      {
        inbound := d.rest;
        d := Decode(inbound);
      }
      if d.Frame? {
        inbound := d.rest;
      } else {
        inbound := [];
      }
    }

    /** `performHandshake`: send ours, skip `null` results, take the first
        message, which must be a handshake, then adopt or verify the peer's
        username and port. */
    method PerformHandshake(sendOk: bool) returns (r: HandshakeResult)
      modifies this`username, this`port, this`inbound, this`written
      ensures var sent := sendOk && old(Usable());
        && written == (if sent then old(written) + [Handshake(localUsername, localPort)] else old(written))
        && HandshakeOutcome(r, username, port, inbound) == HandshakeRule(sent, old(username), old(port), old(inbound))
    {
      var sent := Send(Handshake(localUsername, localPort), sendOk);
      if !sent {
        return Rejected;
      }
      var d := AwaitMessage();
      if !d.Frame? {
        return if d.NegativeSize? then Crashed else Rejected;
      }
      if !d.msg.Handshake? {
        return Rejected;
      }
      var received := d.msg;
      if username.None? {
        username := Some(received.username);
      } else if username.value != received.username {
        return Rejected;
      }
      if port < 0 {
        port := received.listenPort;
      } else if port != received.listenPort {
        return Rejected;
      }
      return Accepted;
    }

    /** `disconnect`: stops the read loop and closes the socket (closing an
        already closed socket only prints a warning). */
    method Disconnect()
      modifies this`keepRunning, this`closed
      ensures !keepRunning && closed
    {
      keepRunning := false;
      if !closed {
        closed := true;
      }
    }

    method AddMessageListener(l: ListenerId)
      modifies this`listeners
      ensures listeners == old(listeners) + [l]
    {
      listeners := listeners + [l];
    }

    method RemoveMessageListener(l: ListenerId)
      modifies this`listeners
      ensures listeners == RemoveFirst(old(listeners), l)
    {
      listeners := RemoveFirst(listeners, l);
    }

    /** One callback to every listener. */
    method Notify(e: MessageEvent)
      modifies this`delivered
      ensures delivered == old(delivered) + ToAll(listeners, e)
    {
      var i := 0;
      while i < |listeners|
        invariant 0 <= i <= |listeners|
        invariant delivered == old(delivered) + ToAll(listeners[..i], e)
      {
        ToAllStep(old(delivered), listeners, i, e);
        delivered := delivered + [Delivery(listeners[i], e)];
        i := i + 1;
      }
      assert listeners[..i] == listeners;
    }

    /** The dispatch branches of the read loop for one message. */
    method Deliver(m: Message)
      modifies this`delivered
      ensures delivered == old(delivered) + Dispatch(listeners, m)
    {
      match m
      case Chat(_, _, _) => Notify(ChatArrived(m));
      case ClientExchange(_, _, _) => Notify(ClientArrived(m));
      case Disconnect => Notify(DisconnectArrived);
      case PrivateChat(_, _, _) => Notify(PrivateChatArrived(m));
      case Handshake(_, _) =>
      case KeepAlive =>
    }

    /** `run`: read and dispatch until an exception, which stops the loop and
        is announced as one disconnect callback per listener. An unusable
        socket fails on the first read. */
    method Run()
      modifies this`keepRunning, this`inbound, this`delivered
      ensures !keepRunning
      ensures delivered == old(delivered) + (
        if !old(keepRunning) then []
        else if !Usable() then ToAll(listeners, DisconnectArrived)
        else ReadLoop(listeners, old(inbound)))
      ensures inbound == if old(keepRunning) then [] else old(inbound)
    {
      ghost var ls, usable := listeners, Usable();
      ghost var total := old(delivered) + (
        if !old(keepRunning) then []
        else if !usable then ToAll(ls, DisconnectArrived)
        else ReadLoop(ls, old(inbound)));
      while keepRunning
        invariant keepRunning ==> old(keepRunning)
        invariant keepRunning && usable ==> delivered + ReadLoop(ls, inbound) == total
        invariant keepRunning && !usable ==> delivered == old(delivered)
        invariant !keepRunning ==> delivered == total
        invariant !keepRunning ==> inbound == (if old(keepRunning) then [] else old(inbound))
        decreases keepRunning, |inbound|
      {
        if !Usable() {
          keepRunning := false;
          inbound := [];
          Notify(DisconnectArrived);
        } else {
          var failed := ReadOnce();
          if failed {
            keepRunning := false;
          }
        }
      }
    }

    /** One pass of the read loop on a usable socket: a `null` result is
        retried, a message is dispatched, and a failed read is announced as
        a disconnect to every listener, after which nothing is left to read. */
    method ReadOnce() returns (failed: bool)
      requires Usable()
      modifies this`inbound, this`delivered
      ensures !failed ==> |inbound| < |old(inbound)|
      ensures !failed ==> delivered + ReadLoop(listeners, inbound) == old(delivered) + ReadLoop(listeners, old(inbound))
      ensures failed ==> inbound == [] && delivered == old(delivered) + ReadLoop(listeners, old(inbound))
    {
      var d := Decode(inbound);
      ReadLoopStep(listeners, inbound);
      failed := !(d.Unrecognised? || d.Frame?);
      if d.Unrecognised? {
        inbound := d.rest;
      } else if d.Frame? {
        inbound := d.rest;
        Deliver(d.msg);
      } else {
        inbound := [];
        Notify(DisconnectArrived);
      }
    }
  }

  /** One pass of the read loop, as `ReadLoop` unfolds it. */
  lemma ReadLoopStep(ls: seq<ListenerId>, s: seq<byte>)
    ensures var d := Decode(s);
      && (d.Frame? ==> |d.rest| < |s| && ReadLoop(ls, s) == Dispatch(ls, d.msg) + ReadLoop(ls, d.rest))
      && (d.Unrecognised? ==> |d.rest| < |s| && ReadLoop(ls, s) == ReadLoop(ls, d.rest))
      && (d.Truncated? || d.NegativeSize? ==> ReadLoop(ls, s) == ToAll(ls, DisconnectArrived))
  {
  }

  /** The exchange message `sendClient` builds for a client whose username is known. */
  function ExchangeOf(c: Client): Message
    requires c.username.Some?
    reads c`port, c`username
  {
    ClientExchange(c.ip, c.port, c.username.value)
  }

  /** `Collection.remove`: drops the first occurrence, if any. */
  function RemoveFirst<T(==)>(s: seq<T>, x: T): seq<T>
  {
    if s == [] then []
    else if s[0] == x then s[1..]
    else [s[0]] + RemoveFirst(s[1..], x)
  }

  /** `remove` takes out one occurrence of x when there is one and changes
      nothing otherwise. */
  lemma {:induction false} RemoveFirstCounts<T>(s: seq<T>, x: T)
    ensures x in s ==> |RemoveFirst(s, x)| == |s| - 1
    ensures x !in s ==> RemoveFirst(s, x) == s
    ensures multiset(RemoveFirst(s, x)) == multiset(s) - multiset{x}
  {
    if s != [] {
      assert s == [s[0]] + s[1..];
      RemoveFirstCounts(s[1..], x);
    }
  }

  // ---------------------------------------------------------------------
  // Properties of the read loop and of the handshake

  /** A frame in the stream reaches the listeners its type selects, and
      reading continues right after it. */
  lemma ReadLoopFrame(ls: seq<ListenerId>, m: Message, rest: seq<byte>)
    requires WellFormed(m)
    ensures ReadLoop(ls, Encode(m) + rest) == Dispatch(ls, m) + ReadLoop(ls, rest)
  {
    RoundTrip(m, rest);
  }

  /** A keep-alive reaches no listener. */
  lemma KeepAliveSwallowed(ls: seq<ListenerId>, rest: seq<byte>)
    ensures ReadLoop(ls, Encode(KeepAlive) + rest) == ReadLoop(ls, rest)
  {
    ReadLoopFrame(ls, KeepAlive, rest);
  }

  /** An unknown type is a `null` result: retried, nothing delivered. */
  lemma UnknownFrameSkipped(ls: seq<ListenerId>, header: seq<byte>, rest: seq<byte>)
    requires |header| == 5 && header[4] > TYPE_PRIVATE_CHAT_MESSAGE
    ensures ReadLoop(ls, header + rest) == ReadLoop(ls, rest)
  {
    UnknownTypeDecode(header + rest);
    assert (header + rest)[5..] == rest;
  }

  /** Whatever the stream holds, the loop ends by announcing one disconnect
      to each listener. */
  lemma {:induction false} ReadLoopEndsWithDisconnect(ls: seq<ListenerId>, s: seq<byte>)
    ensures var r := ReadLoop(ls, s);
      |r| >= |ls| && r[|r| - |ls|..] == ToAll(ls, DisconnectArrived)
    decreases |s|
  {
    var d := Decode(s);
    ReadLoopStep(ls, s);
    if d.Frame? {
      ReadLoopEndsWithDisconnect(ls, d.rest);
      SuffixOfAppend(Dispatch(ls, d.msg), ReadLoop(ls, d.rest), |ls|);
    } else if d.Unrecognised? {
      ReadLoopEndsWithDisconnect(ls, d.rest);
    } else {
      var r := ReadLoop(ls, s);
      assert r[|r| - |ls|..] == r;
    }
  }

  lemma SuffixOfAppend(a: seq<Delivery>, t: seq<Delivery>, n: nat)
    requires n <= |t|
    ensures (a + t)[|a + t| - n..] == t[|t| - n..]
  {
  }

  /** The frames of a sequence of messages, back to back. */
  function EncodeAll(ms: seq<Message>): (r: seq<byte>)
    ensures |r| >= 5 * |ms|
  {
    if ms == [] then [] else Encode(ms[0]) + EncodeAll(ms[1..])
  }

  /** Writing one more message puts its frame after the others. */
  lemma {:induction false} EncodeAllAppend(ms: seq<Message>, m: Message)
    ensures EncodeAll(ms + [m]) == EncodeAll(ms) + Encode(m)
  {
    if ms == [] {
      assert [m][1..] == [];
    } else {
      assert (ms + [m])[1..] == ms[1..] + [m];
      EncodeAllAppend(ms[1..], m);
    }
  }

  function DispatchAll(ls: seq<ListenerId>, ms: seq<Message>): seq<Delivery>
  {
    if ms == [] then [] else Dispatch(ls, ms[0]) + DispatchAll(ls, ms[1..])
  }

  /** A peer that sends well-formed messages and then closes its end: every
      message is dispatched in order, then one disconnect per listener. */
  lemma {:induction false} ReadLoopOfSession(ls: seq<ListenerId>, ms: seq<Message>)
    requires forall i :: 0 <= i < |ms| ==> WellFormed(ms[i])
    ensures ReadLoop(ls, EncodeAll(ms)) == DispatchAll(ls, ms) + ToAll(ls, DisconnectArrived)
  {
    if ms == [] {
      EndOfStream(ls);
    } else {
      ReadLoopOfSession(ls, ms[1..]);
      SessionStep(ls, ms);
    }
  }

  lemma EndOfStream(ls: seq<ListenerId>)
    ensures ReadLoop(ls, []) == ToAll(ls, DisconnectArrived)
  {
    assert Decode([]) == Truncated;
  }

  lemma SessionStep(ls: seq<ListenerId>, ms: seq<Message>)
    requires ms != [] && WellFormed(ms[0])
    requires ReadLoop(ls, EncodeAll(ms[1..])) == DispatchAll(ls, ms[1..]) + ToAll(ls, DisconnectArrived)
    ensures ReadLoop(ls, EncodeAll(ms)) == DispatchAll(ls, ms) + ToAll(ls, DisconnectArrived)
  {
    FrameThen(ls, ms[0], EncodeAll(ms[1..]), DispatchAll(ls, ms[1..]), ToAll(ls, DisconnectArrived));
  }

  lemma FrameThen(ls: seq<ListenerId>, m: Message, t: seq<byte>, b: seq<Delivery>, c: seq<Delivery>)
    requires WellFormed(m) && ReadLoop(ls, t) == b + c
    ensures ReadLoop(ls, Encode(m) + t) == (Dispatch(ls, m) + b) + c
  {
    ReadLoopFrame(ls, m, t);
    assert Dispatch(ls, m) + (b + c) == (Dispatch(ls, m) + b) + c;
  }

  /** The handshake against a peer whose first frame is a handshake: it
      passes exactly when the adopt-or-verify rule does, and then the
      client knows the peer's username and listen port. */
  lemma HandshakeWithPeer(username: Option<JString>, port: int32, m: Message, rest: seq<byte>)
    requires m.Handshake? && WellFormed(m)
    ensures var h := HandshakeRule(true, username, port, Encode(m) + rest);
      && (h.result == Accepted <==>
           (username.None? || username == Some(m.username)) && (port < 0 || port == m.listenPort))
      && h.result != Crashed
      && h.inbound == rest
      && (h.result == Accepted ==> h.username == Some(m.username) && h.port == m.listenPort)
  {
    RoundTrip(m, rest);
  }

  /** A client built from a socket accepts any handshake and takes the
      peer's username and listen port from it. */
  lemma SocketClientAdopts(m: Message, rest: seq<byte>)
    requires m.Handshake? && WellFormed(m)
    ensures HandshakeRule(true, None, -1, Encode(m) + rest)
         == HandshakeOutcome(Accepted, Some(m.username), m.listenPort, rest)
  {
    RoundTrip(m, rest);
  }

  /** The handshake must come first: any other message fails it and leaves
      the fields as they were. */
  lemma HandshakeMustComeFirst(username: Option<JString>, port: int32, m: Message, rest: seq<byte>)
    requires !m.Handshake? && WellFormed(m)
    ensures HandshakeRule(true, username, port, Encode(m) + rest)
         == HandshakeOutcome(Rejected, username, port, rest)
  {
    RoundTrip(m, rest);
  }

  /** Frames of unknown type before the handshake are skipped. */
  lemma HandshakeSkipsUnknown(username: Option<JString>, port: int32, header: seq<byte>, rest: seq<byte>)
    requires |header| == 5 && header[4] > TYPE_PRIVATE_CHAT_MESSAGE
    ensures HandshakeRule(true, username, port, header + rest) == HandshakeRule(true, username, port, rest)
  {
    UnknownTypeDecode(header + rest);
    assert (header + rest)[5..] == rest;
  }

  /** A passed handshake leaves a known username and never moves a listen
      port that was already known, so a dialled client keeps its identity. */
  lemma AcceptedHandshake(sent: bool, username: Option<JString>, port: int32, s: seq<byte>)
    ensures var h := HandshakeRule(sent, username, port, s);
      h.result == Accepted ==>
        && sent && h.username.Some?
        && (username.Some? ==> h.username == username)
        && (port >= 0 ==> h.port == port)
  {
  }

  /** `equals(Client)` is an equivalence on clients, and the username plays
      no part in it. */
  lemma EqualsIsIdentity(a: Client, b: Client, c: Client)
    ensures a.Equals(b) <==> a.Id() == b.Id()
    ensures a.Equals(a)
    ensures a.Equals(b) ==> b.Equals(a)
    ensures a.Equals(b) && b.Equals(c) ==> a.Equals(c)
  {
  }
}
