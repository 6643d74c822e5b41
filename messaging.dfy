/// The chat wire format: every frame is a 4-byte big-endian length, a 1-byte
/// type tag and a payload whose layout depends on the type.

module Messaging {
  import opened Bytes
  import Utf16
  type JString = Utf16.JString

  const TYPE_CHAT_MESSAGE: byte := 0
  const TYPE_CLIENT_EXCHANGE_MESSAGE: byte := 1
  const TYPE_DISCONNECT_MESSAGE: byte := 2
  const TYPE_HANDSHAKE_MESSAGE: byte := 3
  const TYPE_KEEPALIVE_MESSAGE: byte := 4
  const TYPE_PRIVATE_CHAT_MESSAGE: byte := 5

  /** An IPv4 address as the four bytes `InetAddress.getAddress` yields. */
  type Ipv4 = s: seq<byte> | |s| == 4 witness [0, 0, 0, 0]

  /** The six message classes; a value's fields are what its getters return. */
  datatype Message =
    | Chat(timestamp: int64, username: JString, body: JString)
    | ClientExchange(ip: Ipv4, port: int32, username: JString)
    | Disconnect
    | Handshake(username: JString, listenPort: int32)
    | KeepAlive
    | PrivateChat(timestamp: int64, username: JString, body: JString)

  function TypeOf(m: Message): byte
  {
    match m
    case Chat(_, _, _) => TYPE_CHAT_MESSAGE
    case ClientExchange(_, _, _) => TYPE_CLIENT_EXCHANGE_MESSAGE
    case Disconnect => TYPE_DISCONNECT_MESSAGE
    case Handshake(_, _) => TYPE_HANDSHAKE_MESSAGE
    case KeepAlive => TYPE_KEEPALIVE_MESSAGE
    case PrivateChat(_, _, _) => TYPE_PRIVATE_CHAT_MESSAGE
  }

  /** The length each constructor computes, before Java's `int` arithmetic
      wraps it. */
  function RawLength(m: Message): int
  {
    match m
    case Chat(_, u, b) => 13 + |Utf16.Encode(u)| + |Utf16.Encode(b)|
    case PrivateChat(_, u, b) => 13 + |Utf16.Encode(u)| + |Utf16.Encode(b)|
    case ClientExchange(_, _, u) => 7 + |Utf16.Encode(u)|
    case Handshake(u, _) => 3 + |Utf16.PROTOCOL_BYTES| + |Utf16.Encode(u)|
    case Disconnect => 1
    case KeepAlive => 1
  }

  /** `getLength()`: the constructor's formula evaluated in 32-bit `int`. */
  function Length(m: Message): int32
  {
    Wrap32(RawLength(m))
  }

  /** A message whose fields survive the trip through the wire: its length
      does not overflow an `int`, a port fits the 2 bytes it is sent in, and
      its strings are well-formed UTF-16 without U+FFFE, which the decoder
      would replace by U+FFFD. */
  predicate WellFormed(m: Message)
  {
    && RawLength(m) < TWO_31
    && (m.ClientExchange? ==> 0 <= m.port < TWO_16)
    && (m.Handshake? ==> 0 <= m.listenPort < TWO_16)
    && (!(m.Disconnect? || m.KeepAlive?) ==> Utf16.Valid(m.username))
    && (m.Chat? || m.PrivateChat? ==> Utf16.Valid(m.body))
  }

  /** The bytes `encodeMessage` writes after the type byte. */
  function Payload(m: Message): seq<byte>
  {
    match m
    case Chat(ts, u, b) =>
      Int64Bytes(ts) + Int32Bytes(|Utf16.Encode(u)|) + Utf16.Encode(u) + Utf16.Encode(b)
    case PrivateChat(ts, u, b) =>
      Int64Bytes(ts) + Int32Bytes(|Utf16.Encode(u)|) + Utf16.Encode(u) + Utf16.Encode(b)
    case ClientExchange(ip, p, u) => ip + Int16Bytes(p) + Utf16.Encode(u)
    case Handshake(u, p) => Utf16.PROTOCOL_BYTES + Int16Bytes(p) + Utf16.Encode(u)
    // Not in encodeMessage's switch; unreachable there, as the length is 1.
    case Disconnect => []
    case KeepAlive => []
  }

  /** `encodeMessage`: length and type always, the payload only when the
      length exceeds 1. */
  function Encode(m: Message): (r: seq<byte>)
    ensures |r| >= 5 && r[..4] == Int32Bytes(Length(m)) && r[4] == TypeOf(m)
    ensures Length(m) <= 1 ==> |r| == 5
  {
    Int32Bytes(Length(m)) + [TypeOf(m)] + (if Length(m) > 1 then Payload(m) else [])
  }

  /** What one `decodeMessage` call does to the stream. */
  datatype DecodeResult =
      /** A message, and the bytes left after its frame. */
    | Frame(msg: Message, rest: seq<byte>)
      /** `null` for an unknown type; only the 5 header bytes are read. */
    | Unrecognised(tag: byte, rest: seq<byte>)
      /** The stream ended inside the frame (`EOFException`). */
    | Truncated
      /** A negative byte count (`NegativeArraySizeException`). */
    | NegativeSize
  {
    predicate Consumed(s: seq<byte>)
    {
      (Frame? || Unrecognised?) ==> |rest| < |s| && rest == s[|s| - |rest|..]
    }
  }

  /** `decodeMessage` reading from a stream whose remaining bytes are s. */
  function Decode(s: seq<byte>): (r: DecodeResult)
    ensures r.Consumed(s)
  {
    if |s| < 5 then Truncated
    else
      var len, tag, p := ReadInt32(s[..4]), s[4], s[5..];
      assert p == s[|s| - |p|..];
      if tag == TYPE_CHAT_MESSAGE then DecodeChat(len, false, p)
      else if tag == TYPE_PRIVATE_CHAT_MESSAGE then DecodeChat(len, true, p)
      else if tag == TYPE_CLIENT_EXCHANGE_MESSAGE then DecodeExchange(len, p)
      else if tag == TYPE_HANDSHAKE_MESSAGE then DecodeHandshake(len, p)
      else if tag == TYPE_DISCONNECT_MESSAGE then Frame(Disconnect, p)
      else if tag == TYPE_KEEPALIVE_MESSAGE then Frame(KeepAlive, p)
      else Unrecognised(tag, p)
  }

  /** Chat and private chat payload: timestamp, username byte count, username,
      then a body of `length - 13 - usernameLength` bytes. */
  function DecodeChat(len: int32, isPrivate: bool, p: seq<byte>): (r: DecodeResult)
    ensures r.Consumed(p) && !r.Unrecognised?
  {
    if |p| < 12 then Truncated
    else
      var ts, ul := ReadInt64(p[..8]), ReadInt32(p[8..12]);
      if ul < 0 then NegativeSize
      else if |p| - 12 < ul then Truncated
      else
        var name := Utf16.Decode(p[12..12 + ul]);
        var bl := Wrap32(len - 13 - ul);
        if bl < 0 then NegativeSize
        else if |p| - 12 - ul < bl then Truncated
        else
          var body := Utf16.Decode(p[12 + ul..12 + ul + bl]);
          var rest := p[12 + ul + bl..];
          Frame(if isPrivate then PrivateChat(ts, name, body) else Chat(ts, name, body), rest)
  }

  /** Client exchange payload: address, port, then `length - 7` bytes of username. */
  function DecodeExchange(len: int32, p: seq<byte>): (r: DecodeResult)
    ensures r.Consumed(p) && !r.Unrecognised?
  {
    if |p| < 6 then Truncated
    else
      var ip: Ipv4, port := p[..4], ReadUnsigned16(p[4..6]);
      var nl := Wrap32(len - 7);
      if nl < 0 then NegativeSize
      else if |p| - 6 < nl then Truncated
      else Frame(ClientExchange(ip, port, Utf16.Decode(p[6..6 + nl])), p[6 + nl..])
  }

  /** Handshake payload: protocol string (only reported when it differs), port,
      then `length - 3 - 16` bytes of username. */
  function DecodeHandshake(len: int32, p: seq<byte>): (r: DecodeResult)
    ensures r.Consumed(p) && !r.Unrecognised?
  {
    var tagBytes := |Utf16.PROTOCOL_BYTES|;
    if |p| < tagBytes + 2 then Truncated
    else
      var port := ReadUnsigned16(p[tagBytes..tagBytes + 2]);
      var nl := Wrap32(len - 3 - tagBytes);
      if nl < 0 then NegativeSize
      else if |p| - tagBytes - 2 < nl then Truncated
      else
        var start := tagBytes + 2;
        Frame(Handshake(Utf16.Decode(p[start..start + nl]), port), p[start + nl..])
  }

  /** Whether the 16 protocol bytes of a handshake spell "352 chat"; decoding
      reports a mismatch and carries on. */
  predicate ProtocolStringMatches(p: seq<byte>)
    requires |p| == 16
  {
    Utf16.Decode(p) == Utf16.PROTOCOL_STRING
  }

  // ---------------------------------------------------------------------
  // Properties of the codec

  /** `ChatMessage`'s length: timestamp, username count, username, body. */
  lemma ChatLength(m: Message)
    requires m.Chat? && WellFormed(m)
    ensures Length(m) == 13 + 2 * |m.username| + 2 * |m.body|
  {
  }

  /** `PrivateChatMessage`'s length: the same layout as a chat message. */
  lemma PrivateChatLength(m: Message)
    requires m.PrivateChat? && WellFormed(m)
    ensures Length(m) == 13 + 2 * |m.username| + 2 * |m.body|
  {
  }

  /** `ClientExchangeMessage`'s length: address, port, username. */
  lemma ExchangeLength(m: Message)
    requires m.ClientExchange? && WellFormed(m)
    ensures Length(m) == 7 + 2 * |m.username|
  {
  }

  /** `HandshakeMessage`'s length: protocol string, port, username. */
  lemma HandshakeLength(m: Message)
    requires m.Handshake? && WellFormed(m)
    ensures Length(m) == 19 + 2 * |m.username|
  {
    Utf16.ProtocolStringBytes();
  }

  /** The length field counts exactly the bytes after it: the type byte and
      the payload. Every message but Disconnect and KeepAlive takes the
      payload branch. */
  lemma FrameLength(m: Message)
    requires WellFormed(m)
    ensures |Encode(m)| == 4 + Length(m)
    ensures Length(m) > 1 <==> !(m.Disconnect? || m.KeepAlive?)
    ensures |Payload(m)| == Length(m) - 1
  {
    Utf16.ProtocolStringBytes();
  }

  /** Disconnect and KeepAlive frames are the 5 header bytes alone. */
  lemma ControlFrames()
    ensures Length(Disconnect) == 1 && Length(KeepAlive) == 1
    ensures Encode(Disconnect) == [0, 0, 0, 1, TYPE_DISCONNECT_MESSAGE]
    ensures Encode(KeepAlive) == [0, 0, 0, 1, TYPE_KEEPALIVE_MESSAGE]
  {
    Pow256Values();
  }

  /** Decoding a Disconnect or KeepAlive header reads nothing after the type
      byte, whatever the length field says. */
  lemma ControlFrameDecode(s: seq<byte>)
    requires |s| >= 5 && (s[4] == TYPE_DISCONNECT_MESSAGE || s[4] == TYPE_KEEPALIVE_MESSAGE)
    ensures Decode(s) == Frame(if s[4] == TYPE_DISCONNECT_MESSAGE then Disconnect else KeepAlive, s[5..])
  {
  }

  /** An unknown type yields `null` after reading the 5 header bytes only. */
  lemma UnknownTypeDecode(s: seq<byte>)
    requires |s| >= 5 && s[4] > TYPE_PRIVATE_CHAT_MESSAGE
    ensures Decode(s) == Unrecognised(s[4], s[5..])
  {
  }

  /** A frame's header: the length field reads back as written. */
  lemma HeaderReads(len: int32, tag: byte, p: seq<byte>)
    ensures var s := Int32Bytes(len) + [tag] + p;
      |s| >= 5 && ReadInt32(s[..4]) == len && s[4] == tag && s[5..] == p
  {
    var s := Int32Bytes(len) + [tag] + p;
    assert s[..4] == Int32Bytes(len);
    Int32RoundTrip(len);
  }

  lemma ChatPayloadReads(len: int32, isPrivate: bool, ts: int64, u: seq<byte>, b: seq<byte>, rest: seq<byte>)
    requires len == 13 + |u| + |b|
    ensures var p := Int64Bytes(ts) + Int32Bytes(|u|) + u + b + rest;
      var name, body := Utf16.Decode(u), Utf16.Decode(b);
      DecodeChat(len, isPrivate, p)
        == Frame(if isPrivate then PrivateChat(ts, name, body) else Chat(ts, name, body), rest)
  {
    var ul: int32 := |u|;
    var p := Int64Bytes(ts) + Int32Bytes(ul) + u + b + rest;
    assert p[..8] == Int64Bytes(ts);
    Int64RoundTrip(ts);
    assert p[8..12] == Int32Bytes(ul);
    Int32RoundTrip(ul);
    assert p[12..12 + ul] == u;
    assert Wrap32(len - 13 - ul) == |b|;
    assert p[12 + ul..12 + ul + |b|] == b;
    assert p[12 + ul + |b|..] == rest;
  }

  /** What a chat or private chat message arrives as, whatever its strings:
      each string comes back as the decoder reads its UTF-16BE bytes. */
  lemma ChatArrives(m: Message, rest: seq<byte>)
    requires (m.Chat? || m.PrivateChat?) && RawLength(m) < TWO_31
    ensures var name, body := Utf16.Decode(Utf16.Encode(m.username)), Utf16.Decode(Utf16.Encode(m.body));
      Decode(Encode(m) + rest) == Frame(m.(username := name, body := body), rest)
  {
    var u, b := Utf16.Encode(m.username), Utf16.Encode(m.body);
    var len := Length(m);
    var ul: int32 := |u|;
    var p := Int64Bytes(m.timestamp) + Int32Bytes(ul) + u + b + rest;
    assert Encode(m) + rest == Int32Bytes(len) + [TypeOf(m)] + p;
    HeaderReads(len, TypeOf(m), p);
    ChatPayloadReads(len, m.PrivateChat?, m.timestamp, u, b, rest);
  }

  lemma ChatRoundTrip(m: Message, rest: seq<byte>)
    requires (m.Chat? || m.PrivateChat?) && WellFormed(m)
    ensures Decode(Encode(m) + rest) == Frame(m, rest)
  {
    ChatArrives(m, rest);
    Utf16.DecodeEncode(m.username);
    Utf16.DecodeEncode(m.body);
  }

  /** A chat whose user name is not well-formed UTF-16 (a lone surrogate,
      or U+FFFE) does not arrive as it was sent. */
  lemma MalformedNameChanges(m: Message, rest: seq<byte>)
    requires (m.Chat? || m.PrivateChat?) && RawLength(m) < TWO_31 && !Utf16.Valid(m.username)
    ensures Decode(Encode(m) + rest) != Frame(m, rest)
  {
    ChatArrives(m, rest);
    Utf16.StringsThatSurvive(m.username);
  }

  lemma ExchangePayloadReads(len: int32, ip: Ipv4, port: int32, u: seq<byte>, rest: seq<byte>)
    requires len == 7 + |u| && 0 <= port < TWO_16
    ensures DecodeExchange(len, ip + Int16Bytes(port) + u + rest)
         == Frame(ClientExchange(ip, port, Utf16.Decode(u)), rest)
  {
    var pb := Int16Bytes(port);
    var p := ip + pb + u + rest;
    Slices4(ip, pb, u, rest);
    Unsigned16RoundTrip(port);
    assert Wrap32(len - 7) == |u|;
  }

  lemma ExchangeRoundTrip(m: Message, rest: seq<byte>)
    requires m.ClientExchange? && WellFormed(m)
    ensures Decode(Encode(m) + rest) == Frame(m, rest)
  {
    var u := Utf16.Encode(m.username);
    var p := m.ip + Int16Bytes(m.port) + u + rest;
    assert Encode(m) + rest == Int32Bytes(Length(m)) + [TypeOf(m)] + p;
    HeaderReads(Length(m), TypeOf(m), p);
    ExchangePayloadReads(Length(m), m.ip, m.port, u, rest);
    Utf16.DecodeEncode(m.username);
  }

  lemma HandshakePayloadReads(len: int32, tagBytes: seq<byte>, port: int32, u: seq<byte>, rest: seq<byte>)
    requires |tagBytes| == 16 && len == 19 + |u| && 0 <= port < TWO_16
    ensures DecodeHandshake(len, tagBytes + Int16Bytes(port) + u + rest)
         == Frame(Handshake(Utf16.Decode(u), port), rest)
  {
    var pb := Int16Bytes(port);
    var p := tagBytes + pb + u + rest;
    Slices4(tagBytes, pb, u, rest);
    Unsigned16RoundTrip(port);
    Utf16.ProtocolStringBytes();
    assert Wrap32(len - 3 - 16) == |u|;
    HandshakeFieldsRead(len, p, port, u, rest);
  }

  /** The handshake reader, given where its fields lie in the payload. */
  lemma HandshakeFieldsRead(len: int32, p: seq<byte>, port: int32, u: seq<byte>, rest: seq<byte>)
    requires |Utf16.PROTOCOL_BYTES| == 16 && |p| == 18 + |u| + |rest|
    requires Wrap32(len - 3 - 16) == |u| && ReadUnsigned16(p[16..18]) == port
    requires p[18..18 + |u|] == u && p[18 + |u|..] == rest
    ensures DecodeHandshake(len, p) == Frame(Handshake(Utf16.Decode(u), port), rest)
  {
  }

  /** A handshake decodes to the same message whatever its 16 protocol bytes
      are: a mismatch is only reported. */
  lemma HandshakeIgnoresProtocolBytes(tagBytes: seq<byte>, m: Message, rest: seq<byte>)
    requires |tagBytes| == 16 && m.Handshake? && WellFormed(m)
    ensures Decode(Int32Bytes(Length(m)) + [TYPE_HANDSHAKE_MESSAGE] + tagBytes
                   + Int16Bytes(m.listenPort) + Utf16.Encode(m.username) + rest)
         == Frame(m, rest)
  {
    Utf16.ProtocolStringBytes();
    var u := Utf16.Encode(m.username);
    var pb := Int16Bytes(m.listenPort);
    var p := tagBytes + pb + u + rest;
    Regroup(Int32Bytes(Length(m)), [TYPE_HANDSHAKE_MESSAGE], tagBytes, pb, u, rest);
    HandshakeFrame(Length(m), p);
    HandshakePayloadReads(Length(m), tagBytes, m.listenPort, u, rest);
    Utf16.DecodeEncode(m.username);
  }

  /** A header with the handshake type hands the payload to the handshake
      reader. */
  lemma HandshakeFrame(len: int32, p: seq<byte>)
    ensures Decode(Int32Bytes(len) + [TYPE_HANDSHAKE_MESSAGE] + p) == DecodeHandshake(len, p)
  {
    HeaderReads(len, TYPE_HANDSHAKE_MESSAGE, p);
  }

  lemma Regroup(a: seq<byte>, b: seq<byte>, c: seq<byte>, d: seq<byte>, e: seq<byte>, f: seq<byte>)
    ensures a + b + c + d + e + f == a + b + (c + d + e + f)
  {
  }

  lemma HandshakeRoundTrip(m: Message, rest: seq<byte>)
    requires m.Handshake? && WellFormed(m)
    ensures Decode(Encode(m) + rest) == Frame(m, rest)
  {
    Utf16.ProtocolStringBytes();
    var tagBytes := Utf16.PROTOCOL_BYTES;
    assert Length(m) > 1;
    assert Encode(m) + rest == Int32Bytes(Length(m)) + [TYPE_HANDSHAKE_MESSAGE] + tagBytes
                               + Int16Bytes(m.listenPort) + Utf16.Encode(m.username) + rest;
    HandshakeIgnoresProtocolBytes(tagBytes, m, rest);
  }

  /** decode(encode(m)) == m, and decoding consumes exactly m's frame. */
  lemma RoundTrip(m: Message, rest: seq<byte>)
    requires WellFormed(m)
    ensures Decode(Encode(m) + rest) == Frame(m, rest)
  {
    match m
    case Chat(_, _, _) => ChatRoundTrip(m, rest);
    case PrivateChat(_, _, _) => ChatRoundTrip(m, rest);
    case ClientExchange(_, _, _) => ExchangeRoundTrip(m, rest);
    case Handshake(_, _) => HandshakeRoundTrip(m, rest);
    case Disconnect => ControlFrames();
    case KeepAlive => ControlFrames();
  }
}
