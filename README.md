# cs352-chat: a verified model of the peer-to-peer chat node

This project models the core of a small peer-to-peer chat program (`cs352-chat`). Each node:

- listens on a TCP port;
- dials bootstrap peers;
- greets every peer with a handshake carrying its user name and listen port;
- gossips each new peer to the others;
- relays what the user types as broadcast or private chat.

The model covers four parts of the node:

- **The wire codec** (modules `Bytes`, `Utf16`, `Messaging`). A frame is a 4-byte big-endian length, a 1-byte type tag and a payload whose layout depends on the type. Strings travel as UTF-16BE: two bytes per code unit, high byte first (RFC 2781, sections 2.1 and 3.1). Decoding replaces malformed input with U+FFFD, as the JDK decoder does, so only well-formed strings survive the round trip. `Messaging.Encode` and `Messaging.Decode` are pure functions between a `Message` datatype and byte sequences. Java's `int` arithmetic in the length formulas is written out as 32-bit wrap-around.
- **The per-peer connection** (module `Connection`, class `Client`). This covers:
  - the two constructors and the `connect` guard;
  - the handshake and its adopt-or-verify rule for the peer's user name and listen port;
  - the sends;
  - the listener list;
  - the read loop, which dispatches each frame type to a callback and ends with one synthetic disconnect per listener;
  - identity equality on (address, listen port).
- **The peer set** (modules `Peers` and `ChatNode`, class `ChatClient`). It is a `seq<Client>` with no two members equal by (address, listen port), and this invariant (`ChatClient.Valid`) is preserved by every handler. The model covers:
  - both `addClient` overloads: find the duplicate, probe it with a keep-alive, then replace it or discard the newcomer;
  - the gossip of a new peer;
  - broadcast and private chat, where a peer whose write fails is removed;
  - disconnect handling and shutdown, after which every handler the worker pool would run does nothing.
- **The console and the command line** (modules `JavaText`, `Console`, `Startup`):
  - the console input loop: `quit`, `@name text` and broadcast lines, resolved against the known-clients registry that `clientConnected`/`clientDisconnected` maintain;
  - the two historical `main` methods' argument rules.

The two historical copies of `ChatClient` share their peer-set methods. The methods differ in two places, and each difference is a separate member:

- the older private send (`LegacyPrivateChatMessage`);
- the older command line (`Startup.LegacyPlan`).

The table below cites the newer copy for the shared methods. In the older copy, cs352-chat/src/main/java/edu/rutgers/cs/chat/ChatClient.java, they sit at these lines:

- `addClient(host, …)`: 204-239;
- `testClient`: 262-273;
- `addClient(socket)`: 304-334;
- `notifyClients`: 342-361;
- `findDuplicate`: 372-380;
- `disconnectMessageArrived`: 429-440;
- `doShutdown`: 493-505;
- `broadcastChatMessage`: 517-542.

The older code differs only in how it names the interface callbacks.

**The environment as parameters.** Whatever the network does is a parameter:

- `ok` flags: whether one write succeeds;
- `fails` sets: the peers whose write fails during a pass over the collection;
- `dialOk`: whether the TCP connect succeeds;
- `remoteBytes`: every byte the remote end will ever send. The end of this sequence is the end of the stream.

Clocks are parameters too (`now`), and so is `Integer.parseInt` (each `Startup.Arg` carries the number it parses to). Calls into the user interface are appended to event traces (`ChatClient.ui`, `ConsoleUI.sent`), and listener callbacks to `Client.delivered`. Each synchronized handler is one atomic method.

Where the design notes and the code disagree, the model follows the code:

- An accepted connection that turns out to duplicate a live peer is discarded without being closed.
- `decodeMessage` does not check the declared length against the type; a length that is too short for the fields becomes a negative array size or a misread body.
- A handshake whose protocol string differs is only reported, and the message is still returned.

## Model

| member | source | states |
|---|---|---|
| Bytes.FromToBigEndian | src/main/java/edu/rutgers/cs/chat/messaging/AbstractMessage.java:224 | k big-endian bytes written from n < 256^k read back as n |
| Bytes.Int32Wraps | src/main/java/edu/rutgers/cs/chat/messaging/AbstractMessage.java:224 | any integer written with `writeInt` reads back as its 32-bit wrap-around, so a Java `int` reads back unchanged |
| Bytes.Int32RoundTrip | src/main/java/edu/rutgers/cs/chat/messaging/AbstractMessage.java:295 | `readInt` of the four bytes `writeInt` writes gives the same `int` |
| Bytes.Unsigned16RoundTrip | src/main/java/edu/rutgers/cs/chat/messaging/AbstractMessage.java:328 | `readShort() & 0xFFFF` after `writeShort(v)` gives v mod 65536, and any port in 0..65535 back unchanged |
| Bytes.Int64RoundTrip | src/main/java/edu/rutgers/cs/chat/messaging/AbstractMessage.java:304 | `readLong` of the eight bytes `writeLong` writes gives the same timestamp |
| Bytes.Wrap32 | cs352-chat/java/edu/rutgers/cs/chat/messaging/ChatMessage.java:59-61 | Java `int` arithmetic: the result agrees with the exact value mod 2^32 and equals it when it fits in an `int` |
| Utf16.Encode | src/main/java/edu/rutgers/cs/chat/messaging/AbstractMessage.java:236-237 | `getBytes("UTF-16BE")` yields exactly two bytes per code unit |
| Utf16.Decode | src/main/java/edu/rutgers/cs/chat/messaging/AbstractMessage.java:310 | `new String(b, "UTF-16BE")` always yields a well-formed string of at most one code unit per byte pair: U+FFFE, a lone low surrogate, a high surrogate without its low half and an incomplete tail each become one U+FFFD |
| Utf16.DecodeEncode | src/main/java/edu/rutgers/cs/chat/messaging/AbstractMessage.java:310 | decoding the UTF-16BE bytes of a well-formed string gives the string back |
| Utf16.StringsThatSurvive | src/main/java/edu/rutgers/cs/chat/messaging/AbstractMessage.java:310 | a string comes back from its UTF-16BE bytes unchanged iff it is well-formed |
| Utf16.MalformedInputs | src/main/java/edu/rutgers/cs/chat/messaging/AbstractMessage.java:310 | FF FE, D8 00 00 41 and D8 00 00 each decode to one U+FFFD; DC 00 00 41 to U+FFFD then 'A'; 00 41 00 to 'A' then U+FFFD |
| Utf16.EncodeAppend | src/main/java/edu/rutgers/cs/chat/messaging/AbstractMessage.java:236-237 | the encoding of a concatenation is the concatenation of the encodings |
| Utf16.ProtocolStringBytes | src/main/java/edu/rutgers/cs/chat/messaging/HandshakeMessage.java:36 | the protocol string "352 chat" is 16 bytes in UTF-16BE |
| Messaging.Encode | src/main/java/edu/rutgers/cs/chat/messaging/AbstractMessage.java:217-267 | every frame starts with the 4-byte big-endian length and the type byte; a message of length at most 1 is the 5 header bytes alone |
| Messaging.Decode | src/main/java/edu/rutgers/cs/chat/messaging/AbstractMessage.java:284-395 | a decoded frame or a `null` result consumes a non-empty prefix of the stream, and what is left is the exact remainder |
| Messaging.DecodeChat | src/main/java/edu/rutgers/cs/chat/messaging/AbstractMessage.java:302-320 | the chat reader consumes a prefix of the payload and never answers `null` |
| Messaging.DecodeExchange | src/main/java/edu/rutgers/cs/chat/messaging/AbstractMessage.java:321-336 | the exchange reader consumes a prefix of the payload and never answers `null` |
| Messaging.DecodeHandshake | src/main/java/edu/rutgers/cs/chat/messaging/AbstractMessage.java:337-360 | the handshake reader consumes a prefix of the payload and never answers `null` |
| Messaging.ChatLength | cs352-chat/java/edu/rutgers/cs/chat/messaging/ChatMessage.java:59-61 | a chat message's length is 13 + 2·\|username\| + 2·\|message\| |
| Messaging.PrivateChatLength | src/main/java/edu/rutgers/cs/chat/messaging/PrivateChatMessage.java:66-68 | a private chat message's length is 13 + 2·\|username\| + 2·\|message\| |
| Messaging.ExchangeLength | src/main/java/edu/rutgers/cs/chat/messaging/ClientExchangeMessage.java:67 | a client exchange message's length is 7 + 2·\|username\| |
| Messaging.HandshakeLength | src/main/java/edu/rutgers/cs/chat/messaging/HandshakeMessage.java:64 | a handshake's length is 19 + 2·\|username\| |
| Messaging.FrameLength | src/main/java/edu/rutgers/cs/chat/messaging/AbstractMessage.java:224-262 | a frame is 4 + getLength() bytes; the length counts the type byte and the payload exactly; every type except disconnect and keep-alive takes the payload branch |
| Messaging.ControlFrames | src/main/java/edu/rutgers/cs/chat/messaging/AbstractMessage.java:181-204 | disconnect and keep-alive have length 1, and their frames are the five bytes 0,0,0,1,type |
| Messaging.ControlFrameDecode | src/main/java/edu/rutgers/cs/chat/messaging/AbstractMessage.java:361-368 | a disconnect or keep-alive header reads nothing after the type byte, whatever its length field says |
| Messaging.UnknownTypeDecode | src/main/java/edu/rutgers/cs/chat/messaging/AbstractMessage.java:387-392 | an unknown type gives `null` after reading only the five header bytes |
| Messaging.ChatArrives | src/main/java/edu/rutgers/cs/chat/messaging/AbstractMessage.java:232-320 | any chat or private chat message that fits an `int` arrives with its kind, timestamp and frame extent intact, and with username and body as the decoder rebuilds them from their UTF-16BE bytes (the body sized as length - 13 - username bytes) |
| Messaging.ChatRoundTrip | src/main/java/edu/rutgers/cs/chat/messaging/AbstractMessage.java:232-386 | decoding an encoded chat or private chat message with well-formed strings gives it back and consumes exactly its frame |
| Messaging.MalformedNameChanges | src/main/java/edu/rutgers/cs/chat/messaging/AbstractMessage.java:302-310 | a chat message whose username is not well-formed UTF-16 does not arrive as sent |
| Messaging.ExchangeRoundTrip | src/main/java/edu/rutgers/cs/chat/messaging/AbstractMessage.java:249-255 | decoding an encoded client exchange (IPv4, port in 0..65535, well-formed username) gives it back and consumes exactly its frame |
| Messaging.HandshakeRoundTrip | src/main/java/edu/rutgers/cs/chat/messaging/AbstractMessage.java:257-262 | decoding an encoded handshake with a well-formed username gives it back and consumes exactly its frame |
| Messaging.HandshakeIgnoresProtocolBytes | src/main/java/edu/rutgers/cs/chat/messaging/AbstractMessage.java:345-348 | a handshake decodes to the same message whatever its 16 protocol bytes are: a mismatch is only reported |
| Messaging.RoundTrip | src/main/java/edu/rutgers/cs/chat/messaging/AbstractMessage.java:224-262 | decode(encode(m)) == m for every well-formed message (it fits an `int`, its ports are 16-bit, its strings are well-formed UTF-16), and decoding consumes exactly m's frame |
| Connection.ToAll | src/main/java/edu/rutgers/cs/chat/Client.java:407-409 | one callback per listener, in registration order, each carrying the same event |
| Connection.Dispatch | src/main/java/edu/rutgers/cs/chat/Client.java:377-397 | handshake and keep-alive reach no listener; chat, exchange, disconnect and private chat reach every listener with the callback for their type, carrying the message |
| Connection.NextFrame | src/main/java/edu/rutgers/cs/chat/Client.java:189-215 | the handshake's decode loop never settles on `null`, and a frame it settles on leaves a proper suffix of the stream |
| Connection.AdoptOrVerify | src/main/java/edu/rutgers/cs/chat/Client.java:219-247 | the checks pass iff the username is unknown or equal and the port is negative or equal; on success the username and port are the declared ones; a username mismatch leaves both fields alone; an unknown username is adopted even when the port then fails; a known port is never changed |
| Connection.Client.FromAddress | src/main/java/edu/rutgers/cs/chat/Client.java:106-116 | an address-built client holds the caller's address, port and (possibly unknown) username, unconnected |
| Connection.Client.FromSocket | src/main/java/edu/rutgers/cs/chat/Client.java:130-137 | a socket-built client starts with port -1 and no username, already connected |
| Connection.Client.Connect | src/main/java/edu/rutgers/cs/chat/Client.java:147-152 | only an unconnected socket is dialled; afterwards the client is connected iff it was or the dial succeeded |
| Connection.Client.Send | src/main/java/edu/rutgers/cs/chat/messaging/AbstractMessage.java:217-228 | a frame is written iff the write succeeds on a usable socket, and then exactly that message is appended |
| Connection.Client.SendMessage | src/main/java/edu/rutgers/cs/chat/Client.java:277-282 | writes a chat message from the local user with the given time and text, or nothing when the write fails |
| Connection.Client.SendPrivateMessage | src/main/java/edu/rutgers/cs/chat/Client.java:292-297 | writes a private chat message from the local user, or nothing when the write fails |
| Connection.Client.SendClient | src/main/java/edu/rutgers/cs/chat/Client.java:307-313 | writes an exchange message with the other client's address, port and username, or nothing |
| Connection.Client.SendDisconnectMessage | src/main/java/edu/rutgers/cs/chat/Client.java:321-324 | writes the disconnect message, or nothing |
| Connection.Client.SendKeepAliveMessage | src/main/java/edu/rutgers/cs/chat/Client.java:332-335 | writes the keep-alive message, or nothing |
| Connection.Client.AwaitMessage | src/main/java/edu/rutgers/cs/chat/Client.java:189-215 | the handshake's read loop returns the first non-`null` decode outcome and leaves the stream after it |
| Connection.Client.PerformHandshake | src/main/java/edu/rutgers/cs/chat/Client.java:162-248 | our handshake is written first (or the call fails); the result and the fields left behind are those of the handshake rule on the incoming stream |
| Connection.Client.Disconnect | src/main/java/edu/rutgers/cs/chat/Client.java:254-267 | the read loop is stopped and the socket is closed |
| Connection.Client.AddMessageListener | src/main/java/edu/rutgers/cs/chat/Client.java:343-345 | the listener is appended |
| Connection.Client.RemoveMessageListener | src/main/java/edu/rutgers/cs/chat/Client.java:353-355 | the first registration of the listener is removed, if any |
| Connection.Client.Notify | src/main/java/edu/rutgers/cs/chat/Client.java:405-409 | one callback is delivered to each listener, in order |
| Connection.Client.Deliver | src/main/java/edu/rutgers/cs/chat/Client.java:377-397 | the callbacks delivered for one message are its dispatch table entry |
| Connection.Client.Run | src/main/java/edu/rutgers/cs/chat/Client.java:362-413 | the loop stops; the callbacks delivered are those of the read loop over the whole stream, or one disconnect per listener when the socket is unusable |
| Connection.Client.ReadOnce | src/main/java/edu/rutgers/cs/chat/Client.java:364-410 | one pass either consumes part of the stream and keeps the read loop's total unchanged, or fails after delivering the rest of it |
| Connection.RemoveFirstCounts | src/main/java/edu/rutgers/cs/chat/Client.java:353-355 | `remove` takes out exactly one occurrence of a present element and changes nothing otherwise |
| Connection.ReadLoopFrame | src/main/java/edu/rutgers/cs/chat/Client.java:369-397 | a well-formed frame in the stream reaches exactly the listeners its type selects, then the loop goes on with the rest |
| Connection.KeepAliveSwallowed | src/main/java/edu/rutgers/cs/chat/Client.java:369-397 | a keep-alive reaches no listener |
| Connection.UnknownFrameSkipped | src/main/java/edu/rutgers/cs/chat/Client.java:366-376 | a frame of unknown type is a `null` result: retried, nothing delivered |
| Connection.ReadLoopEndsWithDisconnect | src/main/java/edu/rutgers/cs/chat/Client.java:399-410 | whatever the stream holds, the loop ends by announcing one disconnect to each listener |
| Connection.ReadLoopOfSession | src/main/java/edu/rutgers/cs/chat/Client.java:362-413 | a peer that sends well-formed messages and closes its end causes exactly their dispatches, in order, then one disconnect per listener |
| Connection.EncodeAllAppend | src/main/java/edu/rutgers/cs/chat/messaging/AbstractMessage.java:217-267 | writing one more message puts its frame after the others |
| Connection.HandshakeWithPeer | src/main/java/edu/rutgers/cs/chat/Client.java:189-247 | against a peer whose first frame is a handshake, the handshake passes iff the adopt-or-verify rule does, never crashes, consumes exactly that frame, and on success knows the peer's username and port |
| Connection.SocketClientAdopts | src/main/java/edu/rutgers/cs/chat/Client.java:219-247 | a socket-built client accepts any handshake and takes the peer's username and listen port from it |
| Connection.HandshakeMustComeFirst | src/main/java/edu/rutgers/cs/chat/Client.java:206-212 | any other first message fails the handshake and leaves the fields as they were |
| Connection.HandshakeSkipsUnknown | src/main/java/edu/rutgers/cs/chat/Client.java:193-198 | frames of unknown type before the handshake are skipped |
| Connection.AcceptedHandshake | src/main/java/edu/rutgers/cs/chat/Client.java:219-247 | a passed handshake was sent, leaves a known username, and never changes a username or listen port that was already known |
| Connection.EqualsIsIdentity | src/main/java/edu/rutgers/cs/chat/Client.java:459-472 | `equals(Client)` holds iff address and listen port agree; it is reflexive, symmetric and transitive, and ignores the username |
| Peers.FirstEqual | src/main/java/edu/rutgers/cs/chat/ChatClient.java:433-441 | the index of the first member equal to the given identity, or -1 when there is none |
| Peers.RemoveEqual | src/main/java/edu/rutgers/cs/chat/Client.java:448-451 | `Collection.remove` through `equals(Object)`: the first member with that identity is taken out and the others keep their order |
| Peers.Without | src/main/java/edu/rutgers/cs/chat/ChatClient.java:403-422 | the members a failure-removing pass keeps are the members not in the failing set |
| Peers.Failed | src/main/java/edu/rutgers/cs/chat/ChatClient.java:403-422 | the members a pass removes are the members in the failing set |
| Peers.SweepMembers | src/main/java/edu/rutgers/cs/chat/ChatClient.java:403-422 | a member survives a pass iff it is not failing, and a member is removed iff it is |
| Peers.SweepPartitions | src/main/java/edu/rutgers/cs/chat/ChatClient.java:403-422 | the kept and the removed members together are the collection as a multiset, and the two share no member |
| Peers.SweepCovers | src/main/java/edu/rutgers/cs/chat/ChatClient.java:403-422 | every member is either kept or removed by a pass, with its multiplicity |
| Peers.SweepSides | src/main/java/edu/rutgers/cs/chat/ChatClient.java:403-422 | every kept member is outside the failing set and every removed member inside it |
| Peers.RemoveEqualKeepsDistinct | src/main/java/edu/rutgers/cs/chat/ChatClient.java:324-335 | removing a member keeps the collection free of duplicates, and leaves none with that identity |
| Peers.WithoutKeepsDistinct | src/main/java/edu/rutgers/cs/chat/ChatClient.java:403-422 | removing the failing members keeps the collection free of duplicates |
| Peers.AppendNewKeepsDistinct | src/main/java/edu/rutgers/cs/chat/ChatClient.java:286-297 | appending a client whose identity is not known keeps the collection free of duplicates |
| Peers.UnknownKept | src/main/java/edu/rutgers/cs/chat/ChatClient.java:391-394 | an identity that is not known stays unknown after a pass removes members |
| ChatNode.StateOf | src/main/java/edu/rutgers/cs/chat/Client.java:307-313 | a peer accepts a write exactly when its socket streams are usable |
| ChatNode.Failing | src/main/java/edu/rutgers/cs/chat/ChatClient.java:403-422 | the members whose write fails are those the network rejects and those whose socket is unusable |
| ChatNode.AfterHandshake | src/main/java/edu/rutgers/cs/chat/ChatClient.java:288-292 | a dialled client is added exactly when its handshake passes |
| ChatNode.SurvivorsAreMembers | src/main/java/edu/rutgers/cs/chat/ChatClient.java:403-422 | the peers left after a pass were all built by this node for a known peer |
| ChatNode.ChatClient.constructor | src/main/java/edu/rutgers/cs/chat/ChatClient.java:224-247 | a new node has no peers, an empty interface trace, and satisfies the no-duplicates invariant |
| ChatNode.ChatClient.FindDuplicate | src/main/java/edu/rutgers/cs/chat/ChatClient.java:433-441 | returns the first member equal to c by (address, port), or none when no member is |
| ChatNode.ChatClient.Evict | src/main/java/edu/rutgers/cs/chat/ChatClient.java:324-335 | a failed peer is removed from the collection, unlistened and closed, and one disconnect is reported; no duplicates appear |
| ChatNode.ChatClient.TestClient | src/main/java/edu/rutgers/cs/chat/ChatClient.java:324-335 | a keep-alive that gets through returns true and changes nothing else; one that fails removes the peer, unlistens and closes it, reports it, and returns false |
| ChatNode.ChatClient.ProbeDuplicate | src/main/java/edu/rutgers/cs/chat/ChatClient.java:279-284 | with a live duplicate the collection and trace are unchanged; a duplicate that fails its probe is evicted; peers with other identities are untouched; when no live duplicate remains the identity is unknown |
| ChatNode.ChatClient.ProbeFound | src/main/java/edu/rutgers/cs/chat/ChatClient.java:380-385 | the probe of the duplicate that was found, with the same outcomes |
| ChatNode.ChatClient.RegisterClient | src/main/java/edu/rutgers/cs/chat/ChatClient.java:307-313 | the node listens to the peer and the interface is told it connected |
| ChatNode.ChatClient.Sweep | src/main/java/edu/rutgers/cs/chat/ChatClient.java:403-422 | the iterator loop keeps the members whose write succeeds, reports the others in order, and leaves each peer in the state its write outcome calls for |
| ChatNode.ChatClient.SweepClients | src/main/java/edu/rutgers/cs/chat/ChatClient.java:403-422 | a pass over the whole collection: failing peers leave it, are reported in order, and the invariant is kept |
| ChatNode.ChatClient.NotifyClients | src/main/java/edu/rutgers/cs/chat/ChatClient.java:403-422 | every member is sent an exchange about the new peer; each member whose write fails is unlistened, closed, reported and removed, and the loop goes on |
| ChatNode.ChatClient.Admit | src/main/java/edu/rutgers/cs/chat/ChatClient.java:391-394 | the gossip runs before the new peer is appended, so it is never told about itself; the invariant is kept |
| ChatNode.ChatClient.Enrol | src/main/java/edu/rutgers/cs/chat/ChatClient.java:388-394 | registration, gossip and append for a new accepted peer, with the trace in that order |
| ChatNode.ChatClient.Join | src/main/java/edu/rutgers/cs/chat/ChatClient.java:286-297 | a failed connect or handshake adds nothing; on success the peer is registered and appended, and no gossip is sent |
| ChatNode.ChatClient.Recruit | src/main/java/edu/rutgers/cs/chat/ChatClient.java:279-297 | duplicate probe, then dial and handshake, with the outcomes of both composed |
| ChatNode.ChatClient.AddClientFromAddress | src/main/java/edu/rutgers/cs/chat/ChatClient.java:263-299 | a live duplicate leaves everything as the probe left it and the newcomer is neither added nor closed; otherwise the peer is added exactly when the dial and the handshake succeed, with the handshake's username and the dialled port; no duplicates appear |
| ChatNode.ChatClient.Settle | src/main/java/edu/rutgers/cs/chat/ChatClient.java:380-394 | after a passed handshake: a live duplicate discards the newcomer, otherwise it is registered, gossiped and appended |
| ChatNode.ChatClient.Accept | src/main/java/edu/rutgers/cs/chat/ChatClient.java:365-373 | the accepted client runs the handshake; a failure closes it |
| ChatNode.ChatClient.AddClientFromSocket | src/main/java/edu/rutgers/cs/chat/ChatClient.java:365-395 | a failed handshake closes the newcomer and leaves the collection and trace unchanged; a live duplicate discards the newcomer without closing it; otherwise it is registered, the others are gossiped and it is appended; no duplicates appear |
| ChatNode.ChatClient.BroadcastChatMessage | src/main/java/edu/rutgers/cs/chat/ChatClient.java:601-626 | a chat message goes to every peer; a peer whose write fails is removed, closed and reported but keeps its listener; the interface hears once, after the pass, that the message went out; after shutdown nothing happens |
| ChatNode.ChatClient.PrivateChatTask | src/main/java/edu/rutgers/cs/chat/ChatClient.java:636-650 | a private chat goes to the target only; on failure only the target is removed and reported; the interface hears that the message was sent in both cases |
| ChatNode.ChatClient.PrivateChatMessage | src/main/java/edu/rutgers/cs/chat/ChatClient.java:633-652 | the private chat task runs with its outcomes while the pool is up; after shutdown nothing is sent or changed |
| ChatNode.ChatClient.LegacyPrivateChatMessage | cs352-chat/src/main/java/edu/rutgers/cs/chat/ChatClient.java:549-565 | the older copy sends the text as an ordinary chat frame (type 0), removes the target on failure, and reports no sent notification; after shutdown nothing is sent or changed |
| ChatNode.ChatClient.DisconnectTask | src/main/java/edu/rutgers/cs/chat/ChatClient.java:511-518 | the peer is unlistened, closed, removed from the collection and reported |
| ChatNode.ChatClient.DisconnectMessageArrived | src/main/java/edu/rutgers/cs/chat/ChatClient.java:508-523 | the disconnect task runs with its outcomes while the pool is up; after shutdown the refusal is caught and nothing changes |
| ChatNode.ChatClient.ChatMessageArrived | src/main/java/edu/rutgers/cs/chat/ChatClient.java:457-468 | an incoming chat goes to the interface with its sender, time and text, unless the node has shut down |
| ChatNode.ChatClient.PrivateChatMessageArrived | src/main/java/edu/rutgers/cs/chat/ChatClient.java:474-484 | an incoming private chat goes to the interface with its sender, time and text, unless the node has shut down |
| ChatNode.ChatClient.ClientMessageArrived | src/main/java/edu/rutgers/cs/chat/ChatClient.java:491-501 | an announced peer is admitted as if dialled, expecting the announced username and port; after shutdown no client is made and nothing changes |
| ChatNode.ChatClient.UserRequestedShutdown | src/main/java/edu/rutgers/cs/chat/ChatClient.java:660-662 | the accept loop is told to stop |
| ChatNode.ChatClient.DoShutdown | src/main/java/edu/rutgers/cs/chat/ChatClient.java:577-589 | every peer is sent a disconnect where the write can succeed, failures are ignored, and every peer is closed; the collection is left as it is |
| JavaText.IndexOf | src/main/java/edu/rutgers/cs/chat/ui/ConsoleUI.java:145 | `indexOf` gives the first position of the code unit, or -1 exactly when it does not occur |
| Console.Classify | src/main/java/edu/rutgers/cs/chat/ui/ConsoleUI.java:133-174 | a line is quit iff it is "quit" ignoring case; `null` is skipped; a private line is "@" + name + " " + text with no space in name; an "@" line without a space is malformed; every other line, the empty one included, is a broadcast of the line unchanged |
| Console.LookupEnd | src/main/java/edu/rutgers/cs/chat/ui/ConsoleUI.java:150-155 | the lookup loop stops at the first known client whose username is missing or equal, and every client before it has a different username |
| Console.Lookup | src/main/java/edu/rutgers/cs/chat/ui/ConsoleUI.java:150-161 | a found target is a known client with that username; the name is unknown iff every known client has a different, non-null username; a failing lookup implies a client with no username |
| Console.ToEach | src/main/java/edu/rutgers/cs/chat/ui/ConsoleUI.java:135-137 | one callback per input listener, in order |
| Console.Respond | src/main/java/edu/rutgers/cs/chat/ui/ConsoleUI.java:122-181 | the loop over one line never ends it as `terminate` does |
| Console.Outcomes | src/main/java/edu/rutgers/cs/chat/ui/ConsoleUI.java:122-181 | one outcome per line read |
| Console.Fold | src/main/java/edu/rutgers/cs/chat/ui/ConsoleUI.java:122-181 | the input loop always ends, by quit, by an exception, or by `terminate` after the last line |
| Console.ConsoleUI.constructor | src/main/java/edu/rutgers/cs/chat/ui/ConsoleUI.java:45-56 | no listeners, no known clients, running |
| Console.ConsoleUI.AddUserInputListener | src/main/java/edu/rutgers/cs/chat/ui/ConsoleUI.java:70-72 | the listener is appended |
| Console.ConsoleUI.RemoveUserInputListener | src/main/java/edu/rutgers/cs/chat/ui/ConsoleUI.java:81-83 | the first registration of the listener is removed |
| Console.ConsoleUI.Terminate | src/main/java/edu/rutgers/cs/chat/ui/ConsoleUI.java:97-102 | the input loop is told to stop |
| Console.ConsoleUI.ClientConnected | src/main/java/edu/rutgers/cs/chat/ui/ConsoleUI.java:200-203 | the client is appended to the known clients |
| Console.ConsoleUI.ClientDisconnected | src/main/java/edu/rutgers/cs/chat/ui/ConsoleUI.java:209-213 | the first known client equal to it by (address, port) is removed |
| Console.ConsoleUI.NotifyListeners | src/main/java/edu/rutgers/cs/chat/ui/ConsoleUI.java:164-166 | one callback reaches each listener, in order |
| Console.ConsoleUI.FindClient | src/main/java/edu/rutgers/cs/chat/ui/ConsoleUI.java:150-155 | the loop's answer is the lookup's |
| Console.ConsoleUI.HandleLine | src/main/java/edu/rutgers/cs/chat/ui/ConsoleUI.java:133-174 | the callbacks made for one line are the ones its classification calls for |
| Console.ConsoleUI.Run | src/main/java/edu/rutgers/cs/chat/ui/ConsoleUI.java:109-185 | the callbacks made are those of the session over the lines, and it ends the way the session does; the listeners are cleared unless an exception ended the loop |
| Console.ConsoleUI.ReadLines | src/main/java/edu/rutgers/cs/chat/ui/ConsoleUI.java:122-181 | the loop makes the callbacks of the given per-line outcomes up to the first that ends it |
| Console.ConsoleUI.ReadOne | src/main/java/edu/rutgers/cs/chat/ui/ConsoleUI.java:132-174 | one turn of the loop makes the callbacks of its line's outcome |
| Console.OutcomeAt | src/main/java/edu/rutgers/cs/chat/ui/ConsoleUI.java:122-181 | the outcome of line k is the response to that line alone |
| Console.FoldStep | src/main/java/edu/rutgers/cs/chat/ui/ConsoleUI.java:122-181 | a line that does not end the loop contributes its callbacks and hands over to the next |
| Console.PrivateRoundTrip | src/main/java/edu/rutgers/cs/chat/ui/ConsoleUI.java:144-147 | "@" + name + " " + text with no space in name is classified as a private message with exactly that name and text |
| Console.QuitSpellings | src/main/java/edu/rutgers/cs/chat/ui/ConsoleUI.java:133 | "quit", "QUIT", "Quit" and the dotted and dotless i spellings quit; "quit " and `null` do not |
| Console.QuitLine | src/main/java/edu/rutgers/cs/chat/ui/ConsoleUI.java:133-138 | a quit line sends a shutdown request to every listener and ends the loop, with no chat |
| Console.PlainLine | src/main/java/edu/rutgers/cs/chat/ui/ConsoleUI.java:172-174 | any other line not starting with "@", the empty one included, is broadcast unchanged to every listener |
| Console.PrivateLine | src/main/java/edu/rutgers/cs/chat/ui/ConsoleUI.java:150-166 | a private line reaches every listener when the target is found, no listener when it is unknown, and ends the loop when a known client has no username |
| Console.OutcomesAppend | src/main/java/edu/rutgers/cs/chat/ui/ConsoleUI.java:122-181 | each line's outcome does not depend on the lines around it |
| Console.FoldStops | src/main/java/edu/rutgers/cs/chat/ui/ConsoleUI.java:122-181 | nothing after the line that ends the loop is read |
| Console.FoldAppend | src/main/java/edu/rutgers/cs/chat/ui/ConsoleUI.java:122-181 | a session that runs to its last line is continued by the next lines' session |
| Console.EndIgnoresRest | src/main/java/edu/rutgers/cs/chat/ui/ConsoleUI.java:133-138 | after a quit, malformed or failing line, later lines have no effect |
| Console.SessionAppend | src/main/java/edu/rutgers/cs/chat/ui/ConsoleUI.java:122-181 | a session over two batches of lines is the first batch's callbacks followed by the second's session |
| Console.LookupAfterConnect | src/main/java/edu/rutgers/cs/chat/ui/ConsoleUI.java:200-203 | a newly connected client becomes a target for its name only when no earlier known client settles the lookup |
| Console.DisconnectedNotTargeted | src/main/java/edu/rutgers/cs/chat/ui/ConsoleUI.java:209-213 | after a client disconnects from a registry without duplicates, no private message is resolved to its identity |
| Startup.LegacyPlan | cs352-chat/src/main/java/edu/rutgers/cs/chat/ChatClient.java:102-171 | fewer than two arguments print the usage; the node starts iff the listen port parses to 1025..65535; a bootstrap peer is dialled iff there are exactly four arguments and its port parses to 1025..65535 |
| Startup.Options | src/main/java/edu/rutgers/cs/chat/ChatClient.java:176-201 | every peer to dial has a port in 1025..65535, and there are at most half as many peers as arguments |
| Startup.LaunchPlan | src/main/java/edu/rutgers/cs/chat/ChatClient.java:131-213 | fewer than two arguments print the usage; a bad listen port refuses to start; a started node has the given port and user name, and dials only user ports |
| Startup.ScanOptions | src/main/java/edu/rutgers/cs/chat/ChatClient.java:176-201 | the argument loop computes the option scan |
| Startup.Launch | src/main/java/edu/rutgers/cs/chat/ChatClient.java:131-201 | `main` up to creating the node computes the launch plan |
| Startup.PairsAreDialled | src/main/java/edu/rutgers/cs/chat/ChatClient.java:174-211 | host/port pairs with user ports are all dialled, in order, with the console interface |
| Startup.GuiDialsNothing | src/main/java/edu/rutgers/cs/chat/ChatClient.java:177 | "--gui" anywhere selects the graphical interface and dials nothing |
| Startup.DanglingHostCrashes | src/main/java/edu/rutgers/cs/chat/ChatClient.java:182-186 | a host with no port after it stops `main` before the node exists |

## Left out

- Sockets, the `ServerSocket` accept loop and its 250 ms timeout, the TCP dial itself, and stream buffering and flushing: each write and dial outcome is a parameter, and each stream is the byte sequence the remote end sends.
- Threads, the worker pool, `ConcurrentLinkedQueue` thread safety and `synchronized`: each handler is one atomic method, and `ChatClient.run` (the accept loop) is not modelled beyond `UserRequestedShutdown` and `DoShutdown`.
- `Thread.sleep`/`yield` retry timing, `reader.ready()` polling in the console loop, and the interrupt in `terminate`: only the order of lines and callbacks is modelled.
- A retried `readLine` after an `IOException` in the console loop: the lines are given, and the failing read is not modelled.
- `InetAddress.getByName` and DNS: an address is a canonical 4-byte IPv4 value, so the host lists of `Startup` stay names and `addClient(host, …)` takes the resolved address.
- Utf16.Encode: an unpaired surrogate is written as its own two bytes, where the JDK encoder writes U+FFFD (FF FD) in its place. The two agree on well-formed strings, and the round trips are claimed only for those.
- `System.currentTimeMillis`: passed in as `now`. A broadcast or private send uses one `now` for the frames and the sent notice, where the code reads the clock for each frame (Client.java:279, 294) and again for the notice (ChatClient.java:621-622, 648-649).
- The `RejectedExecutionException` that `execute` throws after shutdown: `disconnectMessageArrived` catches it, while the chat, private chat and exchange callbacks and the two sends let it reach the read loop or the console thread. The model shows only that the refused task changes nothing; what the exception then does to its caller is not modelled.
- `Integer.parseInt`: each argument carries the number it parses to, if any.
- Logging, the banner, `replaceConsoleHandler`, `printUsage`, the console's printing of received messages, and `toString` with `MESSAGE_NAMES`.
- The graphical interface and the `UIAdapter` callbacks' effects: the callbacks are recorded in a trace.
- `makeClient`: its `UnknownHostException` path is part of DNS; the model builds the client from the resolved address.
- Connection.Client.Run: the listener list is read once at the start of the loop; a listener added or removed by another thread while it runs is not modelled.
- Console.Lookup: a known client without a username makes `equals` throw; the model ends the loop there (`Died`) and leaves the listeners registered, which is what the uncaught exception does, but it does not describe the thread's stack trace.
