/// The console front end (`ConsoleUI`): how each typed line becomes a quit
/// request, a private message to a known peer or a broadcast, and the
/// registry of known peers that the chat node keeps up to date through
/// `clientConnected` and `clientDisconnected`.
///
/// The listeners (the chat node, as a `UserInputListener`) are named by
/// `ListenerId`; the calls made on them are recorded, in order, in `sent`.
/// Standard input is the sequence of lines `readLine` returns (`None` for
/// `null`); the lines are those read before another thread calls
/// `terminate`.

module Console {
  import opened Wrappers
  import opened Utf16
  import opened Connection
  import opened Peers
  import opened JavaText

  /** "quit" */
  const QUIT: JString := [0x71, 0x75, 0x69, 0x74]
  /** '@', which starts a private message. */
  const AT: CodeUnit := 0x40
  /** ' ', which ends the user name of a private message. */
  const SPACE: CodeUnit := 0x20

  /** `"quit".equalsIgnoreCase(line)`, which is false for `null`. */
  predicate IsQuit(line: Option<JString>)
  {
    line.Some? && EqualsIgnoreCase(QUIT, line.value)
  }

  /** What one line asks for. */
  datatype Command =
    | Quit
      /** `readLine` returned `null`. */
    | Skip
    | Private(name: JString, text: JString)
      /** An "@" line with no space: `substring(1, -1)` throws. */
    | Malformed
    | Broadcast(text: JString)

  /** The classification at the top of the input loop. */
  function Classify(line: Option<JString>): (c: Command)
    ensures c.Quit? <==> IsQuit(line)
    ensures c.Skip? <==> line.None?
    ensures c.Private? ==> line == Some([AT] + c.name + [SPACE] + c.text) && SPACE !in c.name
    ensures c.Malformed? <==> line.Some? && !IsQuit(line) && |line.value| > 0 && line.value[0] == AT && SPACE !in line.value
    ensures c.Broadcast? <==> line.Some? && !IsQuit(line) && (|line.value| == 0 || line.value[0] != AT)
    ensures c.Broadcast? ==> c.text == line.value
  {
    if IsQuit(line) then Quit
    else if line.None? then Skip
    else
      var s := line.value;
      if |s| > 0 && s[0] == AT then
        var b := IndexOf(s, SPACE);
        // `substring(1, b)` throws exactly when b < 1, and s[0] is not a space.
        if b < 1 then Malformed
        else
          assert s == [AT] + s[1..b] + [SPACE] + s[b + 1..];
          Private(s[1..b], s[b + 1..])
      else Broadcast(s)
  }

  /** The known client a private message goes to. A client whose username
      is still `null` makes `getUsername().equals(…)` throw. */
  datatype Target = Found(client: Client) | Unknown | NullName

  /** Where the lookup loop over the known clients stops: the first client
      whose username is missing or equal to name, or -1 when there is none. */
  function LookupEnd(ks: seq<Client>, name: JString): (k: int)
    reads ks`username
    ensures -1 <= k < |ks|
    ensures k >= 0 ==> ks[k].username == None || ks[k].username == Some(name)
    ensures forall j :: 0 <= j < |ks| && (k < 0 || j < k) ==> ks[j].username.Some? && ks[j].username != Some(name)
  {
    if ks == [] then -1
    else if ks[0].username == None || ks[0].username == Some(name) then 0
    else
      var k := LookupEnd(ks[1..], name);
      assert forall j :: 1 <= j < |ks| ==> ks[j] == ks[1..][j - 1];
      if k < 0 then -1 else k + 1
  }

  /** The outcome of the lookup loop. */
  function Lookup(ks: seq<Client>, name: JString): (t: Target)
    reads ks`username
    ensures t.Found? ==> t.client in ks && t.client.username == Some(name)
    ensures t.Unknown? <==> forall j :: 0 <= j < |ks| ==> ks[j].username.Some? && ks[j].username != Some(name)
    ensures t.NullName? ==> exists j :: 0 <= j < |ks| && ks[j].username == None
  {
    var k := LookupEnd(ks, name);
    if k < 0 then Unknown
    else if ks[k].username == None then NullName
    else Found(ks[k])
  }

  /** The `UserInputListener` callbacks. */
  datatype InputEvent =
    | ShutdownRequested
    | BroadcastTyped(text: JString)
    | PrivateTyped(client: Client, text: JString)

  datatype InputCall = InputCall(listener: ListenerId, event: InputEvent)

  /** One callback to every listener, in registration order. */
  function ToEach(ls: seq<ListenerId>, e: InputEvent): (r: seq<InputCall>)
    ensures |r| == |ls|
    ensures forall i :: 0 <= i < |ls| ==> r[i] == InputCall(ls[i], e)
  {
    if ls == [] then [] else [InputCall(ls[0], e)] + ToEach(ls[1..], e)
  }

  lemma ToEachStep(ls: seq<ListenerId>, i: int, e: InputEvent)
    requires 0 <= i < |ls|
    ensures ToEach(ls[..i + 1], e) == ToEach(ls[..i], e) + [InputCall(ls[i], e)]
  {
    assert ToEach(ls[..i + 1], e) == ToEach(ls[..i], e) + [InputCall(ls[i], e)];
  }

  /** How the input loop ends: `terminate` was called, the user typed quit,
      or a runtime exception ended the thread. */
  datatype End = Terminated | QuitRequested | Died

  /** The callbacks made and, when the loop ends there, how it ends. */
  datatype Outcome = Outcome(sent: seq<InputCall>, end: Option<End>)

  function Then(pre: seq<InputCall>, o: Outcome): Outcome
  {
    Outcome(pre + o.sent, o.end)
  }

  /** One pass of the input loop over one line. */
  function Respond(ks: seq<Client>, ls: seq<ListenerId>, line: Option<JString>): (o: Outcome)
    reads ks`username
    ensures o.end != Some(Terminated)
  {
    match Classify(line)
    case Quit => Outcome(ToEach(ls, ShutdownRequested), Some(QuitRequested))
    case Skip => Outcome([], None)
    case Malformed => Outcome([], Some(Died))
    case Broadcast(t) => Outcome(ToEach(ls, BroadcastTyped(t)), None)
    case Private(n, t) =>
      match Lookup(ks, n)
      case Found(c) => Outcome(ToEach(ls, PrivateTyped(c, t)), None)
      case Unknown => Outcome([], None)
      case NullName => Outcome([], Some(Died))
  }

  /** The outcome of each line taken on its own. */
  function Outcomes(ks: seq<Client>, ls: seq<ListenerId>, lines: seq<Option<JString>>): (r: seq<Outcome>)
    reads ks`username
    ensures |r| == |lines|
    ensures forall k :: 0 <= k < |r| ==> r[k].end != Some(Terminated)
  {
    if lines == [] then [] else [Respond(ks, ls, lines[0])] + Outcomes(ks, ls, lines[1..])
  }

  /** The loop over given per-line outcomes: the callbacks of each line up
      to the first one that ends the loop, or to the end of the input. */
  function Fold(os: seq<Outcome>): (r: Outcome)
    ensures r.end.Some?
  {
    if os == [] then Outcome([], Some(Terminated))
    else if os[0].end.Some? then os[0]
    else Then(os[0].sent, Fold(os[1..]))
  }

  /** The input loop over all the lines read before `terminate`. */
  function Session(ks: seq<Client>, ls: seq<ListenerId>, lines: seq<Option<JString>>): Outcome
    reads ks`username
  {
    Fold(Outcomes(ks, ls, lines))
  }

  class ConsoleUI {
    var listeners: seq<ListenerId>
    var knownClients: seq<Client>
    var keepRunning: bool
    /** The calls made on the listeners, in order. */
    var sent: seq<InputCall>

    constructor()
      ensures listeners == [] && knownClients == [] && keepRunning && sent == []
    {
      listeners := [];
      knownClients := [];
      keepRunning := true;
      sent := [];
    }

    method AddUserInputListener(l: ListenerId)
      modifies this`listeners
      ensures listeners == old(listeners) + [l]
    {
      listeners := listeners + [l];
    }

    /** `remove` on the queue: the first occurrence, if any. */
    method RemoveUserInputListener(l: ListenerId)
      modifies this`listeners
      ensures listeners == RemoveFirst(old(listeners), l)
    {
      listeners := RemoveFirst(listeners, l);
    }

    /** Ends the input loop at its next test. */
    method Terminate()
      modifies this`keepRunning
      ensures !keepRunning
    {
      keepRunning := false;
    }

    method ClientConnected(c: Client)
      modifies this`knownClients
      ensures knownClients == old(knownClients) + [c]
    {
      knownClients := knownClients + [c];
    }

    /** `remove` uses `Client.equals`, so it drops the first known client
        with c's address and listen port, which need not be c. The reason
        is only printed. */
    method ClientDisconnected(c: Client)
      modifies this`knownClients
      ensures knownClients == old(RemoveEqual(knownClients, c.Id()))
    {
      knownClients := RemoveEqual(knownClients, c.Id());
    }

    /** The loop that calls every listener with e. */
    method NotifyListeners(e: InputEvent)
      modifies this`sent
      ensures sent == old(sent) + ToEach(listeners, e)
    {
      var i := 0;
      while i < |listeners|
        invariant 0 <= i <= |listeners|
        invariant sent == old(sent) + ToEach(listeners[..i], e)
      {
        ToEachStep(listeners, i, e);
        sent := sent + [InputCall(listeners[i], e)];
        i := i + 1;
      }
      assert listeners[..i] == listeners;
    }

    /** The loop that finds the client a private message names. */
    method FindClient(name: JString) returns (t: Target)
      ensures t == Lookup(knownClients, name)
    {
      var i := 0;
      while i < |knownClients|
        invariant 0 <= i <= |knownClients|
        invariant forall j :: 0 <= j < i ==> knownClients[j].username.Some? && knownClients[j].username != Some(name)
      {
        var c := knownClients[i];
        if c.username.None? {
          return NullName;
        }
        if c.username == Some(name) {
          return Found(c);
        }
        i := i + 1;
      }
      return Unknown;
    }

    /** The body of the input loop for one line. */
    method HandleLine(line: Option<JString>) returns (o: Outcome)
      modifies this`sent
      ensures o == Respond(knownClients, listeners, line)
      ensures sent == old(sent) + o.sent
    {
      match Classify(line)
      case Quit =>
        NotifyListeners(ShutdownRequested);
        o := Outcome(ToEach(listeners, ShutdownRequested), Some(QuitRequested));
      case Skip =>
        o := Outcome([], None);
      case Malformed =>
        o := Outcome([], Some(Died));
      case Broadcast(text) =>
        NotifyListeners(BroadcastTyped(text));
        o := Outcome(ToEach(listeners, BroadcastTyped(text)), None);
      case Private(name, text) =>
        var t := FindClient(name);
        match t
        case Found(c) =>
          NotifyListeners(PrivateTyped(c, text));
          o := Outcome(ToEach(listeners, PrivateTyped(c, text)), None);
        case Unknown =>
          o := Outcome([], None);
        case NullName =>
          o := Outcome([], Some(Died));
    }

    /** `run`: reads lines while the run flag is set. When the given lines
        are used up, `terminate` is called, as another thread would. The
        listeners are cleared unless an exception ended the thread. */
    method Run(lines: seq<Option<JString>>) returns (end: End)
      modifies this`sent, this`listeners, this`keepRunning
      ensures var s := old(Session(knownClients, listeners, lines));
        if old(keepRunning) then sent == old(sent) + s.sent && end == s.end.value
        else sent == old(sent) && end == Terminated
      ensures listeners == if end == Died then old(listeners) else []
      ensures keepRunning == (old(keepRunning) && end != Terminated)
    {
      end := Terminated;
      if keepRunning {
        OutcomesDescribe(knownClients, listeners, lines);
        end := ReadLines(lines, Outcomes(knownClients, listeners, lines));
      }
      if end != Died {
        listeners := [];
      }
    }

    /** The input loop, entered with the run flag set. */
    method ReadLines(lines: seq<Option<JString>>, ghost outs: seq<Outcome>) returns (end: End)
      requires keepRunning && Describes(knownClients, listeners, lines, outs)
      modifies this`sent, this`keepRunning
      ensures sent == old(sent) + Fold(outs).sent && Some(end) == Fold(outs).end
      ensures keepRunning == (end != Terminated)
    {
      ghost var acc: seq<InputCall> := [];
      end := Terminated;
      var i := 0;
      while keepRunning
        invariant 0 <= i <= |lines| && sent == old(sent) + acc
        invariant keepRunning ==> Fold(outs) == Then(acc, Fold(outs[i..]))
        invariant !keepRunning ==> end == Terminated && Fold(outs) == Outcome(acc, Some(Terminated))
        decreases |lines| - i + (if keepRunning then 1 else 0)
      {
        if i == |lines| {
          assert outs[i..] == [];
          Terminate();
          continue;
        }
        var o := ReadOne(outs, lines, i);
        FoldStep(outs, i, acc);
        acc := acc + o.sent;
        i := i + 1;
        if o.end.Some? {
          end := o.end.value;
          return;
        }
      }
    }

    /** One pass of the input loop, over line i. */
    method ReadOne(ghost outs: seq<Outcome>, lines: seq<Option<JString>>, i: int) returns (o: Outcome)
      requires 0 <= i < |lines| && Describes(knownClients, listeners, lines, outs)
      modifies this`sent
      ensures o == outs[i] && sent == old(sent) + o.sent && o.end != Some(Terminated)
    {
      o := HandleLine(lines[i]);
    }
  }

  /** outs lists the outcome of each line. */
  ghost predicate Describes(ks: seq<Client>, ls: seq<ListenerId>, lines: seq<Option<JString>>, outs: seq<Outcome>)
    reads ks`username
  {
    |outs| == |lines| && forall k {:trigger Respond(ks, ls, lines[k])} :: 0 <= k < |lines| ==> outs[k] == Respond(ks, ls, lines[k])
  }

  lemma OutcomesDescribe(ks: seq<Client>, ls: seq<ListenerId>, lines: seq<Option<JString>>)
    ensures Describes(ks, ls, lines, Outcomes(ks, ls, lines))
  {
    forall k | 0 <= k < |lines|
      ensures Outcomes(ks, ls, lines)[k] == Respond(ks, ls, lines[k])
    {
      OutcomeAt(ks, ls, lines, k);
    }
  }

  lemma {:induction false} OutcomeAt(ks: seq<Client>, ls: seq<ListenerId>, lines: seq<Option<JString>>, i: int)
    requires 0 <= i < |lines|
    ensures Outcomes(ks, ls, lines)[i] == Respond(ks, ls, lines[i])
  {
    if i > 0 {
      OutcomeAt(ks, ls, lines[1..], i - 1);
    }
  }

  lemma FoldStep(os: seq<Outcome>, i: int, acc: seq<InputCall>)
    requires 0 <= i < |os| && Fold(os) == Then(acc, Fold(os[i..]))
    ensures os[i].end.Some? ==> Fold(os) == Outcome(acc + os[i].sent, os[i].end)
    ensures os[i].end.None? ==> Fold(os) == Then(acc + os[i].sent, Fold(os[i + 1..]))
  {
    var t := os[i..];
    assert t[0] == os[i] && t[1..] == os[i + 1..];
    if os[i].end.None? {
      var r := Fold(os[i + 1..]);
      assert Fold(t) == Outcome(os[i].sent + r.sent, r.end);
      assert acc + (os[i].sent + r.sent) == acc + os[i].sent + r.sent;
    }
  }

  // ---------------------------------------------------------------------
  // Properties of the input loop and of the registry

  /** "@name text" with a space-free name is a private message to name. */
  lemma PrivateRoundTrip(name: JString, text: JString)
    requires SPACE !in name
    ensures Classify(Some([AT] + name + [SPACE] + text)) == Private(name, text)
  {
    var s := [AT] + name + [SPACE] + text;
    assert s[|name| + 1] == SPACE;
    assert forall j :: 0 <= j < |name| ==> s[j + 1] == name[j];
    var b := IndexOf(s, SPACE);
    assert b == |name| + 1;
    assert s[1..b] == name && s[b + 1..] == text;
  }

  /** Every upper- and lower-case spelling of quit ends the loop. */
  lemma QuitSpellings()
    ensures IsQuit(Some(QUIT))
    ensures IsQuit(Some([0x51, 0x55, 0x49, 0x54]))
    ensures IsQuit(Some([0x51, 0x75, 0x69, 0x74]))
    ensures IsQuit(Some([0x71, 0x75, 0x130, 0x74])) && IsQuit(Some([0x71, 0x75, 0x131, 0x74]))
    ensures !IsQuit(Some([0x71, 0x75, 0x69, 0x74, 0x20])) && !IsQuit(None)
  {
  }

  /** A quit line calls userRequestedShutdown on every listener, sends no
      chat, and ends the loop. */
  lemma QuitLine(ks: seq<Client>, ls: seq<ListenerId>, line: Option<JString>)
    requires IsQuit(line)
    ensures Respond(ks, ls, line) == Outcome(ToEach(ls, ShutdownRequested), Some(QuitRequested))
  {
  }

  /** A line that is not quit and does not start with "@", the empty line
      included, is broadcast unchanged. */
  lemma PlainLine(ks: seq<Client>, ls: seq<ListenerId>, s: JString)
    requires !IsQuit(Some(s)) && (|s| == 0 || s[0] != AT)
    ensures Respond(ks, ls, Some(s)) == Outcome(ToEach(ls, BroadcastTyped(s)), None)
  {
  }

  /** A private line reaches every listener with the first known client of
      that name; with none, no listener is called and the loop goes on. */
  lemma PrivateLine(ks: seq<Client>, ls: seq<ListenerId>, name: JString, text: JString)
    requires SPACE !in name
    ensures var o := Respond(ks, ls, Some([AT] + name + [SPACE] + text));
      match Lookup(ks, name)
      case Found(c) => o == Outcome(ToEach(ls, PrivateTyped(c, text)), None)
      case Unknown => o == Outcome([], None)
      case NullName => o == Outcome([], Some(Died))
  {
    PrivateRoundTrip(name, text);
  }

  /** Outcomes are per line, so they split where the input splits. */
  lemma {:induction false} OutcomesAppend(ks: seq<Client>, ls: seq<ListenerId>, a: seq<Option<JString>>, b: seq<Option<JString>>)
    ensures Outcomes(ks, ls, a + b) == Outcomes(ks, ls, a) + Outcomes(ks, ls, b)
  {
    if a == [] {
      assert a + b == b;
    } else {
      assert (a + b)[0] == a[0] && (a + b)[1..] == a[1..] + b;
      OutcomesAppend(ks, ls, a[1..], b);
    }
  }

  lemma {:induction false} FoldStops(pre: seq<Outcome>, o: Outcome, post: seq<Outcome>)
    requires o.end.Some?
    ensures Fold(pre + [o] + post) == Fold(pre + [o])
  {
    if pre == [] {
      assert (pre + [o] + post)[0] == o && (pre + [o])[0] == o;
    } else {
      assert (pre + [o] + post)[0] == pre[0] && (pre + [o])[0] == pre[0];
      assert (pre + [o] + post)[1..] == pre[1..] + [o] + post;
      assert (pre + [o])[1..] == pre[1..] + [o];
      FoldStops(pre[1..], o, post);
    }
  }

  lemma {:induction false} FoldAppend(a: seq<Outcome>, b: seq<Outcome>)
    requires forall k :: 0 <= k < |a| ==> a[k].end != Some(Terminated)
    requires Fold(a).end == Some(Terminated)
    ensures Fold(a + b) == Then(Fold(a).sent, Fold(b))
  {
    if a == [] {
      assert a + b == b;
    } else {
      assert a[0].end.None?;
      assert (a + b)[0] == a[0] && (a + b)[1..] == a[1..] + b;
      assert forall k :: 0 <= k < |a[1..]| ==> a[1..][k] == a[k + 1];
      FoldAppend(a[1..], b);
      var r := Fold(b);
      assert a[0].sent + (Fold(a[1..]).sent + r.sent) == a[0].sent + Fold(a[1..]).sent + r.sent;
    }
  }

  /** What the loop does after a line that ends it does not depend on the
      lines typed after that one. */
  lemma EndIgnoresRest(ks: seq<Client>, ls: seq<ListenerId>, pre: seq<Option<JString>>, line: Option<JString>, post: seq<Option<JString>>)
    requires Respond(ks, ls, line).end.Some?
    ensures Session(ks, ls, pre + [line] + post) == Session(ks, ls, pre + [line])
  {
    OutcomesAppend(ks, ls, pre + [line], post);
    OutcomesAppend(ks, ls, pre, [line]);
    assert Outcomes(ks, ls, [line]) == [Respond(ks, ls, line)];
    FoldStops(Outcomes(ks, ls, pre), Respond(ks, ls, line), Outcomes(ks, ls, post));
  }

  /** Lines that the loop reads and moves past compose: the callbacks of a
      run of continuing lines come first, then those of the rest. */
  lemma SessionAppend(ks: seq<Client>, ls: seq<ListenerId>, pre: seq<Option<JString>>, post: seq<Option<JString>>)
    requires Session(ks, ls, pre).end == Some(Terminated)
    ensures Session(ks, ls, pre + post) == Then(Session(ks, ls, pre).sent, Session(ks, ls, post))
  {
    OutcomesAppend(ks, ls, pre, post);
    FoldAppend(Outcomes(ks, ls, pre), Outcomes(ks, ls, post));
  }

  /** After `clientConnected(c)`, a lookup that ran off the end of the old
      registry ends at c instead; any other lookup is unchanged. */
  lemma {:induction false} LookupAfterConnect(ks: seq<Client>, c: Client, name: JString)
    ensures var t := Lookup(ks, name);
      Lookup(ks + [c], name) ==
        if !t.Unknown? then t
        else if c.username == None then NullName
        else if c.username == Some(name) then Found(c)
        else Unknown
  {
    var r := ks + [c];
    var k := LookupEnd(ks, name);
    assert forall j :: 0 <= j < |ks| ==> r[j] == ks[j];
    if k >= 0 {
      assert LookupEnd(r, name) == k;
    } else {
      assert r[|ks|] == c;
    }
  }

  /** In a registry without duplicates, a private message never goes to a
      client with the identity of one that has disconnected. */
  lemma DisconnectedNotTargeted(ks: seq<Client>, c: Client, name: JString)
    requires NoDuplicates(ks)
    ensures var t := Lookup(RemoveEqual(ks, c.Id()), name);
      t.Found? ==> t.client.Id() != c.Id()
  {
    var r := RemoveEqual(ks, c.Id());
    RemoveEqualKeepsDistinct(ks, c.Id());
    var t := Lookup(r, name);
    if t.Found? {
      var j :| 0 <= j < |r| && r[j] == t.client;
    }
  }
}
