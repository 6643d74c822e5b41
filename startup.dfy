/// The command line of the chat node (`ChatClient.main`, in both historical
/// copies): which listen port and user name it starts with, whether it uses
/// the graphical interface, and which bootstrap peers it dials once started.
/// `Integer.parseInt` is not modelled: each argument comes with the number
/// it parses to, or `None` where parsing throws.

module Startup {
  import opened Bytes
  import opened Wrappers
  import opened Utf16
  import opened JavaText

  /** A command-line argument and what `Integer.parseInt` makes of it. */
  datatype Arg = Arg(text: JString, number: Option<int32>)

  /** "--gui" */
  const GUI: JString := [0x2D, 0x2D, 0x67, 0x75, 0x69]

  /** The ports both copies accept, for listening and for dialling. */
  predicate UserPort(p: int)
  {
    1024 < p <= 65535
  }

  datatype Peer = Peer(host: JString, port: int32)

  /** What `main` does. */
  datatype Plan =
      /** Fewer than two arguments: the usage text is printed. */
    | Usage
      /** The listen port does not parse or is not a user port. */
    | CannotStart
      /** A host as the last argument: reading its port throws before the
          node is created. */
    | ArgumentCrash
    | Start(listenPort: int32, username: JString, gui: bool, peers: seq<Peer>)

  /** Whether the first two arguments let the node start. */
  predicate Startable(args: seq<Arg>)
  {
    |args| >= 2 && args[0].number.Some? && UserPort(args[0].number.value)
  }

  function Refusal(args: seq<Arg>): Plan
    requires !Startable(args)
  {
    if |args| < 2 then Usage else CannotStart
  }

  /** The older `main`: the bootstrap peer is dialled only with exactly four
      arguments and a remote port that is a user port. */
  function LegacyPlan(args: seq<Arg>): (p: Plan)
    ensures p.Usage? <==> |args| < 2
    ensures p.Start? <==> Startable(args)
    ensures p.Start? ==> p.listenPort == args[0].number.value && p.username == args[1].text && !p.gui
    ensures p.Start? && p.peers != [] <==>
      Startable(args) && |args| == 4 && args[3].number.Some? && UserPort(args[3].number.value)
    ensures p.Start? && p.peers != [] ==> p.peers == [Peer(args[2].text, args[3].number.value)]
  {
    if !Startable(args) then Refusal(args)
    else
      var bootstrap := |args| == 4 && args[3].number.Some? && UserPort(args[3].number.value);
      Start(args[0].number.value, args[1].text, false,
        if bootstrap then [Peer(args[2].text, args[3].number.value)] else [])
  }

  /** The newer `main`'s scan of the arguments after the first two: "--gui",
      ignoring case, selects the graphical interface; anything else is a host
      followed by its port, and a pair whose port does not parse or is not a
      user port is skipped. `None` when a host has no port after it. */
  function Options(rest: seq<Arg>): (r: Option<(bool, seq<Peer>)>)
    ensures r.Some? ==> forall k :: 0 <= k < |r.value.1| ==> UserPort(r.value.1[k].port)
    ensures r.Some? ==> |r.value.1| <= |rest| / 2
  {
    if rest == [] then Some((false, []))
    else if EqualsIgnoreCase(GUI, rest[0].text) then
      var t := Options(rest[1..]);
      if t.None? then None else Some((true, t.value.1))
    else if |rest| == 1 then None
    else
      var t := Options(rest[2..]);
      var port := rest[1].number;
      if t.None? then None
      else if port.Some? && UserPort(port.value) then Some((t.value.0, [Peer(rest[0].text, port.value)] + t.value.1))
      else t
  }

  /** The newer `main`. */
  function LaunchPlan(args: seq<Arg>): (p: Plan)
    ensures p.Usage? <==> |args| < 2
    ensures p.CannotStart? <==> |args| >= 2 && !Startable(args)
    ensures p.Start? ==> Startable(args) && p.listenPort == args[0].number.value && p.username == args[1].text
    ensures p.Start? ==> forall k :: 0 <= k < |p.peers| ==> UserPort(p.peers[k].port)
  {
    if !Startable(args) then Refusal(args)
    else
      var o := Options(args[2..]);
      if o.None? then ArgumentCrash
      else Start(args[0].number.value, args[1].text, o.value.0, o.value.1)
  }

  /** The scan of the rest from a given point on, after what has been seen
      already: the interface flag so far and the peers collected. */
  function Resume(gui: bool, peers: seq<Peer>, t: Option<(bool, seq<Peer>)>): Option<(bool, seq<Peer>)>
  {
    if t.None? then None else Some((gui || t.value.0, peers + t.value.1))
  }

  lemma ResumeFromStart(t: Option<(bool, seq<Peer>)>)
    ensures Resume(false, [], t) == t
  {
    if t.Some? {
      assert [] + t.value.1 == t.value.1;
    }
  }

  lemma ResumeAfterPeer(gui: bool, peers: seq<Peer>, p: Peer, t: Option<(bool, seq<Peer>)>)
    ensures t.Some? ==> Resume(gui, peers, Some((t.value.0, [p] + t.value.1))) == Resume(gui, peers + [p], t)
  {
    if t.Some? {
      assert peers + ([p] + t.value.1) == peers + [p] + t.value.1;
    }
  }

  /** The loop of the newer `main` over the arguments after the first two. */
  method ScanOptions(args: seq<Arg>) returns (r: Option<(bool, seq<Peer>)>)
    requires |args| >= 2
    ensures r == Options(args[2..])
  {
    var gui := false;
    var peers: seq<Peer> := [];
    var i := 2;
    ResumeFromStart(Options(args[2..]));
    while i < |args|
      invariant 2 <= i <= |args|
      invariant Options(args[2..]) == Resume(gui, peers, Options(args[i..]))
    {
      assert args[i..][0] == args[i];
      if EqualsIgnoreCase(GUI, args[i].text) {
        assert args[i..][1..] == args[i + 1..];
        gui := true;
        i := i + 1;
        continue;
      }
      var host := args[i].text;
      i := i + 1;
      if i == |args| {
        // `args[i++]` is out of bounds.
        return None;
      }
      assert args[i - 1..][1] == args[i] && args[i - 1..][2..] == args[i + 1..];
      var port := args[i].number;
      i := i + 1;
      if port.Some? && UserPort(port.value) {
        ResumeAfterPeer(gui, peers, Peer(host, port.value), Options(args[i..]));
        peers := peers + [Peer(host, port.value)];
      }
    }
    assert args[i..] == [];
    return Options(args[2..]);
  }

  /** `main` of the newer copy, up to creating the node. */
  method Launch(args: seq<Arg>) returns (p: Plan)
    ensures p == LaunchPlan(args)
  {
    if |args| < 2 {
      return Usage;
    }
    var listen := args[0].number;
    if listen.None? || !UserPort(listen.value) {
      return CannotStart;
    }
    var o := ScanOptions(args);
    if o.None? {
      return ArgumentCrash;
    }
    return Start(listen.value, args[1].text, o.value.0, o.value.1);
  }

  // ---------------------------------------------------------------------
  // Properties of the newer command line

  /** Host/port pairs for the node to dial, each written out as two
      arguments. */
  function PairArgs(ps: seq<Peer>): seq<Arg>
  {
    if ps == [] then [] else [Arg(ps[0].host, None), Arg([], Some(ps[0].port))] + PairArgs(ps[1..])
  }

  /** Pairs whose hosts are not "--gui" and whose ports are user ports are
      all dialled, in order, with the console interface. */
  lemma {:induction false} PairsAreDialled(ps: seq<Peer>)
    requires forall k :: 0 <= k < |ps| ==> UserPort(ps[k].port) && !EqualsIgnoreCase(GUI, ps[k].host)
    ensures Options(PairArgs(ps)) == Some((false, ps))
  {
    if ps != [] {
      var a := PairArgs(ps);
      assert a[0] == Arg(ps[0].host, None) && a[1] == Arg([], Some(ps[0].port));
      assert a[2..] == PairArgs(ps[1..]);
      PairsAreDialled(ps[1..]);
      assert ps == [ps[0]] + ps[1..];
    }
  }

  /** "--gui" may come anywhere among the pairs; it dials nothing. */
  lemma GuiDialsNothing(rest: seq<Arg>)
    ensures var a := [Arg(GUI, None)] + rest;
      Options(a) == Resume(true, [], Options(rest))
  {
    var a := [Arg(GUI, None)] + rest;
    assert EqualsIgnoreCase(GUI, a[0].text);
    assert a[1..] == rest;
    var t := Options(rest);
    if t.Some? {
      assert [] + t.value.1 == t.value.1;
    }
  }

  /** A host with nothing after it stops `main` before the node exists. */
  lemma {:induction false} DanglingHostCrashes(ps: seq<Peer>, host: JString)
    requires forall k :: 0 <= k < |ps| ==> !EqualsIgnoreCase(GUI, ps[k].host)
    requires !EqualsIgnoreCase(GUI, host)
    ensures Options(PairArgs(ps) + [Arg(host, None)]) == None
  {
    var a := PairArgs(ps) + [Arg(host, None)];
    if ps == [] {
      assert a == [Arg(host, None)];
    } else {
      assert PairArgs(ps) == [Arg(ps[0].host, None), Arg([], Some(ps[0].port))] + PairArgs(ps[1..]);
      assert a[0] == Arg(ps[0].host, None);
      assert a[2..] == PairArgs(ps[1..]) + [Arg(host, None)];
      DanglingHostCrashes(ps[1..], host);
    }
  }
}
