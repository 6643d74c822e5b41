/// Collections of clients as the chat node keeps them (`ConcurrentLinkedQueue`
/// of `Client`): membership by identity, removal of the first element that
/// `equals` a given client, and removal of the members whose send failed.

module Peers {
  import opened Connection

  /** No two members are equal by (address, listen port). */
  predicate NoDuplicates(cs: seq<Client>)
    reads cs`port
  {
    forall i, j :: 0 <= i < j < |cs| ==> cs[i].Id() != cs[j].Id()
  }

  /** Whether some member has identity id. */
  predicate Known(cs: seq<Client>, id: PeerId)
    reads cs`port
  {
    exists i :: 0 <= i < |cs| && cs[i].Id() == id
  }

  /** The index of the first member with identity id, or -1. */
  function FirstEqual(cs: seq<Client>, id: PeerId): (k: int)
    reads cs`port
    ensures -1 <= k < |cs|
    ensures k >= 0 ==> cs[k].Id() == id
    ensures forall j :: 0 <= j < |cs| && (k < 0 || j < k) ==> cs[j].Id() != id
  {
    if cs == [] then -1
    else if cs[0].Id() == id then 0
    else
      var k := FirstEqual(cs[1..], id);
      assert forall j :: 1 <= j < |cs| ==> cs[j] == cs[1..][j - 1];
      if k < 0 then -1 else k + 1
  }

  /** `remove(c)` on the collection: drops the first member that `equals` c
      (identity id), which need not be c itself. */
  function RemoveEqual(cs: seq<Client>, id: PeerId): (r: seq<Client>)
    reads cs`port
    ensures var k := FirstEqual(cs, id);
      r == if k < 0 then cs else cs[..k] + cs[k + 1..]
  {
    if cs == [] then []
    else if cs[0].Id() == id then cs[1..]
    else
      assert cs == [cs[0]] + cs[1..];
      [cs[0]] + RemoveEqual(cs[1..], id)
  }

  /** The members whose send did not fail, in their original order: what an
      iterator loop that removes each failing member leaves. */
  function Without(cs: seq<Client>, fails: set<Client>): (r: seq<Client>)
    ensures |r| <= |cs|
  {
    if cs == [] then [] else (if cs[0] in fails then [] else [cs[0]]) + Without(cs[1..], fails)
  }

  /** The members whose send failed, in order. */
  function Failed(cs: seq<Client>, fails: set<Client>): (r: seq<Client>)
    ensures |r| <= |cs|
  {
    if cs == [] then [] else (if cs[0] in fails then [cs[0]] else []) + Failed(cs[1..], fails)
  }

  // ---------------------------------------------------------------------

  /** One more member visited by the sweep: the survivors so far followed
      by the survivors among the rest. */
  lemma SweepStep(done: seq<Client>, cs: seq<Client>, i: int, fails: set<Client>)
    requires 0 <= i < |cs|
    ensures done + Without(cs[i..], fails) == (if cs[i] in fails then done else done + [cs[i]]) + Without(cs[i + 1..], fails)
    ensures Failed(cs[i..], fails) == (if cs[i] in fails then [cs[i]] else []) + Failed(cs[i + 1..], fails)
  {
    assert cs[i..][1..] == cs[i + 1..];
    if cs[i] !in fails {
      assert done + ([cs[i]] + Without(cs[i + 1..], fails)) == done + [cs[i]] + Without(cs[i + 1..], fails);
    }
  }

  /** `Iterator.remove` on the member under the cursor, the first one not
      yet visited; a member that stays is passed over. */
  lemma RemoveAtCursor(done: seq<Client>, cs: seq<Client>, i: int)
    requires 0 <= i < |cs|
    ensures var s := done + cs[i..];
      s[..|done|] + s[|done| + 1..] == done + cs[i + 1..]
    ensures done + cs[i..] == done + [cs[i]] + cs[i + 1..]
  {
    var s := done + cs[i..];
    assert s[..|done|] == done;
    assert s[|done| + 1..] == cs[i + 1..];
    assert cs[i..] == [cs[i]] + cs[i + 1..];
  }

  /** The sweep keeps exactly the members outside fails, and reports
      exactly the members in it. */
  lemma {:induction false} SweepMembers(cs: seq<Client>, fails: set<Client>)
    ensures var w := Without(cs, fails);
      && (forall i :: 0 <= i < |w| ==> w[i] in cs && w[i] !in fails)
      && (forall i :: 0 <= i < |cs| && cs[i] !in fails ==> cs[i] in w)
    ensures var f := Failed(cs, fails);
      && (forall i :: 0 <= i < |f| ==> f[i] in cs && f[i] in fails)
      && (forall i :: 0 <= i < |cs| && cs[i] in fails ==> cs[i] in f)
  {
    if cs != [] {
      var tail := cs[1..];
      SweepMembers(tail, fails);
      var w, f := Without(cs, fails), Failed(cs, fails);
      var hw, hf := if cs[0] in fails then [] else [cs[0]], if cs[0] in fails then [cs[0]] else [];
      assert w == hw + Without(tail, fails) && f == hf + Failed(tail, fails);
      forall i | 0 <= i < |cs|
        ensures cs[i] !in fails ==> cs[i] in w
        ensures cs[i] in fails ==> cs[i] in f
      {
        if i > 0 {
          assert cs[i] == tail[i - 1];
        }
      }
      forall i | 0 <= i < |w|
        ensures w[i] in cs && w[i] !in fails
      {
        if i >= |hw| {
          assert w[i] == Without(tail, fails)[i - |hw|];
        }
      }
      forall i | 0 <= i < |f|
        ensures f[i] in cs && f[i] in fails
      {
        if i >= |hf| {
          assert f[i] == Failed(tail, fails)[i - |hf|];
        }
      }
    }
  }

  /** Distinct identities mean distinct objects. */
  lemma DistinctMembers(cs: seq<Client>)
    requires NoDuplicates(cs)
    ensures forall i, j :: 0 <= i < |cs| && 0 <= j < |cs| && i != j ==> cs[i] != cs[j]
  {
    forall i, j | 0 <= i < |cs| && 0 <= j < |cs| && i != j
      ensures cs[i] != cs[j]
    {
      if i > j {
        assert cs[j].Id() != cs[i].Id();
      }
    }
  }

  /** A member is its own first match, so `remove` takes out exactly it. */
  lemma RemoveMember(cs: seq<Client>, k: int)
    requires NoDuplicates(cs) && 0 <= k < |cs|
    ensures FirstEqual(cs, cs[k].Id()) == k
    ensures RemoveEqual(cs, cs[k].Id()) == cs[..k] + cs[k + 1..]
  {
  }

  /** Taking out one element keeps the identities distinct. */
  lemma NoDuplicatesDrop(cs: seq<Client>, k: int)
    requires NoDuplicates(cs) && 0 <= k < |cs|
    ensures NoDuplicates(cs[..k] + cs[k + 1..])
  {
    var r := cs[..k] + cs[k + 1..];
    forall i, j | 0 <= i < j < |r|
      ensures r[i].Id() != r[j].Id()
    {
      var i', j' := if i < k then i else i + 1, if j < k then j else j + 1;
      assert r[i] == cs[i'] && r[j] == cs[j'];
    }
  }

  /** `remove` keeps the identities distinct, leaves no member with the
      removed identity, and keeps only former members. */
  lemma RemoveEqualKeepsDistinct(cs: seq<Client>, id: PeerId)
    requires NoDuplicates(cs)
    ensures NoDuplicates(RemoveEqual(cs, id))
    ensures !Known(RemoveEqual(cs, id), id)
    ensures forall i :: 0 <= i < |RemoveEqual(cs, id)| ==> RemoveEqual(cs, id)[i] in cs
  {
    var k := FirstEqual(cs, id);
    var r := RemoveEqual(cs, id);
    if k >= 0 {
      NoDuplicatesDrop(cs, k);
      forall i | 0 <= i < |r|
        ensures r[i].Id() != id && r[i] in cs
      {
        var i' := if i < k then i else i + 1;
        assert r[i] == cs[i'];
      }
    }
  }

  /** Dropping failed members keeps the identities distinct. */
  lemma {:induction false} WithoutKeepsDistinct(cs: seq<Client>, fails: set<Client>)
    requires NoDuplicates(cs)
    ensures NoDuplicates(Without(cs, fails))
  {
    if cs != [] {
      var tail := cs[1..];
      assert NoDuplicates(tail) by {
        forall i, j | 0 <= i < j < |tail|
          ensures tail[i].Id() != tail[j].Id()
        {
          assert tail[i] == cs[i + 1] && tail[j] == cs[j + 1];
        }
      }
      WithoutKeepsDistinct(tail, fails);
      SweepMembers(tail, fails);
      if cs[0] !in fails {
        var t := Without(tail, fails);
        var r := [cs[0]] + t;
        forall i, j | 0 <= i < j < |r|
          ensures r[i].Id() != r[j].Id()
        {
          assert r[j] == t[j - 1];
          if i == 0 {
            assert t[j - 1] in tail;
            var k :| 0 <= k < |tail| && tail[k] == t[j - 1];
            assert cs[k + 1] == t[j - 1];
          } else {
            assert r[i] == t[i - 1];
          }
        }
      }
    }
  }

  /** Appending a client whose identity is new keeps the identities distinct. */
  lemma AppendNewKeepsDistinct(cs: seq<Client>, c: Client)
    requires NoDuplicates(cs) && !Known(cs, c.Id())
    ensures NoDuplicates(cs + [c])
  {
    var r := cs + [c];
    forall i, j | 0 <= i < j < |r|
      ensures r[i].Id() != r[j].Id()
    {
      if j == |cs| {
        assert r[i] == cs[i];
      } else {
        assert r[i] == cs[i] && r[j] == cs[j];
      }
    }
  }

  /** An identity no member has stays absent after a failure sweep. */
  lemma WithoutStaysUnknown(cs: seq<Client>, fails: set<Client>, id: PeerId)
    requires !Known(cs, id)
    ensures !Known(Without(cs, fails), id)
  {
    var r := Without(cs, fails);
    SweepMembers(cs, fails);
    forall i | 0 <= i < |r|
      ensures r[i].Id() != id
    {
      assert r[i] in r;
      assert r[i] in cs;
      var j :| 0 <= j < |cs| && cs[j] == r[i];
    }
  }

  /** Whether an identity is among cs depends only on the members' listen
      ports. */
  twostate lemma UnknownKept(at: (seq<Client>, PeerId))
    requires old(!Known(at.0, at.1))
    requires forall i :: 0 <= i < |at.0| ==> at.0[i].port == old(at.0[i].port)
    ensures !Known(at.0, at.1)
  {
    var (cs, id) := at;
    forall i | 0 <= i < |cs|
      ensures cs[i].Id() != id
    {
      assert old(cs[i].Id() != id);
    }
  }

  /** A client whose identity no member has is not a member. */
  lemma UnknownIsAbsent(cs: seq<Client>, c: Client)
    requires !Known(cs, c.Id())
    ensures c !in cs
  {
    forall j | 0 <= j < |cs|
      ensures cs[j] != c
    {
      assert cs[j].Id() != c.Id();
    }
  }

  /** Every member either survives the sweep or is reported as failed, and
      not both: together the two are the collection, occurrence for
      occurrence, and they share no member. */
  lemma SweepPartitions(cs: seq<Client>, fails: set<Client>)
    ensures multiset(Without(cs, fails)) + multiset(Failed(cs, fails)) == multiset(cs)
    ensures |Without(cs, fails)| + |Failed(cs, fails)| == |cs|
    ensures multiset(Without(cs, fails)) !! multiset(Failed(cs, fails))
  {
    SweepCovers(cs, fails);
    SweepSides(cs, fails);
    assert |multiset(Without(cs, fails))| + |multiset(Failed(cs, fails))| == |multiset(cs)|;
  }

  /** A pass loses no member and adds none. */
  lemma {:induction false} SweepCovers(cs: seq<Client>, fails: set<Client>)
    ensures multiset(Without(cs, fails)) + multiset(Failed(cs, fails)) == multiset(cs)
  {
    if cs != [] {
      var rest := cs[1..];
      SweepCovers(rest, fails);
      assert cs == [cs[0]] + rest;
      assert multiset(cs) == multiset{cs[0]} + multiset(rest);
      if cs[0] in fails {
        assert Without(cs, fails) == Without(rest, fails);
        assert Failed(cs, fails) == [cs[0]] + Failed(rest, fails);
        assert multiset(Failed(cs, fails)) == multiset{cs[0]} + multiset(Failed(rest, fails));
      } else {
        assert Without(cs, fails) == [cs[0]] + Without(rest, fails);
        assert Failed(cs, fails) == Failed(rest, fails);
        assert multiset(Without(cs, fails)) == multiset{cs[0]} + multiset(Without(rest, fails));
      }
    }
  }

  /** The survivors are not failing and the removed members are. */
  lemma {:induction false} SweepSides(cs: seq<Client>, fails: set<Client>)
    ensures forall c :: c in Without(cs, fails) ==> c !in fails
    ensures forall c :: c in Failed(cs, fails) ==> c in fails
  {
    if cs != [] {
      SweepSides(cs[1..], fails);
    }
  }

  /** The sweep only asks, of each member, whether it failed. */
  lemma {:induction false} SameVerdicts(cs: seq<Client>, a: set<Client>, b: set<Client>)
    requires forall i :: 0 <= i < |cs| ==> (cs[i] in a <==> cs[i] in b)
    ensures Without(cs, a) == Without(cs, b) && Failed(cs, a) == Failed(cs, b)
  {
    if cs != [] {
      assert forall i :: 0 <= i < |cs[1..]| ==> cs[1..][i] == cs[i + 1];
      SameVerdicts(cs[1..], a, b);
    }
  }
}
