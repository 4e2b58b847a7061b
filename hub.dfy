/**
 * ConnectionManager (smart-node/api/websocket.py): the list of connected
 * websocket clients and the broadcast of typed envelopes to them.
 *
 * A client is named by an opaque socket number: one number stands for one
 * connection, and removal drops the first equal entry of the list.
 * Whether one send raises is not known to the program: each broadcast
 * takes, for every listed connection in order, whether its send fails.
 */
module Hub {
  import opened Domain
  import opened Codec

  type Socket = nat

  /** The payload of an envelope: the dict passed to one of the send_* helpers. */
  datatype Payload =
    | ReadingData(reading: Message, id: int, timestamp: string)
    | AnomalyData(anomaly: Anomaly)
    | TrendData(trend: Trend)
    | StatusData(powerMode: string, idleSeconds: real)

  /** {"type": kind, "data": data} */
  datatype Envelope = Envelope(kind: string, data: Payload)

  /** One call of send_json: to whom, what, and whether it raised. */
  datatype Attempt = Attempt(socket: Socket, envelope: Envelope, failed: bool)

  // ---------------------------------------------------------------------
  // The list operations broadcast is made of
  // ---------------------------------------------------------------------

  /** list.remove(x) when x is present, the list itself otherwise. */
  function RemoveFirst(s: seq<Socket>, x: Socket): seq<Socket>
  {
    if s == [] then []
    else if s[0] == x then s[1..]
    else [s[0]] + RemoveFirst(s[1..], x)
  }

  /** disconnect(x) for each x of xs, in order. */
  function RemoveEach(s: seq<Socket>, xs: seq<Socket>): seq<Socket>
  {
    if xs == [] then s else RemoveFirst(RemoveEach(s, xs[..|xs| - 1]), xs[|xs| - 1])
  }

  /** The connections whose send failed, in list order. */
  function Failed(cs: seq<Socket>, fails: seq<bool>): seq<Socket>
    requires |fails| == |cs|
  {
    if cs == [] then []
    else Failed(cs[..|cs| - 1], fails[..|cs| - 1]) + if fails[|cs| - 1] then [cs[|cs| - 1]] else []
  }

  /** The connections whose send succeeded, in list order. */
  function Kept(cs: seq<Socket>, fails: seq<bool>): seq<Socket>
    requires |fails| == |cs|
  {
    if cs == [] then []
    else Kept(cs[..|cs| - 1], fails[..|cs| - 1]) + if fails[|cs| - 1] then [] else [cs[|cs| - 1]]
  }

  /** The sends of one broadcast: one per connection, in list order. */
  function Attempts(cs: seq<Socket>, e: Envelope, fails: seq<bool>): (a: seq<Attempt>)
    requires |fails| == |cs|
    ensures |a| == |cs|
  {
    seq(|cs|, i requires 0 <= i < |cs| => Attempt(cs[i], e, fails[i]))
  }

  predicate Distinct(s: seq<Socket>)
  {
    forall i, j :: 0 <= i < j < |s| ==> s[i] != s[j]
  }

  /** The position of the first occurrence of x. */
  function IndexOf(s: seq<Socket>, x: Socket): (i: nat)
    requires x in s
    ensures i < |s| && s[i] == x && x !in s[..i]
  {
    if s[0] == x then 0
    else
      var k := IndexOf(s[1..], x);
      assert s[..k + 1] == [s[0]] + s[1..][..k];
      k + 1
  }

  /** Removing an absent socket changes nothing. */
  lemma {:induction false} RemoveAbsent(s: seq<Socket>, x: Socket)
    requires x !in s
    ensures RemoveFirst(s, x) == s
  {
    if s != [] {
      assert x !in s[1..] by {
        forall y | y in s[1..] ensures y != x {
          var k :| 0 <= k < |s[1..]| && s[1..][k] == y;
          assert s[k + 1] == y;
        }
      }
      RemoveAbsent(s[1..], x);
      assert s == [s[0]] + s[1..];
    }
  }

  /** Removing a present socket drops exactly its first occurrence. */
  lemma {:induction false} RemovePresent(s: seq<Socket>, x: Socket)
    requires x in s
    ensures RemoveFirst(s, x) == s[..IndexOf(s, x)] + s[IndexOf(s, x) + 1..]
  {
    if s[0] != x {
      var rest := s[1..];
      assert x in rest by {
        var k :| 0 <= k < |s| && s[k] == x;
        assert rest[k - 1] == x;
      }
      RemovePresent(rest, x);
      var k := IndexOf(rest, x);
      assert s[..k + 1] == [s[0]] + rest[..k];
      assert s[k + 2..] == rest[k + 1..];
    }
  }

  /** Removing a present socket shrinks the list by that one element. */
  lemma {:induction false} RemovePresentMultiset(s: seq<Socket>, x: Socket)
    requires x in s
    ensures |RemoveFirst(s, x)| == |s| - 1 && multiset(RemoveFirst(s, x)) == multiset(s) - multiset{x}
  {
    RemovePresent(s, x);
    var i := IndexOf(s, x);
    assert s == s[..i] + [x] + s[i + 1..];
  }

  /** Removing a socket other than the head keeps the head. */
  lemma {:induction false} RemoveEachPastHead(c: Socket, s: seq<Socket>, xs: seq<Socket>)
    requires c !in xs
    ensures RemoveEach([c] + s, xs) == [c] + RemoveEach(s, xs)
  {
    if xs != [] {
      RemoveEachPastHead(c, s, xs[..|xs| - 1]);
      var r := RemoveEach(s, xs[..|xs| - 1]);
      assert ([c] + r)[1..] == r;
    }
  }

  /** Removing x first and then xs is removing [x] + xs. */
  lemma {:induction false} RemoveEachFront(s: seq<Socket>, x: Socket, xs: seq<Socket>)
    ensures RemoveEach(s, [x] + xs) == RemoveEach(RemoveFirst(s, x), xs)
  {
    if xs != [] {
      RemoveEachFront(s, x, xs[..|xs| - 1]);
      assert ([x] + xs)[..|[x] + xs| - 1] == [x] + xs[..|xs| - 1];
    } else {
      assert [x] + xs == [x] && [x][..0] == [];
    }
  }

  /** The failed connections of c followed by rest: c's own failure first. */
  lemma {:induction false} FailedFront(c: Socket, rest: seq<Socket>, f: bool, fails: seq<bool>)
    requires |fails| == |rest|
    ensures Failed([c] + rest, [f] + fails) == (if f then [c] else []) + Failed(rest, fails)
    ensures Kept([c] + rest, [f] + fails) == (if f then [] else [c]) + Kept(rest, fails)
  {
    if rest != [] {
      var cs, fs := [c] + rest, [f] + fails;
      FailedFront(c, rest[..|rest| - 1], f, fails[..|rest| - 1]);
      assert cs[..|cs| - 1] == [c] + rest[..|rest| - 1];
      assert fs[..|cs| - 1] == [f] + fails[..|rest| - 1];
    } else {
      assert [c] + rest == [c] && [f] + fails == [f];
      assert [c][..0] == [] && [f][..0] == [];
    }
  }

  /** The failed connections are among the connections. */
  lemma {:induction false} FailedWithin(cs: seq<Socket>, fails: seq<bool>, x: Socket)
    requires |fails| == |cs|
    ensures x in Failed(cs, fails) ==> x in cs
  {
    if cs != [] {
      var init := cs[..|cs| - 1];
      FailedWithin(init, fails[..|cs| - 1], x);
      if x in init {
        var i :| 0 <= i < |init| && init[i] == x;
        assert cs[i] == x;
      }
    }
  }

  /**
   * Over distinct connections, removing the failed ones one by one leaves
   * the successful ones in their original relative order.
   */
  lemma {:induction false} RemoveFailed(cs: seq<Socket>, fails: seq<bool>)
    requires |fails| == |cs| && Distinct(cs)
    ensures RemoveEach(cs, Failed(cs, fails)) == Kept(cs, fails)
  {
    if cs != [] {
      var c, rest := cs[0], cs[1..];
      assert cs == [c] + rest && fails == [fails[0]] + fails[1..];
      assert Distinct(rest) by {
        forall i, j | 0 <= i < j < |rest| ensures rest[i] != rest[j] {
          assert rest[i] == cs[i + 1] && rest[j] == cs[j + 1];
        }
      }
      assert c !in rest by {
        forall i | 0 <= i < |rest| ensures rest[i] != c {
          assert rest[i] == cs[i + 1];
        }
      }
      RemoveFailed(rest, fails[1..]);
      FailedFront(c, rest, fails[0], fails[1..]);
      FailedWithin(rest, fails[1..], c);
      var tail := Failed(rest, fails[1..]);
      if fails[0] {
        assert Failed(cs, fails) == [c] + tail;
        RemoveEachFront(cs, c, tail);
      } else {
        assert Failed(cs, fails) == tail;
        assert Kept(cs, fails) == [c] + Kept(rest, fails[1..]);
        RemoveEachPastHead(c, rest, tail);
      }
    }
  }

  /** Removing present elements removes them as a multiset, whatever the duplicates. */
  lemma {:induction false} RemoveEachMultiset(s: seq<Socket>, xs: seq<Socket>)
    requires multiset(xs) <= multiset(s)
    ensures multiset(RemoveEach(s, xs)) == multiset(s) - multiset(xs)
  {
    if xs != [] {
      var init, x := xs[..|xs| - 1], xs[|xs| - 1];
      assert xs == init + [x];
      RemoveEachMultiset(s, init);
      var r := RemoveEach(s, init);
      assert x in multiset(r);
      RemovePresentMultiset(r, x);
    }
  }

  /** The failed and the kept connections share out the connections. */
  lemma {:induction false} FailedKeptPartition(cs: seq<Socket>, fails: seq<bool>)
    requires |fails| == |cs|
    ensures multiset(Failed(cs, fails)) + multiset(Kept(cs, fails)) == multiset(cs)
  {
    if cs != [] {
      FailedKeptPartition(cs[..|cs| - 1], fails[..|cs| - 1]);
      assert cs == cs[..|cs| - 1] + [cs[|cs| - 1]];
    }
  }

  /**
   * Nothing is added: after removing the failed connections, what remains
   * is, as a multiset, exactly the connections whose send succeeded.
   */
  lemma {:induction false} RemoveFailedMultiset(cs: seq<Socket>, fails: seq<bool>)
    requires |fails| == |cs|
    ensures multiset(RemoveEach(cs, Failed(cs, fails))) == multiset(Kept(cs, fails))
  {
    FailedKeptPartition(cs, fails);
    RemoveEachMultiset(cs, Failed(cs, fails));
  }

  // ---------------------------------------------------------------------
  // The manager
  // ---------------------------------------------------------------------

  class ConnectionManager {
    /** active_connections */
    var connections: seq<Socket>
    /** Every send attempted so far, in order. */
    var sent: seq<Attempt>

    constructor()
      ensures connections == [] && sent == []
    {
      connections := [];
      sent := [];
    }

    /** connect: the accepted socket goes at the end of the list. */
    method Connect(ws: Socket)
      modifies this
      ensures connections == old(connections) + [ws]
      ensures sent == old(sent)
    {
      connections := connections + [ws];
    }

    /** disconnect: remove the first occurrence, if any. */
    method Disconnect(ws: Socket)
      modifies this
      ensures connections == RemoveFirst(old(connections), ws)
      ensures sent == old(sent)
    {
      if ws in connections {
        connections := RemoveFirst(connections, ws);
      } else {
        RemoveAbsent(connections, ws);
      }
    }

    /**
     * broadcast: one send to every connection present at the start, in list
     * order; the ones that raised are disconnected afterwards. It never
     * raises itself.
     */
    method Broadcast(message: Envelope, fails: seq<bool>)
      requires |fails| == |connections|
      modifies this
      ensures sent == old(sent) + Attempts(old(connections), message, fails)
      ensures connections == RemoveEach(old(connections), Failed(old(connections), fails))
    {
      var disconnected: seq<Socket> := [];
      var start := connections;
      for i := 0 to |start|
        invariant connections == start
        invariant sent == old(sent) + Attempts(start[..i], message, fails[..i])
        invariant disconnected == Failed(start[..i], fails[..i])
      {
        assert start[..i + 1][..i] == start[..i] && fails[..i + 1][..i] == fails[..i];
        sent := sent + [Attempt(start[i], message, fails[i])];
        if fails[i] {
          disconnected := disconnected + [start[i]];
        }
      }
      assert start[..|start|] == start && fails[..|start|] == fails;
      for k := 0 to |disconnected|
        invariant sent == old(sent) + Attempts(start, message, fails)
        invariant connections == RemoveEach(start, disconnected[..k])
      {
        assert disconnected[..k + 1][..k] == disconnected[..k];
        Disconnect(disconnected[k]);
      }
      assert disconnected[..|disconnected|] == disconnected;
    }

    method SendReading(reading: Message, id: int, timestamp: string, fails: seq<bool>)
      requires |fails| == |connections|
      modifies this
      ensures sent == old(sent) + Attempts(old(connections), Envelope("reading", ReadingData(reading, id, timestamp)), fails)
      ensures connections == RemoveEach(old(connections), Failed(old(connections), fails))
    {
      Broadcast(Envelope("reading", ReadingData(reading, id, timestamp)), fails);
    }

    method SendAnomaly(anomaly: Anomaly, fails: seq<bool>)
      requires |fails| == |connections|
      modifies this
      ensures sent == old(sent) + Attempts(old(connections), Envelope("anomaly", AnomalyData(anomaly)), fails)
      ensures connections == RemoveEach(old(connections), Failed(old(connections), fails))
    {
      Broadcast(Envelope("anomaly", AnomalyData(anomaly)), fails);
    }

    method SendTrend(trend: Trend, fails: seq<bool>)
      requires |fails| == |connections|
      modifies this
      ensures sent == old(sent) + Attempts(old(connections), Envelope("trend", TrendData(trend)), fails)
      ensures connections == RemoveEach(old(connections), Failed(old(connections), fails))
    {
      Broadcast(Envelope("trend", TrendData(trend)), fails);
    }

    method SendSystemStatus(powerMode: string, idleSeconds: real, fails: seq<bool>)
      requires |fails| == |connections|
      modifies this
      ensures sent == old(sent) + Attempts(old(connections), Envelope("system_status", StatusData(powerMode, idleSeconds)), fails)
      ensures connections == RemoveEach(old(connections), Failed(old(connections), fails))
    {
      Broadcast(Envelope("system_status", StatusData(powerMode, idleSeconds)), fails);
    }
  }

  /**
   * What one broadcast leaves behind, over distinct connections: exactly
   * the connections whose send succeeded, in their original order, and one
   * attempt per connection carrying the envelope.
   */
  lemma {:induction false} BroadcastOutcome(cs: seq<Socket>, e: Envelope, fails: seq<bool>)
    requires |fails| == |cs| && Distinct(cs)
    ensures RemoveEach(cs, Failed(cs, fails)) == Kept(cs, fails)
    ensures forall i :: 0 <= i < |cs| ==> Attempts(cs, e, fails)[i] == Attempt(cs[i], e, fails[i])
  {
    RemoveFailed(cs, fails);
  }

  /** A broadcast where every send succeeds keeps every connection. */
  lemma {:induction false} NoFailureKeepsAll(cs: seq<Socket>, fails: seq<bool>)
    requires |fails| == |cs| && forall i :: 0 <= i < |fails| ==> !fails[i]
    ensures Failed(cs, fails) == [] && Kept(cs, fails) == cs
  {
    if cs != [] {
      NoFailureKeepsAll(cs[..|cs| - 1], fails[..|cs| - 1]);
      assert cs == cs[..|cs| - 1] + [cs[|cs| - 1]];
    }
  }
}
