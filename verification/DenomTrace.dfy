/** The denomination trace of ICS-20 tokens (ibc/utils.go): a packet removes the hop it came by or adds the
    hop it arrives at. Over walks through paired channel ends this is reduction of words. */
module DenomTrace {
  datatype Hop = Hop(port: string, channel: string)

  datatype Denom = Denom(trace: seq<Hop>, base: string)

  datatype Coin = Coin(denom: Denom, amount: int)

  datatype Packet = Packet(source: Hop, destination: Hop)

  predicate HasPrefix(denom: Denom, hop: Hop) {
    denom.trace != [] && denom.trace[0] == hop
  }

  // GetReceivedCoin; the hash that names a denomination is left out.
  function ReceivedCoin(packet: Packet, token: Coin): Coin {
    if HasPrefix(token.denom, packet.source) then token.(denom := token.denom.(trace := token.denom.trace[1..]))
    else token.(denom := token.denom.(trace := [packet.destination] + token.denom.trace))
  }

  // ---------- Channels ----------

  // One end of a channel. Hops identify ends only within a chain.
  datatype End = End(chain: nat, hop: Hop)

  // Each end has a counterparty, and is its counterparty's counterparty.
  ghost predicate Paired(peer: End -> End) {
    forall e :: peer(peer(e)) == e
  }

  // Sending through e: the packet leaves at e and arrives at its counterparty.
  function Send(peer: End -> End, token: Coin, e: End): Coin {
    ReceivedCoin(Packet(e.hop, peer(e).hop), token)
  }

  // Sending through every end of a walk in turn.
  function Follow(peer: End -> End, token: Coin, walk: seq<End>): Coin
    decreases |walk|
  {
    if walk == [] then token else Follow(peer, Send(peer, token, walk[0]), walk[1..])
  }

  // The chain that a walk from the given chain leads to.
  function Target(peer: End -> End, start: nat, walk: seq<End>): nat {
    if walk == [] then start else peer(walk[|walk|-1]).chain
  }

  // A walk starts on the given chain and leaves each chain where it arrived.
  ghost predicate IsWalk(peer: End -> End, start: nat, walk: seq<End>)
    decreases |walk|
  {
    walk != [] ==> walk[0].chain == start && IsWalk(peer, peer(walk[0]).chain, walk[1..])
  }

  function Reverse(peer: End -> End, walk: seq<End>): seq<End> {
    if walk == [] then [] else Reverse(peer, walk[1..]) + [peer(walk[0])]
  }

  // ---------- Reduced traces ----------

  // No hop of the trace, read from the given chain, leads straight back through the next one.
  ghost predicate Reduced(peer: End -> End, chain: nat, trace: seq<Hop>)
    decreases |trace|
  {
    trace != [] ==>
      var back := peer(End(chain, trace[0]));
      && (|trace| > 1 ==> trace[1] != back.hop)
      && Reduced(peer, back.chain, trace[1..])
  }

  lemma SendKeepsReduced(peer: End -> End, token: Coin, e: End)
    requires Paired(peer) && Reduced(peer, e.chain, token.denom.trace)
    ensures Reduced(peer, peer(e).chain, Send(peer, token, e).denom.trace)
  {
    var t := token.denom.trace;
    if HasPrefix(token.denom, e.hop) {
      assert End(e.chain, t[0]) == e;
    } else {
      var t' := [peer(e).hop] + t;
      assert End(peer(e).chain, t'[0]) == peer(e) && t'[1..] == t;
    }
  }

  // Sending there and back restores the token, except when the first send removes a hop and the way back
  // happens to be the next hop.
  lemma RoundTripRestoresIff(peer: End -> End, token: Coin, e: End)
    requires Paired(peer)
    ensures Send(peer, Send(peer, token, e), peer(e)) == token <==>
              !(|token.denom.trace| > 1 && token.denom.trace[0] == e.hop && token.denom.trace[1] == peer(e).hop)
  {
    var t := token.denom.trace;
    if HasPrefix(token.denom, e.hop) {
      if |t| > 1 && t[1] == peer(e).hop {
        assert |Send(peer, Send(peer, token, e), peer(e)).denom.trace| == |t| - 2;
      } else {
        assert [e.hop] + t[1..] == t;
      }
    } else {
      assert ([peer(e).hop] + t)[1..] == t;
    }
  }

  lemma {:induction false} FollowInTurn(peer: End -> End, token: Coin, a: seq<End>, b: seq<End>)
    ensures Follow(peer, token, a + b) == Follow(peer, Follow(peer, token, a), b)
    decreases |a|
  {
    if a == [] {
      assert a + b == b;
    } else {
      assert (a + b)[1..] == a[1..] + b;
      FollowInTurn(peer, Send(peer, token, a[0]), a[1..], b);
    }
  }

  // Every trace received along a walk from a reduced trace is reduced, and walking back restores the token.
  lemma {:induction false} WalkAndReverseRestore(peer: End -> End, start: nat, token: Coin, walk: seq<End>)
    requires Paired(peer) && IsWalk(peer, start, walk) && Reduced(peer, start, token.denom.trace)
    ensures Reduced(peer, Target(peer, start, walk), Follow(peer, token, walk).denom.trace)
    ensures Follow(peer, token, walk + Reverse(peer, walk)) == token
    decreases |walk|
  {
    if walk == [] {
      assert walk + Reverse(peer, walk) == [];
    } else {
      var e, rest := walk[0], walk[1..];
      var sent := Send(peer, token, e);
      SendKeepsReduced(peer, token, e);
      WalkAndReverseRestore(peer, peer(e).chain, sent, rest);
      assert rest != [] ==> rest[|rest|-1] == walk[|walk|-1];
      var back := rest + Reverse(peer, rest);
      assert (walk + Reverse(peer, walk))[1..] == back + [peer(e)];
      FollowInTurn(peer, sent, back, [peer(e)]);
      ReducedHasNoReturn(peer, token, e);
      RoundTripRestoresIff(peer, token, e);
      FollowOne(peer, sent, peer(e));
    }
  }

  lemma FollowOne(peer: End -> End, token: Coin, e: End)
    ensures Follow(peer, token, [e]) == Send(peer, token, e)
  {
    assert [e][1..] == [];
    assert Follow(peer, Send(peer, token, e), []) == Send(peer, token, e);
  }

  lemma ReducedHasNoReturn(peer: End -> End, token: Coin, e: End)
    requires Reduced(peer, e.chain, token.denom.trace)
    ensures !(|token.denom.trace| > 1 && token.denom.trace[0] == e.hop && token.denom.trace[1] == peer(e).hop)
  {
    if token.denom.trace != [] && token.denom.trace[0] == e.hop {
      assert End(e.chain, token.denom.trace[0]) == e;
    }
  }

  // ---------- Traces are reduced walks ----------

  // A step that undoes the newest one removes it.
  function Push(peer: End -> End, steps: seq<End>, e: End): seq<End> {
    if steps != [] && peer(steps[0]) == e then steps[1..] else [e] + steps
  }

  // The walk without its back-and-forth, newest step first.
  function Reduction(peer: End -> End, walk: seq<End>): seq<End> {
    if walk == [] then [] else Push(peer, Reduction(peer, walk[..|walk|-1]), walk[|walk|-1])
  }

  // The ends at which the steps arrived.
  function Arrivals(peer: End -> End, steps: seq<End>): seq<Hop> {
    if steps == [] then [] else [peer(steps[0]).hop] + Arrivals(peer, steps[1..])
  }

  // Newest-first steps that end on the given chain.
  ghost predicate LeadsTo(peer: End -> End, chain: nat, steps: seq<End>)
    decreases |steps|
  {
    steps != [] ==> peer(steps[0]).chain == chain && LeadsTo(peer, steps[0].chain, steps[1..])
  }

  // Hops are compared on one chain only, where they identify ends.
  lemma SendPushes(peer: End -> End, token: Coin, steps: seq<End>, e: End)
    requires Paired(peer) && LeadsTo(peer, e.chain, steps) && token.denom.trace == Arrivals(peer, steps)
    ensures Send(peer, token, e) == token.(denom := token.denom.(trace := Arrivals(peer, Push(peer, steps, e))))
    ensures LeadsTo(peer, peer(e).chain, Push(peer, steps, e))
  {
    if steps != [] && peer(steps[0]) == e {
      assert peer(e) == steps[0];
    } else {
      assert ([e] + steps)[1..] == steps;
      if steps != [] {
        assert peer(steps[0]) == End(e.chain, peer(steps[0]).hop);
      }
    }
  }

  lemma {:induction false} WalkPrefix(peer: End -> End, start: nat, walk: seq<End>)
    requires IsWalk(peer, start, walk) && walk != []
    ensures IsWalk(peer, start, walk[..|walk|-1]) && walk[|walk|-1].chain == Target(peer, start, walk[..|walk|-1])
    decreases |walk|
  {
    if |walk| > 1 {
      var rest := walk[1..];
      WalkPrefix(peer, peer(walk[0]).chain, rest);
      assert walk[..|walk|-1][1..] == rest[..|rest|-1];
      assert |rest| > 1 ==> rest[..|rest|-1][|rest|-2] == walk[|walk|-2];
    }
  }

  // The trace of a native token after any walk is the list of arrivals of the reduced walk.
  lemma {:induction false} TraceIsReducedWalk(peer: End -> End, start: nat, walk: seq<End>, token: Coin)
    requires Paired(peer) && IsWalk(peer, start, walk) && token.denom.trace == []
    ensures Follow(peer, token, walk) == token.(denom := token.denom.(trace := Arrivals(peer, Reduction(peer, walk))))
    ensures LeadsTo(peer, Target(peer, start, walk), Reduction(peer, walk))
    decreases |walk|
  {
    if walk != [] {
      var init, e := walk[..|walk|-1], walk[|walk|-1];
      WalkPrefix(peer, start, walk);
      TraceIsReducedWalk(peer, start, init, token);
      assert walk == init + [e];
      FollowInTurn(peer, token, init, [e]);
      FollowOne(peer, Follow(peer, token, init), e);
      SendPushes(peer, Follow(peer, token, init), Reduction(peer, init), e);
    }
  }

  lemma {:induction false} ArrivalsDetermineSteps(peer: End -> End, chain: nat, a: seq<End>, b: seq<End>)
    requires Paired(peer) && LeadsTo(peer, chain, a) && LeadsTo(peer, chain, b)
    requires Arrivals(peer, a) == Arrivals(peer, b)
    ensures a == b
    decreases |a|
  {
    if a != [] && b != [] {
      var ta, tb := Arrivals(peer, a), Arrivals(peer, b);
      assert ta[0] == tb[0] && ta[1..] == tb[1..];
      assert peer(a[0]) == End(chain, ta[0]) == peer(b[0]);
      assert a[0] == peer(peer(a[0])) && b[0] == peer(peer(b[0]));
      ArrivalsDetermineSteps(peer, a[0].chain, a[1..], b[1..]);
      assert a == [a[0]] + a[1..] && b == [b[0]] + b[1..];
    }
  }

  // Two routes of a token to the same chain give the same denomination exactly when they reduce to the same
  // walk.
  lemma SameDenomIffSameReducedWalk(peer: End -> End, start: nat, a: seq<End>, start': nat,
                                    b: seq<End>, token: Coin)
    requires Paired(peer) && IsWalk(peer, start, a) && IsWalk(peer, start', b) && token.denom.trace == []
    requires Target(peer, start, a) == Target(peer, start', b)
    ensures Follow(peer, token, a) == Follow(peer, token, b) <==> Reduction(peer, a) == Reduction(peer, b)
  {
    TraceIsReducedWalk(peer, start, a, token);
    TraceIsReducedWalk(peer, start', b, token);
    if Follow(peer, token, a) == Follow(peer, token, b) {
      ArrivalsDetermineSteps(peer, Target(peer, start, a), Reduction(peer, a), Reduction(peer, b));
    }
  }
}
