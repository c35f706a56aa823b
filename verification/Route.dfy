/**
 The route envelope: what a node checks before it forwards, and what that guarantees about every
 route a packet can take.
 */
module Route {
  import opened Wrappers
  import opened Collections

  type Node = nat

  datatype RouteContext = RouteContext(
    traceId: nat, source: Node, destination: Node, current: Node, visited: seq<Node>, remainingHops: nat)

  /** The program reports both loops as one error; here they are told apart. */
  datatype Refusal = IncomingLoop | BadChain | WrongHolder | HopsExhausted | OutgoingLoop | PolicyFailed

  datatype Progress = Arrive | Continue(nextHop: Node, context: RouteContext)

  function Origin(traceId: nat, source: Node, destination: Node, maxHops: nat): RouteContext
  {
    RouteContext(traceId, source, destination, source, [], maxHops)
  }

  /** The envelope after `local` forwards it. */
  function Forward(c: RouteContext, local: Node): RouteContext
  {
    c.(visited := c.visited + [c.current], current := local,
       remainingHops := if c.remainingHops == 0 then 0 else c.remainingHops - 1)
  }

  type Policy = RouteContext -> Option<Node>

  function Receive(c: RouteContext, local: Node, peer: Node, choose: Policy): Result<Progress, Refusal>
  {
    if c.current == local || local in c.visited then Err(IncomingLoop)
    else if !Distinct(c.visited) then Err(IncomingLoop)
    else if c.visited != [] && c.visited[0] != c.source then Err(BadChain)
    else if c.current != peer then Err(WrongHolder)
    else if c.destination == local then Ok(Arrive)
    else if c.remainingHops == 0 then Err(HopsExhausted)
    else
      match choose(c)
      case None => Err(PolicyFailed)
      case Some(hop) =>
        if hop == local || hop == c.current || hop == c.source || hop in c.visited then Err(OutgoingLoop)
        else Ok(Continue(hop, Forward(c, local)))
  }

  /** The check as the program makes it: a growing set of nodes seen along the chain. */
  method ReceiveAt(c: RouteContext, local: Node, peer: Node, choose: Policy) returns (r: Result<Progress, Refusal>)
    ensures r == Receive(c, local, peer, choose)
  {
    if c.current == local || local in c.visited {
      return Err(IncomingLoop);
    }
    var seen: set<Node> := {};
    for i := 0 to |c.visited|
      invariant forall node :: node in seen <==> node in c.visited[..i]
      invariant Distinct(c.visited[..i])
    {
      if c.visited[i] in seen {
        var j :| 0 <= j < i && c.visited[..i][j] == c.visited[i];
        return Err(IncomingLoop);
      }
      assert c.visited[..i + 1] == c.visited[..i] + [c.visited[i]];
      seen := seen + {c.visited[i]};
    }
    assert c.visited[..|c.visited|] == c.visited;
    if c.visited != [] && c.visited[0] != c.source {
      return Err(BadChain);
    }
    if c.current != peer {
      return Err(WrongHolder);
    }
    if c.destination == local {
      return Ok(Arrive);
    }
    if c.remainingHops == 0 {
      return Err(HopsExhausted);
    }
    var hop := choose(c);
    if hop.Some? && (hop.value == local || hop.value == c.current || hop.value == c.source || hop.value in c.visited) {
      return Err(OutgoingLoop);
    }
    if hop.None? {
      return Err(PolicyFailed);
    }
    r := Ok(Continue(hop.value, Forward(c, local)));
  }

  // ---- Routes ----

  /** One forwarding: the node that received the packet, the session peer it came from, and its policy. */
  datatype Hop = Hop(local: Node, peer: Node, choose: Policy)

  /** The envelope after every listed node received and forwarded it. */
  function Travel(c: RouteContext, hops: seq<Hop>): Option<RouteContext>
  {
    if hops == [] then Some(c) else
    var before := Travel(c, hops[..|hops| - 1]);
    if before.None? then None else
    var last := hops[|hops| - 1];
    match Receive(before.value, last.local, last.peer, last.choose)
    case Ok(Continue(_, context)) => Some(context)
    case _ => None
  }

  /** The holders so far, in order. */
  function Chain(c: RouteContext): seq<Node>
  {
    c.visited + [c.current]
  }

  predicate Sound(c: RouteContext)
  {
    Distinct(Chain(c)) && Chain(c)[0] == c.source
  }

  lemma ForwardSound(c: RouteContext, local: Node, peer: Node, choose: Policy)
    requires Sound(c) && Receive(c, local, peer, choose).Ok? && Receive(c, local, peer, choose).value.Continue?
    ensures Sound(Forward(c, local)) && c.remainingHops > 0
  {
    var next := Forward(c, local);
    assert Chain(next) == Chain(c) + [local];
    assert local !in Chain(c);
  }

  /** Along every route the chain of holders is duplicate-free and starts at the source, each forward
      costs exactly one hop, and there are at most `maxHops` of them. */
  lemma {:induction false} RouteInvariant(traceId: nat, source: Node, destination: Node, maxHops: nat, hops: seq<Hop>)
    requires Travel(Origin(traceId, source, destination, maxHops), hops).Some?
    ensures var c := Travel(Origin(traceId, source, destination, maxHops), hops).value;
            && Sound(c) && |c.visited| == |hops| && c.remainingHops + |hops| == maxHops
            && c.traceId == traceId && c.source == source && c.destination == destination
    decreases |hops|
  {
    if hops != [] {
      var front, last := hops[..|hops| - 1], hops[|hops| - 1];
      RouteInvariant(traceId, source, destination, maxHops, front);
      var c := Travel(Origin(traceId, source, destination, maxHops), front).value;
      ForwardSound(c, last.local, last.peer, last.choose);
    }
  }

  /** Any envelope, however it was made, that one node forwards and the next one accepts had a
      duplicate-free chain from its source. */
  lemma TwoReceivesProveChain(c: RouteContext, first: Node, peer: Node, choose: Policy,
                              second: Node, peer': Node, choose': Policy)
    requires Receive(c, first, peer, choose).Ok? && Receive(c, first, peer, choose).value.Continue?
    requires Receive(Receive(c, first, peer, choose).value.context, second, peer', choose').Ok?
    ensures Sound(c) && c.current == peer && first == peer' && first !in Chain(c) && second !in Chain(c) + [first]
  {
    var next := Receive(c, first, peer, choose).value.context;
    assert next.visited == Chain(c) && Chain(next) == Chain(c) + [first];
    assert second !in next.visited && second != next.current;
  }

  /** One receive alone does not: it never looks for the claimed holder in the chain before it, so a
      forged envelope whose holder was visited already is forwarded. */
  lemma OneReceiveIsNotEnough(forged: RouteContext, choose: Policy)
    requires forged == RouteContext(0, 1, 9, 1, [1], 5) && choose(forged) == Some(4)
    ensures Receive(forged, 3, 1, choose) == Ok(Continue(4, Forward(forged, 3))) && !Sound(forged)
  {
    assert Chain(forged)[0] == Chain(forged)[1];
  }

  /** What one accepting receive does establish, and exactly what it leaves open: the chain is sound
      if and only if the claimed holder is new to it (and is the source when nothing was visited). */
  lemma OneReceiveChain(c: RouteContext, local: Node, peer: Node, choose: Policy)
    requires Receive(c, local, peer, choose).Ok?
    ensures Sound(c) <==> if c.visited == [] then c.current == c.source else c.current !in c.visited
  {
    var chain := Chain(c);
    if c.visited != [] && c.current in c.visited {
      var i :| 0 <= i < |c.visited| && c.visited[i] == c.current;
      assert chain[i] == chain[|c.visited|];
    }
  }

  /** Honest forwarding never fails its own checks: on a reachable envelope, what a node hands to the
      next hop passes the holder, chain and loop checks there. */
  lemma HonestForwardingPasses(traceId: nat, source: Node, destination: Node, maxHops: nat, hops: seq<Hop>,
                               local: Node, peer: Node, choose: Policy, choose': Policy)
    requires Travel(Origin(traceId, source, destination, maxHops), hops).Some?
    requires var r := Receive(Travel(Origin(traceId, source, destination, maxHops), hops).value, local, peer, choose);
             r.Ok? && r.value.Continue?
    ensures var c := Travel(Origin(traceId, source, destination, maxHops), hops).value;
            var progress := Receive(c, local, peer, choose).value;
            var (nextHop, context) := (progress.nextHop, progress.context);
            var r := Receive(context, nextHop, local, choose');
            && (r.Ok? || r.error in {HopsExhausted, OutgoingLoop, PolicyFailed})
            && (r == Err(HopsExhausted) <==> nextHop != destination && |hops| + 1 == maxHops)
            && (nextHop == destination <==> r == Ok(Arrive))
  {
    RouteInvariant(traceId, source, destination, maxHops, hops);
    var c := Travel(Origin(traceId, source, destination, maxHops), hops).value;
    hide Travel, Distinct;
    ForwardedPasses(c, local, peer, choose, choose');
  }

  lemma ForwardedPasses(c: RouteContext, local: Node, peer: Node, choose: Policy, choose': Policy)
    requires Sound(c) && Receive(c, local, peer, choose).Ok? && Receive(c, local, peer, choose).value.Continue?
    ensures var progress := Receive(c, local, peer, choose).value;
            var r := Receive(progress.context, progress.nextHop, local, choose');
            && (r.Ok? || r.error in {HopsExhausted, OutgoingLoop, PolicyFailed})
            && (r == Err(HopsExhausted) <==> progress.nextHop != c.destination && c.remainingHops == 1)
            && (progress.nextHop == c.destination <==> r == Ok(Arrive))
  {
    ForwardSound(c, local, peer, choose);
    var progress := Receive(c, local, peer, choose).value;
    assert Chain(progress.context) == Chain(c) + [local];
    assert progress.nextHop !in Chain(progress.context);
    SoundReceive(progress.context, progress.nextHop, local, choose');
    hide Distinct, Sound;
  }

  /** What a node does with a sound envelope from its holder, if it is new to the chain: it takes what is
      meant for it, and forwards everything else to any chosen node that is new to the chain too. */
  lemma SoundReceive(c: RouteContext, local: Node, peer: Node, choose: Policy)
    requires Sound(c) && peer == c.current && local !in Chain(c)
    ensures Receive(c, local, peer, choose) ==
            if c.destination == local then Ok(Arrive)
            else if c.remainingHops == 0 then Err(HopsExhausted)
            else if choose(c).None? then Err(PolicyFailed)
            else if choose(c).value in Chain(c) + [local] then Err(OutgoingLoop)
            else Ok(Continue(choose(c).value, Forward(c, local)))
  {
    assert Distinct(c.visited) by {
      assert forall i :: 0 <= i < |c.visited| ==> c.visited[i] == Chain(c)[i];
    }
    assert c.visited != [] ==> c.visited[0] == Chain(c)[0];
    assert Chain(c)[0] in Chain(c);
  }

  /** Why an envelope is refused, whoever made it. */
  lemma RefusalReasons(c: RouteContext, local: Node, peer: Node, choose: Policy)
    ensures var r := Receive(c, local, peer, choose);
            var looped := local in Chain(c) || !Distinct(c.visited);
            var rooted := c.visited == [] || c.visited[0] == c.source;
            && (r == Err(IncomingLoop) <==> looped)
            && (r == Err(BadChain) <==> !looped && !rooted)
            && (r == Err(WrongHolder) <==> !looped && rooted && c.current != peer)
            && (r == Ok(Arrive) <==> !looped && rooted && c.current == peer && c.destination == local)
            && (r == Err(HopsExhausted) <==>
                !looped && rooted && c.current == peer && c.destination != local && c.remainingHops == 0)
  {
  }

  // ---- Delivery ----

  /** The envelope as the i-th node of a path holds it. */
  function Along(traceId: nat, path: seq<Node>, maxHops: nat, i: nat): RouteContext
    requires i < |path| && i <= maxHops
  {
    RouteContext(traceId, path[0], path[|path| - 1], path[i], path[..i], maxHops - i)
  }

  /** What the next node of a simple path does with it: the last one takes it, any other forwards it to the
      node its policy chooses, as long as the budget lasts. */
  lemma PathStep(traceId: nat, path: seq<Node>, maxHops: nat, i: nat, choose: Policy)
    requires Distinct(path) && i + 1 < |path| && i <= maxHops
    requires i + 2 < |path| ==> choose(Along(traceId, path, maxHops, i)) == Some(path[i + 2])
    ensures Receive(Along(traceId, path, maxHops, i), path[i + 1], path[i], choose) ==
            if i + 2 == |path| then Ok(Arrive)
            else if i == maxHops then Err(HopsExhausted)
            else Ok(Continue(path[i + 2], Along(traceId, path, maxHops, i + 1)))
  {
    var c := Along(traceId, path, maxHops, i);
    assert Distinct(c.visited);
    assert path[i + 1] !in c.visited && c.current != path[i + 1];
    if i + 2 < |path| {
      var next := path[i + 2];
      assert next !in c.visited && next != path[0] && next != path[i] && next != path[i + 1];
      assert path[..i + 1] == path[..i] + [path[i]];
    }
  }

  /** Each node of a path hands the packet to the one after it. */
  function PathHops(path: seq<Node>, count: nat): (hops: seq<Hop>)
    requires count + 1 < |path|
    ensures |hops| == count
  {
    seq(count, i requires 0 <= i < count => Hop(path[i + 1], path[i], (_: RouteContext) => Some(path[i + 2])))
  }

  lemma {:induction false} PathTravels(traceId: nat, path: seq<Node>, maxHops: nat, count: nat)
    requires Distinct(path) && count + 1 < |path| && count <= maxHops
    ensures Travel(Origin(traceId, path[0], path[|path| - 1], maxHops), PathHops(path, count)) ==
            Some(Along(traceId, path, maxHops, count))
  {
    if count > 0 {
      PathTravels(traceId, path, maxHops, count - 1);
      var hops := PathHops(path, count);
      assert hops[..count - 1] == PathHops(path, count - 1);
      PathStep(traceId, path, maxHops, count - 1, hops[count - 1].choose);
    }
  }

  /** Every simple path with at most `maxHops` nodes between its ends delivers: each of them forwards the
      packet and the destination takes it. A longer one ends where the budget does. */
  lemma PathDelivers(traceId: nat, path: seq<Node>, maxHops: nat, choose: Policy)
    requires Distinct(path) && |path| >= 2
    ensures |path| - 2 <= maxHops ==>
              var c := Travel(Origin(traceId, path[0], path[|path| - 1], maxHops), PathHops(path, |path| - 2));
              c.Some? && Receive(c.value, path[|path| - 1], path[|path| - 2], choose) == Ok(Arrive)
    ensures |path| - 2 > maxHops ==>
              var c := Travel(Origin(traceId, path[0], path[|path| - 1], maxHops), PathHops(path, maxHops));
              c.Some? && Receive(c.value, path[maxHops + 1], path[maxHops], choose) == Err(HopsExhausted)
  {
    if |path| - 2 <= maxHops {
      PathTravels(traceId, path, maxHops, |path| - 2);
      PathStep(traceId, path, maxHops, |path| - 2, choose);
    } else {
      PathTravels(traceId, path, maxHops, maxHops);
      PathStep(traceId, path, maxHops, maxHops, (_: RouteContext) => Some(path[maxHops + 2]));
    }
  }
}
