/**
 * Dijkstra's search of shortestPath: the tentative distances, the predecessor
 * maps and the priority queue, the invariants they keep between polls, and
 * the walks of the network they are measured against.
 */
module Routing {
  import opened Metro

  /** A tentative distance; Unreached stands for the Double.MAX_VALUE sentinel. */
  datatype Dist = Unreached | Reached(d: real)

  /** A queue entry: a station with the distance it was pushed with. */
  datatype Node = Node(station: Station, distance: real)

  /** The path, the arrival line of every relaxed station, and the distance to the end. */
  datatype PathResult = PathResult(path: seq<Station>, lineInfo: map<Station, LineName>, total: Dist)

  /** newDist < dist.get(target), where the sentinel exceeds every real distance. */
  predicate Improves(x: real, v: Dist)
    ensures !Improves(x, v) ==> v.Reached? && v.d <= x
  {
    v.Unreached? || x < v.d
  }

  // ---------------------------------------------------------------------------
  // Walks of the network.

  /** path[0] -hops[0]-> path[1] -hops[1]-> ... follows connections of the adjacency list. */
  ghost predicate IsWalk(g: map<Station, seq<Connection>>, path: seq<Station>, hops: seq<Connection>)
  {
    && |path| == |hops| + 1
    && forall i :: 0 <= i < |hops| ==>
         path[i] in g && hops[i] in g[path[i]] && hops[i].target == path[i + 1]
  }

  function WalkCost(hops: seq<Connection>): real
  {
    if hops == [] then 0.0 else hops[0].distance + WalkCost(hops[1..])
  }

  ghost predicate Reachable(g: map<Station, seq<Connection>>, a: Station, b: Station)
  {
    exists path, hops :: IsWalk(g, path, hops) && path[0] == a && path[|path| - 1] == b
  }

  lemma {:induction false} WalkCostNonNegative(g: map<Station, seq<Connection>>, path: seq<Station>,
                                               hops: seq<Connection>, k: nat)
    requires NonNegative(g) && IsWalk(g, path, hops) && k <= |hops|
    ensures WalkCost(hops[k..]) >= 0.0
    decreases |hops| - k
  {
    if k < |hops| {
      assert hops[k..][1..] == hops[k + 1..];
      WalkCostNonNegative(g, path, hops, k + 1);
    }
  }

  // ---------------------------------------------------------------------------
  // The priority queue as a sequence.

  /** The index of the first entry with the least distance (what poll returns). */
  method FindMin(pq: seq<Node>) returns (k: nat)
    requires pq != []
    ensures k < |pq|
    ensures forall j :: 0 <= j < |pq| ==> pq[k].distance <= pq[j].distance
    ensures forall j :: 0 <= j < k ==> pq[j].distance > pq[k].distance
  {
    k := 0;
    var i := 1;
    while i < |pq|
      invariant k < i <= |pq|
      invariant forall j :: 0 <= j < i ==> pq[k].distance <= pq[j].distance
      invariant forall j :: 0 <= j < k ==> pq[j].distance > pq[k].distance
    {
      if pq[i].distance < pq[k].distance {
        k := i;
      }
      i := i + 1;
    }
  }

  /** The queue without the entry at k. */
  function RemoveAt(pq: seq<Node>, k: nat): (r: seq<Node>)
    requires k < |pq|
    ensures multiset(r) + multiset{pq[k]} == multiset(pq)
    ensures forall n :: n in r ==> n in pq
    ensures forall n :: n in pq && n != pq[k] ==> n in r
  {
    assert pq == pq[..k] + [pq[k]] + pq[k + 1..];
    pq[..k] + pq[k + 1..]
  }


  // ---------------------------------------------------------------------------
  // The state between two polls. Each property is stated for one station (or
  // one queue entry) by a predicate of its own, and the quantifiers range over
  // those predicates: a fact about a particular station is used by naming it.

  /** dist has an entry for every station of the network, and start is at distance 0. */
  ghost predicate DistOk(g: map<Station, seq<Connection>>, start: Station, dist: map<Station, Dist>)
  {
    dist.Keys == g.Keys && start in g && dist[start] == Reached(0.0)
  }

  /** Entry n, if queued, is reached, at least its station's distance and at least floor. */
  ghost predicate EntryOk(dist: map<Station, Dist>, pq: seq<Node>, floor: real, n: Node)
  {
    n in pq ==>
      n.station in dist && dist[n.station].Reached?
      && dist[n.station].d <= n.distance && floor <= n.distance
  }

  ghost predicate QueueOk(dist: map<Station, Dist>, pq: seq<Node>, floor: real)
  {
    0.0 <= floor && forall n :: EntryOk(dist, pq, floor, n)
  }

  /** The target of c is reached within d + c.distance. */
  ghost predicate EdgeRelaxed(dist: map<Station, Dist>, c: Connection, d: real)
  {
    c.target in dist && dist[c.target].Reached? && dist[c.target].d <= d + c.distance
  }

  /** All outgoing connections of v are relaxed from v's own distance. */
  ghost predicate Relaxed(g: map<Station, seq<Connection>>, dist: map<Station, Dist>, v: Station)
  {
    && v in g && v in dist && dist[v].Reached?
    && forall c :: c in g[v] ==> EdgeRelaxed(dist, c, dist[v].d)
  }

  /** Station v, if settled, is reached no further than floor and, unless it is in x, relaxed. */
  ghost predicate SettledAt(g: map<Station, seq<Connection>>, dist: map<Station, Dist>,
                            settled: set<Station>, x: set<Station>, floor: real, v: Station)
  {
    v in settled ==>
      v in dist && dist[v].Reached? && dist[v].d <= floor && (v !in x ==> Relaxed(g, dist, v))
  }

  ghost predicate SettledOk(g: map<Station, seq<Connection>>, dist: map<Station, Dist>,
                            settled: set<Station>, x: set<Station>, floor: real)
  {
    forall v :: SettledAt(g, dist, settled, x, floor, v)
  }

  /** Station v, if reached and not settled, has its current distance in the queue. */
  ghost predicate PendingAt(dist: map<Station, Dist>, pq: seq<Node>, settled: set<Station>, v: Station)
  {
    v in dist && v !in settled && dist[v].Reached? ==> Node(v, dist[v].d) in pq
  }

  ghost predicate Queued(dist: map<Station, Dist>, pq: seq<Node>, settled: set<Station>)
  {
    forall v :: PendingAt(dist, pq, settled, v)
  }

  /** A settled station has a position in the settling order. */
  ghost predicate OrderAt(settled: set<Station>, order: map<Station, nat>, x: Station)
  {
    x in settled ==> x in order && order[x] < |settled|
  }

  /**
   * prevStation and prevLine at v: the predecessor is settled (before v, if v
   * is settled too) and has a connection to v on the recorded line whose
   * length is the whole difference of their distances.
   */
  ghost predicate LinkAt(g: map<Station, seq<Connection>>, dist: map<Station, Dist>,
                         prev: map<Station, Station>, prevLine: map<Station, LineName>,
                         settled: set<Station>, order: map<Station, nat>, v: Station)
  {
    v in prev ==>
      && v in dist && dist[v].Reached? && v in prevLine
      && prev[v] in settled && prev[v] in order && prev[v] in g && prev[v] in dist && dist[prev[v]].Reached?
      && Connection(v, prevLine[v], dist[v].d - dist[prev[v]].d) in g[prev[v]]
      && (v in settled ==> v in order && order[prev[v]] < order[v])
  }

  /** Every reached station other than start has a predecessor. */
  ghost predicate HasPred(start: Station, dist: map<Station, Dist>, prev: map<Station, Station>, v: Station)
  {
    v in dist && dist[v].Reached? && v != start ==> v in prev
  }

  ghost predicate PredOk(g: map<Station, seq<Connection>>, start: Station, dist: map<Station, Dist>,
                         prev: map<Station, Station>, prevLine: map<Station, LineName>,
                         settled: set<Station>, order: map<Station, nat>)
  {
    && start !in prev
    && (forall x :: OrderAt(settled, order, x))
    && (forall v :: LinkAt(g, dist, prev, prevLine, settled, order, v))
    && (forall v :: HasPred(start, dist, prev, v))
  }

  /** The invariant of the outer loop, with floor the distance of the last poll. */
  ghost predicate Inv(g: map<Station, seq<Connection>>, start: Station, dist: map<Station, Dist>,
                      prev: map<Station, Station>, prevLine: map<Station, LineName>, pq: seq<Node>,
                      settled: set<Station>, order: map<Station, nat>, floor: real)
  {
    && DistOk(g, start, dist) && QueueOk(dist, pq, floor) && SettledOk(g, dist, settled, {}, floor)
    && Queued(dist, pq, settled) && PredOk(g, start, dist, prev, prevLine, settled, order)
  }

  /** The state right after u is polled with distance d and settled, before its edges are relaxed. */
  ghost predicate RelaxReady(g: map<Station, seq<Connection>>, start: Station, dist: map<Station, Dist>,
                             prev: map<Station, Station>, prevLine: map<Station, LineName>, pq: seq<Node>,
                             settled: set<Station>, order: map<Station, nat>, u: Station, d: real)
  {
    && DistOk(g, start, dist) && QueueOk(dist, pq, d) && SettledOk(g, dist, settled, {u}, d)
    && Queued(dist, pq, settled) && PredOk(g, start, dist, prev, prevLine, settled, order)
    && u in settled && u in g && u in dist && dist[u].Reached? && dist[u].d <= d
  }

  /** The initial state: only start is reached, and it is the only queued entry. */
  lemma InitialInv(g: map<Station, seq<Connection>>, start: Station, dist: map<Station, Dist>)
    requires start in g && dist.Keys == g.Keys && dist[start] == Reached(0.0)
    requires forall v :: v in dist && v != start ==> dist[v] == Unreached
    ensures Inv(g, start, dist, map[], map[], [Node(start, 0.0)], {}, map[], 0.0)
  {
    forall v
      ensures PendingAt(dist, [Node(start, 0.0)], {}, v) && HasPred(start, dist, map[], v)
    {
    }
  }

  // ---------------------------------------------------------------------------
  // One poll.

  /** The least entry (u, d): u is reached within d, and if u is not settled, d is its distance. */
  lemma PollDistance(dist: map<Station, Dist>, pq: seq<Node>, settled: set<Station>, floor: real, k: nat)
    requires QueueOk(dist, pq, floor) && Queued(dist, pq, settled)
    requires k < |pq| && forall j :: 0 <= j < |pq| ==> pq[k].distance <= pq[j].distance
    ensures pq[k].station in dist && dist[pq[k].station].Reached?
    ensures dist[pq[k].station].d <= pq[k].distance && floor <= pq[k].distance
    ensures pq[k].station !in settled ==> dist[pq[k].station].d == pq[k].distance
  {
    var u := pq[k].station;
    assert EntryOk(dist, pq, floor, pq[k]);
    if u !in settled {
      assert PendingAt(dist, pq, settled, u);
      var j :| 0 <= j < |pq| && pq[j] == Node(u, dist[u].d);
    }
  }

  /** The rest of the queue lies at or above the polled distance. */
  lemma PollQueue(dist: map<Station, Dist>, pq: seq<Node>, floor: real, k: nat)
    requires QueueOk(dist, pq, floor)
    requires k < |pq| && forall j :: 0 <= j < |pq| ==> pq[k].distance <= pq[j].distance
    ensures QueueOk(dist, RemoveAt(pq, k), pq[k].distance)
  {
    var rest := RemoveAt(pq, k);
    assert EntryOk(dist, pq, floor, pq[k]);
    forall n
      ensures EntryOk(dist, rest, pq[k].distance, n)
    {
      if n in rest {
        assert EntryOk(dist, pq, floor, n);
        var j :| 0 <= j < |pq| && pq[j] == n;
      }
    }
  }

  lemma PollSettled(g: map<Station, seq<Connection>>, dist: map<Station, Dist>,
                    settled: set<Station>, floor: real, u: Station, d: real)
    requires SettledOk(g, dist, settled, {}, floor) && floor <= d
    requires u in dist && dist[u].Reached? && dist[u].d <= d
    ensures SettledOk(g, dist, settled + {u}, {u}, d)
  {
    forall v
      ensures SettledAt(g, dist, settled + {u}, {u}, d, v)
    {
      assert SettledAt(g, dist, settled, {}, floor, v);
    }
  }

  lemma PollQueued(dist: map<Station, Dist>, pq: seq<Node>, settled: set<Station>, k: nat)
    requires Queued(dist, pq, settled) && k < |pq|
    ensures Queued(dist, RemoveAt(pq, k), settled + {pq[k].station})
  {
    forall v
      ensures PendingAt(dist, RemoveAt(pq, k), settled + {pq[k].station}, v)
    {
      assert PendingAt(dist, pq, settled, v);
    }
  }

  /** Settling u gives it the next position in the settling order. */
  lemma PollPred(g: map<Station, seq<Connection>>, start: Station, dist: map<Station, Dist>,
                 prev: map<Station, Station>, prevLine: map<Station, LineName>,
                 settled: set<Station>, order: map<Station, nat>, u: Station)
    requires PredOk(g, start, dist, prev, prevLine, settled, order)
    ensures PredOk(g, start, dist, prev, prevLine, settled + {u},
                   if u in settled then order else order[u := |settled|])
  {
    if u in settled {
      assert settled + {u} == settled;
    } else {
      var settled', order' := settled + {u}, order[u := |settled|];
      forall x
        ensures OrderAt(settled', order', x)
      {
        assert OrderAt(settled, order, x);
      }
      forall v
        ensures LinkAt(g, dist, prev, prevLine, settled', order', v)
      {
        assert LinkAt(g, dist, prev, prevLine, settled, order, v);
        if v in prev {
          assert OrderAt(settled, order, prev[v]);
        }
      }
    }
  }

  /**
   * Polling the least entry (u, d) and settling u: if u was not settled, d
   * is its distance; if it was, it is relaxed already; either way the state
   * is ready for relaxing u's connections.
   */
  lemma PollKeeps(g: map<Station, seq<Connection>>, start: Station, dist: map<Station, Dist>,
                  prev: map<Station, Station>, prevLine: map<Station, LineName>, pq: seq<Node>,
                  settled: set<Station>, order: map<Station, nat>, floor: real, k: nat)
    requires Inv(g, start, dist, prev, prevLine, pq, settled, order, floor)
    requires k < |pq| && forall j :: 0 <= j < |pq| ==> pq[k].distance <= pq[j].distance
    ensures pq[k].station in g && dist[pq[k].station].Reached?
    ensures floor <= pq[k].distance && dist[pq[k].station].d <= pq[k].distance
    ensures pq[k].station !in settled ==> dist[pq[k].station].d == pq[k].distance
    ensures pq[k].station in settled ==> Relaxed(g, dist, pq[k].station)
    ensures RelaxReady(g, start, dist, prev, prevLine, RemoveAt(pq, k), settled + {pq[k].station},
                       if pq[k].station in settled then order else order[pq[k].station := |settled|],
                       pq[k].station, pq[k].distance)
  {
    PollDistance(dist, pq, settled, floor, k);
    assert SettledAt(g, dist, settled, {}, floor, pq[k].station);
    PollQueue(dist, pq, floor, k);
    PollSettled(g, dist, settled, floor, pq[k].station, pq[k].distance);
    PollQueued(dist, pq, settled, k);
    PollPred(g, start, dist, prev, prevLine, settled, order, pq[k].station);
  }

  // ---------------------------------------------------------------------------
  // Relaxing the connections of the polled station.

  /**
   * The inner loop over graph.get(u), relaxing each connection from the
   * polled distance d. again says that u was settled before: then d is stale
   * and nothing improves.
   */
  method Relax(g: map<Station, seq<Connection>>, start: Station, u: Station, d: real,
               dist0: map<Station, Dist>, prev0: map<Station, Station>,
               prevLine0: map<Station, LineName>, pq0: seq<Node>,
               ghost settled: set<Station>, ghost order: map<Station, nat>, ghost again: bool)
    returns (dist: map<Station, Dist>, prev: map<Station, Station>,
             prevLine: map<Station, LineName>, pq: seq<Node>)
    requires Closed(g) && NonNegative(g)
    requires RelaxReady(g, start, dist0, prev0, prevLine0, pq0, settled, order, u, d)
    requires if again then Relaxed(g, dist0, u) else dist0[u].d == d
    ensures Inv(g, start, dist, prev, prevLine, pq, settled, order, d)
    ensures forall c :: c in g[u] ==> EdgeRelaxed(dist, c, d)
    ensures Lowered(dist0, dist, prev, u)
    ensures again ==> dist == dist0 && prev == prev0 && prevLine == prevLine0 && pq == pq0
  {
    dist, prev, prevLine, pq := dist0, prev0, prevLine0, pq0;
    var conns := g[u];
    var i := 0;
    RelaxBegins(g, start, u, d, dist0, prev0, prevLine0, pq0, settled, order, again);
    while i < |conns|
      invariant RelaxLoop(g, start, u, d, dist0, prev0, prevLine0, pq0, settled, order, again,
                          i, dist, prev, prevLine, pq)
    {
      var conn := conns[i];
      // newDist is d + conn.distance
      if Improves(d + conn.distance, dist[conn.target]) {
        RelaxImproves(g, start, u, d, dist0, prev0, prevLine0, pq0, settled, order, again,
                      i, dist, prev, prevLine, pq, conn);
        dist := dist[conn.target := Reached(d + conn.distance)];
        prev := prev[conn.target := u];
        prevLine := prevLine[conn.target := conn.line];
        pq := pq + [Node(conn.target, d + conn.distance)];
      } else {
        RelaxSkips(g, start, u, d, dist0, prev0, prevLine0, pq0, settled, order, again,
                   i, dist, prev, prevLine, pq, conn);
      }
      i := i + 1;
    }
    RelaxEnds(g, start, u, d, dist0, prev0, prevLine0, pq0, settled, order, again,
              dist, prev, prevLine, pq);
  }

  /** The inner loop's invariant after the first i connections of u. */
  ghost predicate RelaxLoop(g: map<Station, seq<Connection>>, start: Station, u: Station, d: real,
                            dist0: map<Station, Dist>, prev0: map<Station, Station>,
                            prevLine0: map<Station, LineName>, pq0: seq<Node>,
                            settled: set<Station>, order: map<Station, nat>, again: bool, i: int,
                            dist: map<Station, Dist>, prev: map<Station, Station>,
                            prevLine: map<Station, LineName>, pq: seq<Node>)
  {
    && u in g && 0 <= i <= |g[u]|
    && RelaxReady(g, start, dist, prev, prevLine, pq, settled, order, u, d)
    && (if again then Relaxed(g, dist, u) else dist[u].d == d)
    && u in dist0 && dist[u] == dist0[u]
    && (forall j :: 0 <= j < i ==> EdgeRelaxed(dist, g[u][j], d))
    && Lowered(dist0, dist, prev, u)
    && (again ==> dist == dist0 && prev == prev0 && prevLine == prevLine0 && pq == pq0)
  }

  lemma RelaxBegins(g: map<Station, seq<Connection>>, start: Station, u: Station, d: real,
                    dist0: map<Station, Dist>, prev0: map<Station, Station>,
                    prevLine0: map<Station, LineName>, pq0: seq<Node>,
                    settled: set<Station>, order: map<Station, nat>, again: bool)
    requires RelaxReady(g, start, dist0, prev0, prevLine0, pq0, settled, order, u, d)
    requires if again then Relaxed(g, dist0, u) else dist0[u].d == d
    ensures RelaxLoop(g, start, u, d, dist0, prev0, prevLine0, pq0, settled, order, again,
                      0, dist0, prev0, prevLine0, pq0)
  {
    assert SettledAt(g, dist0, settled, {u}, d, u);
    forall v
      ensures LoweredAt(dist0, dist0, prev0, u, v)
    {
    }
  }

  lemma RelaxImproves(g: map<Station, seq<Connection>>, start: Station, u: Station, d: real,
                      dist0: map<Station, Dist>, prev0: map<Station, Station>,
                      prevLine0: map<Station, LineName>, pq0: seq<Node>,
                      settled: set<Station>, order: map<Station, nat>, again: bool, i: int,
                      dist: map<Station, Dist>, prev: map<Station, Station>,
                      prevLine: map<Station, LineName>, pq: seq<Node>, conn: Connection)
    requires Closed(g) && NonNegative(g)
    requires RelaxLoop(g, start, u, d, dist0, prev0, prevLine0, pq0, settled, order, again,
                       i, dist, prev, prevLine, pq)
    requires i < |g[u]| && conn == g[u][i] && conn.target in dist
    requires Improves(d + conn.distance, dist[conn.target])
    ensures RelaxLoop(g, start, u, d, dist0, prev0, prevLine0, pq0, settled, order, again, i + 1,
                      dist[conn.target := Reached(d + conn.distance)], prev[conn.target := u],
                      prevLine[conn.target := conn.line], pq + [Node(conn.target, d + conn.distance)])
  {
    assert conn in g[u];
    if again {
      StaleImprovesNothing(g, dist, u, d, conn);
    }
    RelaxEdgeKeeps(g, start, u, d, dist, prev, prevLine, pq, settled, order, conn);
    ProgressAfterRelax(dist0, dist, prev, g[u], i, conn, u, d);
  }

  lemma RelaxSkips(g: map<Station, seq<Connection>>, start: Station, u: Station, d: real,
                   dist0: map<Station, Dist>, prev0: map<Station, Station>,
                   prevLine0: map<Station, LineName>, pq0: seq<Node>,
                   settled: set<Station>, order: map<Station, nat>, again: bool, i: int,
                   dist: map<Station, Dist>, prev: map<Station, Station>,
                   prevLine: map<Station, LineName>, pq: seq<Node>, conn: Connection)
    requires RelaxLoop(g, start, u, d, dist0, prev0, prevLine0, pq0, settled, order, again,
                       i, dist, prev, prevLine, pq)
    requires i < |g[u]| && conn == g[u][i] && conn.target in dist
    requires !Improves(d + conn.distance, dist[conn.target])
    ensures RelaxLoop(g, start, u, d, dist0, prev0, prevLine0, pq0, settled, order, again,
                      i + 1, dist, prev, prevLine, pq)
  {
    forall j | 0 <= j < i + 1
      ensures EdgeRelaxed(dist, g[u][j], d)
    {
    }
  }

  lemma RelaxEnds(g: map<Station, seq<Connection>>, start: Station, u: Station, d: real,
                  dist0: map<Station, Dist>, prev0: map<Station, Station>,
                  prevLine0: map<Station, LineName>, pq0: seq<Node>,
                  settled: set<Station>, order: map<Station, nat>, again: bool,
                  dist: map<Station, Dist>, prev: map<Station, Station>,
                  prevLine: map<Station, LineName>, pq: seq<Node>)
    requires u in g
    requires RelaxLoop(g, start, u, d, dist0, prev0, prevLine0, pq0, settled, order, again,
                       |g[u]|, dist, prev, prevLine, pq)
    ensures Inv(g, start, dist, prev, prevLine, pq, settled, order, d)
    ensures forall c :: c in g[u] ==> EdgeRelaxed(dist, c, d)
    ensures Lowered(dist0, dist, prev, u)
    ensures again ==> dist == dist0 && prev == prev0 && prevLine == prevLine0 && pq == pq0
  {
    forall c | c in g[u]
      ensures EdgeRelaxed(dist, c, d)
    {
      var j :| 0 <= j < |g[u]| && g[u][j] == c;
    }
    assert SettledAt(g, dist, settled, {u}, d, u);
    assert Relaxed(g, dist, u);
    forall v
      ensures SettledAt(g, dist, settled, {}, d, v)
    {
      assert SettledAt(g, dist, settled, {u}, d, v);
    }
  }

  /** Station v's distance, if it changed, got strictly lower, through u. */
  ghost predicate LoweredAt(dist0: map<Station, Dist>, dist: map<Station, Dist>,
                            prev: map<Station, Station>, u: Station, v: Station)
  {
    v in dist0 && v in dist && dist[v] != dist0[v] ==>
      dist[v].Reached? && Improves(dist[v].d, dist0[v]) && v in prev && prev[v] == u
  }

  /** Every station whose distance changed got a strictly lower one through u. */
  ghost predicate Lowered(dist0: map<Station, Dist>, dist: map<Station, Dist>,
                          prev: map<Station, Station>, u: Station)
  {
    dist.Keys == dist0.Keys && forall v :: LoweredAt(dist0, dist, prev, u, v)
  }

  /** Relaxing conns[i] keeps the earlier connections relaxed and every change a lowering through u. */
  lemma ProgressAfterRelax(dist0: map<Station, Dist>, dist: map<Station, Dist>, prev: map<Station, Station>,
                           conns: seq<Connection>, i: nat, conn: Connection, u: Station, d: real)
    requires i < |conns| && conn == conns[i] && conn.target in dist
    requires Improves(d + conn.distance, dist[conn.target])
    requires forall j :: 0 <= j < i ==> EdgeRelaxed(dist, conns[j], d)
    requires Lowered(dist0, dist, prev, u)
    ensures forall j :: 0 <= j < i + 1 ==> EdgeRelaxed(dist[conn.target := Reached(d + conn.distance)], conns[j], d)
    ensures Lowered(dist0, dist[conn.target := Reached(d + conn.distance)], prev[conn.target := u], u)
  {
    var dist', prev' := dist[conn.target := Reached(d + conn.distance)], prev[conn.target := u];
    forall j | 0 <= j < i + 1
      ensures EdgeRelaxed(dist', conns[j], d)
    {
      if j < i {
        assert EdgeRelaxed(dist, conns[j], d);
      }
    }
    forall v
      ensures LoweredAt(dist0, dist', prev', u, v)
    {
      assert LoweredAt(dist0, dist, prev, u, v);
    }
  }

  /** A relaxed station polled again with a distance no smaller than its own improves nothing. */
  lemma StaleImprovesNothing(g: map<Station, seq<Connection>>, dist: map<Station, Dist>,
                             u: Station, d: real, conn: Connection)
    requires Relaxed(g, dist, u) && dist[u].d <= d && conn in g[u]
    ensures !Improves(d + conn.distance, dist[conn.target])
  {
    assert EdgeRelaxed(dist, conn, dist[u].d);
  }

  /** One successful relaxation u -conn-> t keeps the state ready for the next connection. */
  lemma RelaxEdgeKeeps(g: map<Station, seq<Connection>>, start: Station, u: Station, d: real,
                       dist: map<Station, Dist>, prev: map<Station, Station>,
                       prevLine: map<Station, LineName>, pq: seq<Node>,
                       settled: set<Station>, order: map<Station, nat>, conn: Connection)
    requires Closed(g)
    requires RelaxReady(g, start, dist, prev, prevLine, pq, settled, order, u, d)
    requires dist[u].d == d && conn in g[u] && conn.distance >= 0.0
    requires Improves(d + conn.distance, dist[conn.target])
    ensures RelaxReady(g, start, dist[conn.target := Reached(d + conn.distance)], prev[conn.target := u],
                       prevLine[conn.target := conn.line], pq + [Node(conn.target, d + conn.distance)],
                       settled, order, u, d)
  {
    DistAfterRelax(g, start, dist, conn.target, d + conn.distance);
    QueueAfterRelax(dist, pq, d, conn.target, d + conn.distance);
    SettledAfterRelax(g, dist, settled, u, d, conn.target, d + conn.distance);
    QueuedAfterRelax(dist, pq, settled, conn.target, d + conn.distance);
    PredAfterRelax(g, start, dist, prev, prevLine, settled, order, u, d, conn);
  }

  lemma DistAfterRelax(g: map<Station, seq<Connection>>, start: Station, dist: map<Station, Dist>,
                       t: Station, nd: real)
    requires DistOk(g, start, dist) && t in dist && nd >= 0.0 && Improves(nd, dist[t])
    ensures t != start && DistOk(g, start, dist[t := Reached(nd)])
  {
  }

  lemma QueueAfterRelax(dist: map<Station, Dist>, pq: seq<Node>, d: real, t: Station, nd: real)
    requires QueueOk(dist, pq, d) && t in dist && d <= nd && Improves(nd, dist[t])
    ensures QueueOk(dist[t := Reached(nd)], pq + [Node(t, nd)], d)
  {
    var dist', pq' := dist[t := Reached(nd)], pq + [Node(t, nd)];
    forall n
      ensures EntryOk(dist', pq', d, n)
    {
      assert EntryOk(dist, pq, d, n);
    }
  }

  /** A lower distance at t leaves every relaxed station relaxed. */
  lemma RelaxedAfterRelax(g: map<Station, seq<Connection>>, dist: map<Station, Dist>, v: Station,
                          t: Station, nd: real)
    requires Relaxed(g, dist, v) && v != t && t in dist && Improves(nd, dist[t])
    ensures Relaxed(g, dist[t := Reached(nd)], v)
  {
    forall c | c in g[v]
      ensures EdgeRelaxed(dist[t := Reached(nd)], c, dist[v].d)
    {
      assert EdgeRelaxed(dist, c, dist[v].d);
    }
  }

  lemma SettledAfterRelax(g: map<Station, seq<Connection>>, dist: map<Station, Dist>,
                          settled: set<Station>, u: Station, d: real, t: Station, nd: real)
    requires SettledOk(g, dist, settled, {u}, d) && t in dist && d <= nd && Improves(nd, dist[t])
    ensures t !in settled
    ensures SettledOk(g, dist[t := Reached(nd)], settled, {u}, d)
  {
    assert SettledAt(g, dist, settled, {u}, d, t);
    var dist' := dist[t := Reached(nd)];
    forall v
      ensures SettledAt(g, dist', settled, {u}, d, v)
    {
      assert SettledAt(g, dist, settled, {u}, d, v);
      if v in settled && v != u {
        RelaxedAfterRelax(g, dist, v, t, nd);
      }
    }
  }

  lemma QueuedAfterRelax(dist: map<Station, Dist>, pq: seq<Node>, settled: set<Station>,
                         t: Station, nd: real)
    requires Queued(dist, pq, settled) && t in dist
    ensures Queued(dist[t := Reached(nd)], pq + [Node(t, nd)], settled)
  {
    var dist', pq' := dist[t := Reached(nd)], pq + [Node(t, nd)];
    forall v
      ensures PendingAt(dist', pq', settled, v)
    {
      assert PendingAt(dist, pq, settled, v);
    }
  }

  /** Recording u as the predecessor of a target it improves keeps prevStation and prevLine consistent. */
  lemma PredAfterRelax(g: map<Station, seq<Connection>>, start: Station, dist: map<Station, Dist>,
                       prev: map<Station, Station>, prevLine: map<Station, LineName>,
                       settled: set<Station>, order: map<Station, nat>, u: Station, d: real,
                       conn: Connection)
    requires PredOk(g, start, dist, prev, prevLine, settled, order)
    requires u in settled && u in g && u in dist && dist[u] == Reached(d) && conn in g[u]
    requires conn.target in dist && conn.target !in settled && conn.target != start
    ensures PredOk(g, start, dist[conn.target := Reached(d + conn.distance)], prev[conn.target := u],
                   prevLine[conn.target := conn.line], settled, order)
  {
    var t := conn.target;
    var dist', prev', prevLine' := dist[t := Reached(d + conn.distance)], prev[t := u], prevLine[t := conn.line];
    forall v
      ensures LinkAt(g, dist', prev', prevLine', settled, order, v)
    {
      if v == t {
        assert OrderAt(settled, order, u);
        assert Connection(t, conn.line, dist'[t].d - dist'[u].d) == conn;
      } else {
        assert LinkAt(g, dist, prev, prevLine, settled, order, v);
        if v in prev {
          assert prev[v] != t;
        }
      }
    }
    forall v
      ensures HasPred(start, dist', prev', v)
    {
      assert HasPred(start, dist, prev, v);
    }
  }

  // ---------------------------------------------------------------------------
  // Why the search is right when it stops.

  /**
   * Following a walk from a reached station: either the walk's end is reached
   * within its cost, or some queued entry is pending and the least entry m
   * is within its cost.
   */
  lemma {:induction false} WalkBound(g: map<Station, seq<Connection>>, dist: map<Station, Dist>,
                                     pq: seq<Node>, settled: set<Station>, floor: real, m: real,
                                     path: seq<Station>, hops: seq<Connection>, k: nat, acc: real)
    requires NonNegative(g) && dist.Keys == g.Keys
    requires SettledOk(g, dist, settled, {}, floor) && Queued(dist, pq, settled)
    requires forall n :: n in pq ==> m <= n.distance
    requires IsWalk(g, path, hops) && k <= |hops| && path[|hops|] in g
    requires path[k] in dist && dist[path[k]].Reached? && dist[path[k]].d <= acc
    ensures || (dist[path[|hops|]].Reached? && dist[path[|hops|]].d <= acc + WalkCost(hops[k..]))
            || (pq != [] && m <= acc + WalkCost(hops[k..]))
    decreases |hops| - k
  {
    WalkCostNonNegative(g, path, hops, k);
    if k < |hops| {
      var x := path[k];
      assert SettledAt(g, dist, settled, {}, floor, x);
      if x !in settled {
        assert PendingAt(dist, pq, settled, x);
      } else {
        var c := hops[k];
        assert EdgeRelaxed(dist, c, dist[x].d);
        assert hops[k..][1..] == hops[k + 1..];
        WalkBound(g, dist, pq, settled, floor, m, path, hops, k + 1, acc + c.distance);
      }
    }
  }

  /**
   * What the search promises about the end: it is reached exactly when some
   * walk from start leads to it, and then within the cost of every such walk.
   */
  ghost predicate Optimality(g: map<Station, seq<Connection>>, start: Station, end: Station,
                             dist: map<Station, Dist>)
  {
    && end in dist
    && (Reachable(g, start, end) ==> dist[end].Reached?)
    && (dist[end].Reached? ==>
          forall path, hops :: IsWalk(g, path, hops) && path[0] == start && path[|path| - 1] == end
                               ==> dist[end].d <= WalkCost(hops))
  }

  /**
   * When the queue is empty, or when the end is polled with the least entry
   * m, the distance of the end is optimal.
   */
  lemma Optimal(g: map<Station, seq<Connection>>, start: Station, end: Station,
                dist: map<Station, Dist>, pq: seq<Node>, settled: set<Station>, floor: real, m: real)
    requires NonNegative(g) && DistOk(g, start, dist) && end in g
    requires SettledOk(g, dist, settled, {}, floor) && Queued(dist, pq, settled)
    requires forall n :: n in pq ==> m <= n.distance
    requires pq == [] || (dist[end].Reached? && dist[end].d <= m)
    ensures Optimality(g, start, end, dist)
  {
    forall path, hops | IsWalk(g, path, hops) && path[0] == start && path[|path| - 1] == end
      ensures dist[end].Reached? && dist[end].d <= WalkCost(hops)
    {
      WalkBound(g, dist, pq, settled, floor, m, path, hops, 0, 0.0);
      assert hops[0..] == hops;
    }
  }

  // ---------------------------------------------------------------------------
  // Reading the path off the predecessor map.

  /**
   * The backtracking loop: from end, prepend the predecessor until a station
   * without one. The predecessors form a walk whose cost is the end's
   * distance and whose arrival lines are the recorded ones; an unreached end
   * gives the one-station path.
   */
  method Backtrack(g: map<Station, seq<Connection>>, start: Station, end: Station,
                   dist: map<Station, Dist>, prev: map<Station, Station>,
                   prevLine: map<Station, LineName>,
                   ghost settled: set<Station>, ghost order: map<Station, nat>)
    returns (path: seq<Station>, ghost hops: seq<Connection>)
    requires DistOk(g, start, dist) && end in g
    requires PredOk(g, start, dist, prev, prevLine, settled, order)
    ensures |path| == |hops| + 1 && path[|path| - 1] == end && path[0] !in prev
    ensures IsWalk(g, path, hops) && Chained(path, hops, prev, prevLine)
    ensures dist[end].Reached? ==> path[0] == start && WalkCost(hops) == dist[end].d
    ensures dist[end].Unreached? ==> path == [end]
  {
    var current := end;
    path, hops := [end], [];
    assert OrderAt(settled, order, end);
    while current in prev
      invariant current in dist && |path| == |hops| + 1 && path[0] == current && path[|path| - 1] == end
      invariant current in settled ==> current in order
      invariant IsWalk(g, path, hops) && Chained(path, hops, prev, prevLine)
      invariant dist[end].Reached? ==> dist[current].Reached?
      invariant dist[current].Reached? ==>
                  dist[end].Reached? && WalkCost(hops) == dist[end].d - dist[current].d
      invariant dist[end].Unreached? ==> path == [end]
      decreases if current in settled then order[current] else |settled|
    {
      assert LinkAt(g, dist, prev, prevLine, settled, order, current);
      var p := prev[current];
      assert OrderAt(settled, order, p);
      var c := Connection(current, prevLine[current], dist[current].d - dist[p].d);
      PrependKeeps(g, path, hops, prev, prevLine, p, c);
      path, hops := [p] + path, [c] + hops;
      current := p;
    }
    assert HasPred(start, dist, prev, current);
  }

  /** Consecutive stations of the path are linked through prev, arriving on the lines prevLine records. */
  ghost predicate Chained(path: seq<Station>, hops: seq<Connection>,
                          prev: map<Station, Station>, prevLine: map<Station, LineName>)
  {
    && |path| == |hops| + 1
    && forall j :: 1 <= j < |path| ==>
         path[j] in prev && prev[path[j]] == path[j - 1]
         && path[j] in prevLine && prevLine[path[j]] == hops[j - 1].line
  }

  lemma PrependKeeps(g: map<Station, seq<Connection>>, path: seq<Station>, hops: seq<Connection>,
                     prev: map<Station, Station>, prevLine: map<Station, LineName>,
                     p: Station, c: Connection)
    requires IsWalk(g, path, hops) && Chained(path, hops, prev, prevLine)
    requires p in g && c in g[p] && c.target == path[0]
    requires path[0] in prev && prev[path[0]] == p && path[0] in prevLine && prevLine[path[0]] == c.line
    ensures IsWalk(g, [p] + path, [c] + hops) && Chained([p] + path, [c] + hops, prev, prevLine)
    ensures WalkCost([c] + hops) == c.distance + WalkCost(hops)
  {
    assert ([c] + hops)[1..] == hops;
    var path', hops' := [p] + path, [c] + hops;
    forall i | 0 <= i < |hops'|
      ensures path'[i] in g && hops'[i] in g[path'[i]] && hops'[i].target == path'[i + 1]
    {
      if i > 0 {
        assert path'[i] == path[i - 1] && hops'[i] == hops[i - 1] && path'[i + 1] == path[i];
      }
    }
    forall j | 1 <= j < |path'|
      ensures path'[j] in prev && prev[path'[j]] == path'[j - 1]
      ensures path'[j] in prevLine && prevLine[path'[j]] == hops'[j - 1].line
    {
      if j > 1 {
        assert path'[j] == path[j - 1] && path'[j - 1] == path[j - 2] && hops'[j - 1] == hops[j - 2];
      }
    }
  }
}
