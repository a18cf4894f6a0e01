/**
 * The line-local radius search: from a station's position in a line's
 * station list, walk towards lower and towards higher positions, adding up
 * the distance of each hop, and stop at the first hop that goes beyond the
 * radius.
 */
module Radius {
  import opened Metro

  /** One result triple: a station, the line it was reached on and the distance. */
  datatype Nearby = Nearby(station: Station, line: LineName, distance: real)

  ghost predicate InGraph(stations: seq<Station>, graph: map<Station, seq<Connection>>)
  {
    forall s :: s in stations ==> s in graph
  }

  /**
   * What the leftward walk emits once it stands at position i with acc
   * accumulated: the next hop i -> i - 1, then the rest, until a hop overshoots.
   */
  function LeftRun(graph: map<Station, seq<Connection>>, stations: seq<Station>, line: LineName,
                   i: nat, acc: real, maxDistance: real): (r: seq<Nearby>)
    requires i < |stations| && InGraph(stations, graph)
    ensures |r| <= i
    decreases i
  {
    if i == 0 then []
    else
      var a := acc + GetDistance(graph, stations[i], stations[i - 1], line);
      if a > maxDistance then []
      else [Nearby(stations[i - 1], line, a)] + LeftRun(graph, stations, line, i - 1, a, maxDistance)
  }

  /** The same towards higher positions: the hop i -> i + 1, then the rest. */
  function RightRun(graph: map<Station, seq<Connection>>, stations: seq<Station>, line: LineName,
                    i: nat, acc: real, maxDistance: real): (r: seq<Nearby>)
    requires i < |stations| && InGraph(stations, graph)
    ensures |r| <= |stations| - 1 - i
    decreases |stations| - i
  {
    if i + 1 >= |stations| then []
    else
      var a := acc + GetDistance(graph, stations[i], stations[i + 1], line);
      if a > maxDistance then []
      else [Nearby(stations[i + 1], line, a)] + RightRun(graph, stations, line, i + 1, a, maxDistance)
  }

  /** The lines a station belongs to have stored lists that contain it. */
  ghost predicate Walkable(graph: map<Station, seq<Connection>>, lineStations: map<LineName, seq<Station>>,
                           station: Station, lines: seq<LineName>)
  {
    forall l :: l in lines ==>
      l in lineStations && station in lineStations[l] && InGraph(lineStations[l], graph)
  }

  /** Both walks of one line. */
  function LineNearby(graph: map<Station, seq<Connection>>, lineStations: map<LineName, seq<Station>>,
                      station: Station, line: LineName, maxDistance: real): (r: seq<Nearby>)
    requires Walkable(graph, lineStations, station, [line])
    ensures |r| < |lineStations[line]|
    ensures forall e :: e in r ==> e.line == line && e.distance <= maxDistance
  {
    var stations := lineStations[line];
    var index := FirstIndex(stations, station);
    LeftWithinRadius(graph, stations, line, index, 0.0, maxDistance);
    RightWithinRadius(graph, stations, line, index, 0.0, maxDistance);
    LeftRun(graph, stations, line, index, 0.0, maxDistance)
      + RightRun(graph, stations, line, index, 0.0, maxDistance)
  }

  /** The result for the lines in the order they are visited. */
  function NearbyFor(graph: map<Station, seq<Connection>>, lineStations: map<LineName, seq<Station>>,
                     station: Station, lines: seq<LineName>, maxDistance: real): (r: seq<Nearby>)
    requires Walkable(graph, lineStations, station, lines)
    ensures forall e :: e in r ==> e.distance <= maxDistance && e.line in lines
    decreases |lines|
  {
    if lines == [] then []
    else
      var n := |lines| - 1;
      NearbyFor(graph, lineStations, station, lines[..n], maxDistance)
        + LineNearby(graph, lineStations, station, lines[n], maxDistance)
  }

  /** Visiting one more line appends its two walks. */
  lemma NearbyForSnoc(graph: map<Station, seq<Connection>>, lineStations: map<LineName, seq<Station>>,
                      station: Station, lines: seq<LineName>, line: LineName, maxDistance: real)
    requires Walkable(graph, lineStations, station, lines + [line])
    ensures Walkable(graph, lineStations, station, lines) && Walkable(graph, lineStations, station, [line])
    ensures NearbyFor(graph, lineStations, station, lines + [line], maxDistance)
         == NearbyFor(graph, lineStations, station, lines, maxDistance)
            + LineNearby(graph, lineStations, station, line, maxDistance)
  {
    assert (lines + [line])[..|lines|] == lines;
  }

  // ---------------------------------------------------------------------------
  // The accumulated distances as sums over consecutive positions.

  /** The sum of the k hops i -> i - 1 -> ... -> i - k along the list. */
  function LeftHops(graph: map<Station, seq<Connection>>, stations: seq<Station>, line: LineName,
                    i: nat, k: nat): (r: real)
    requires k <= i < |stations| && InGraph(stations, graph)
    ensures NonNegative(graph) ==> r >= 0.0
    decreases k
  {
    if k == 0 then 0.0
    else GetDistance(graph, stations[i], stations[i - 1], line)
           + LeftHops(graph, stations, line, i - 1, k - 1)
  }

  /** The sum of the k hops i -> i + 1 -> ... -> i + k along the list. */
  function RightHops(graph: map<Station, seq<Connection>>, stations: seq<Station>, line: LineName,
                     i: nat, k: nat): (r: real)
    requires i + k < |stations| && InGraph(stations, graph)
    ensures NonNegative(graph) ==> r >= 0.0
    decreases k
  {
    if k == 0 then 0.0
    else GetDistance(graph, stations[i], stations[i + 1], line)
           + RightHops(graph, stations, line, i + 1, k - 1)
  }

  /** The sum of k + 1 leftward hops is the sum of k hops plus the hop here -> next past them. */
  lemma {:induction false} LeftHopsSnoc(graph: map<Station, seq<Connection>>, stations: seq<Station>,
                                        line: LineName, i: nat, k: nat, here: nat, next: nat)
    requires k + 1 <= i < |stations| && InGraph(stations, graph)
    requires here == i - k && next == here - 1
    ensures LeftHops(graph, stations, line, i, k + 1)
         == LeftHops(graph, stations, line, i, k) + GetDistance(graph, stations[here], stations[next], line)
    decreases k
  {
    if k > 0 {
      LeftHopsSnoc(graph, stations, line, i - 1, k - 1, here, next);
    }
  }

  /** The sum of k + 1 rightward hops is the sum of k hops plus the hop here -> next past them. */
  lemma {:induction false} RightHopsSnoc(graph: map<Station, seq<Connection>>, stations: seq<Station>,
                                         line: LineName, i: nat, k: nat, here: nat, next: nat)
    requires i + k + 1 < |stations| && InGraph(stations, graph)
    requires here == i + k && next == here + 1
    ensures RightHops(graph, stations, line, i, k + 1)
         == RightHops(graph, stations, line, i, k) + GetDistance(graph, stations[here], stations[next], line)
    decreases k
  {
    if k > 0 {
      RightHopsSnoc(graph, stations, line, i + 1, k - 1, here, next);
    }
  }

  /** Entry j of a leftward walk from i: station i - 1 - j at the running sum j + 1 hops, within the radius. */
  ghost predicate LeftAt(graph: map<Station, seq<Connection>>, stations: seq<Station>, line: LineName,
                         i: nat, acc: real, maxDistance: real, r: seq<Nearby>, j: int)
    requires i < |stations| && InGraph(stations, graph)
  {
    0 <= j < |r| && j < i ==>
      && r[j] == Nearby(stations[i - 1 - j], line, acc + LeftHops(graph, stations, line, i, j + 1))
      && acc + LeftHops(graph, stations, line, i, j + 1) <= maxDistance
  }

  /** Entry j of a rightward walk from i: station i + 1 + j at the running sum j + 1 hops, within the radius. */
  ghost predicate RightAt(graph: map<Station, seq<Connection>>, stations: seq<Station>, line: LineName,
                          i: nat, acc: real, maxDistance: real, r: seq<Nearby>, j: int)
    requires i < |stations| && InGraph(stations, graph)
  {
    0 <= j < |r| && i + 1 + j < |stations| ==>
      && r[j] == Nearby(stations[i + 1 + j], line, acc + RightHops(graph, stations, line, i, j + 1))
      && acc + RightHops(graph, stations, line, i, j + 1) <= maxDistance
  }

  /** One leftward hop within the radius: the walk is that hop's entry followed by the walk from i - 1. */
  lemma LeftRunCons(graph: map<Station, seq<Connection>>, stations: seq<Station>, line: LineName,
                    i: nat, acc: real, maxDistance: real, a: real)
    requires 0 < i < |stations| && InGraph(stations, graph)
    requires a == acc + GetDistance(graph, stations[i], stations[i - 1], line)
    ensures a > maxDistance ==> LeftRun(graph, stations, line, i, acc, maxDistance) == []
    ensures a <= maxDistance ==>
              LeftRun(graph, stations, line, i, acc, maxDistance)
              == [Nearby(stations[i - 1], line, a)] + LeftRun(graph, stations, line, i - 1, a, maxDistance)
  {
  }

  /** One rightward hop within the radius: the walk is that hop's entry followed by the walk from i + 1. */
  lemma RightRunCons(graph: map<Station, seq<Connection>>, stations: seq<Station>, line: LineName,
                     i: nat, acc: real, maxDistance: real, a: real)
    requires i + 1 < |stations| && InGraph(stations, graph)
    requires a == acc + GetDistance(graph, stations[i], stations[i + 1], line)
    ensures a > maxDistance ==> RightRun(graph, stations, line, i, acc, maxDistance) == []
    ensures a <= maxDistance ==>
              RightRun(graph, stations, line, i, acc, maxDistance)
              == [Nearby(stations[i + 1], line, a)] + RightRun(graph, stations, line, i + 1, a, maxDistance)
  {
  }

  /**
   * The leftward walk from position i emits the contiguous run i - 1, i - 2,
   * ... with the running sums (on top of acc) as distances, all within the
   * radius, and stops exactly at the first hop whose sum exceeds it, or at
   * position 0.
   */
  lemma {:induction false} LeftRunShape(graph: map<Station, seq<Connection>>, stations: seq<Station>,
                                        line: LineName, i: nat, acc: real, maxDistance: real)
    requires i < |stations| && InGraph(stations, graph)
    ensures var r := LeftRun(graph, stations, line, i, acc, maxDistance);
      && (forall j :: LeftAt(graph, stations, line, i, acc, maxDistance, r, j))
      && (|r| < i ==> acc + LeftHops(graph, stations, line, i, |r| + 1) > maxDistance)
    decreases i
  {
    var r := LeftRun(graph, stations, line, i, acc, maxDistance);
    if i > 0 {
      var a := acc + GetDistance(graph, stations[i], stations[i - 1], line);
      LeftRunCons(graph, stations, line, i, acc, maxDistance, a);
      if a <= maxDistance {
        var rest := LeftRun(graph, stations, line, i - 1, a, maxDistance);
        LeftRunShape(graph, stations, line, i - 1, a, maxDistance);
        forall j
          ensures LeftAt(graph, stations, line, i, acc, maxDistance, r, j)
        {
          if 0 < j < |r| {
            assert r[j] == rest[j - 1];
            assert LeftAt(graph, stations, line, i - 1, a, maxDistance, rest, j - 1);
            assert acc + LeftHops(graph, stations, line, i, j + 1) == a + LeftHops(graph, stations, line, i - 1, j);
          }
        }
      }
    }
  }

  /** The rightward counterpart of LeftRunShape. */
  lemma {:induction false} RightRunShape(graph: map<Station, seq<Connection>>, stations: seq<Station>,
                                         line: LineName, i: nat, acc: real, maxDistance: real)
    requires i < |stations| && InGraph(stations, graph)
    ensures var r := RightRun(graph, stations, line, i, acc, maxDistance);
      && (forall j :: RightAt(graph, stations, line, i, acc, maxDistance, r, j))
      && (|r| < |stations| - 1 - i ==> acc + RightHops(graph, stations, line, i, |r| + 1) > maxDistance)
    decreases |stations| - i
  {
    var r := RightRun(graph, stations, line, i, acc, maxDistance);
    if i + 1 < |stations| {
      var a := acc + GetDistance(graph, stations[i], stations[i + 1], line);
      RightRunCons(graph, stations, line, i, acc, maxDistance, a);
      if a <= maxDistance {
        var rest := RightRun(graph, stations, line, i + 1, a, maxDistance);
        RightRunShape(graph, stations, line, i + 1, a, maxDistance);
        forall j
          ensures RightAt(graph, stations, line, i, acc, maxDistance, r, j)
        {
          if 0 < j < |r| {
            assert r[j] == rest[j - 1];
            assert RightAt(graph, stations, line, i + 1, a, maxDistance, rest, j - 1);
            assert acc + RightHops(graph, stations, line, i, j + 1) == a + RightHops(graph, stations, line, i + 1, j);
          }
        }
      }
    }
  }

  /**
   * After k emitted entries the leftward walk either ends, when the next sum
   * exceeds the radius, or emits the next station with that sum.
   */
  lemma LeftRunNext(graph: map<Station, seq<Connection>>, stations: seq<Station>, line: LineName,
                    i: nat, acc: real, maxDistance: real, k: nat)
    requires i < |stations| && InGraph(stations, graph)
    requires k < i && k <= |LeftRun(graph, stations, line, i, acc, maxDistance)|
    ensures acc + LeftHops(graph, stations, line, i, k + 1) > maxDistance ==>
              |LeftRun(graph, stations, line, i, acc, maxDistance)| == k
    ensures acc + LeftHops(graph, stations, line, i, k + 1) <= maxDistance ==>
              k < |LeftRun(graph, stations, line, i, acc, maxDistance)|
              && LeftRun(graph, stations, line, i, acc, maxDistance)[k]
                 == Nearby(stations[i - 1 - k], line, acc + LeftHops(graph, stations, line, i, k + 1))
  {
    var r := LeftRun(graph, stations, line, i, acc, maxDistance);
    LeftRunShape(graph, stations, line, i, acc, maxDistance);
    assert LeftAt(graph, stations, line, i, acc, maxDistance, r, k);
  }

  /** The rightward counterpart of LeftRunNext. */
  lemma RightRunNext(graph: map<Station, seq<Connection>>, stations: seq<Station>, line: LineName,
                     i: nat, acc: real, maxDistance: real, k: nat)
    requires i < |stations| && InGraph(stations, graph)
    requires i + k + 1 < |stations| && k <= |RightRun(graph, stations, line, i, acc, maxDistance)|
    ensures acc + RightHops(graph, stations, line, i, k + 1) > maxDistance ==>
              |RightRun(graph, stations, line, i, acc, maxDistance)| == k
    ensures acc + RightHops(graph, stations, line, i, k + 1) <= maxDistance ==>
              k < |RightRun(graph, stations, line, i, acc, maxDistance)|
              && RightRun(graph, stations, line, i, acc, maxDistance)[k]
                 == Nearby(stations[i + 1 + k], line, acc + RightHops(graph, stations, line, i, k + 1))
  {
    var r := RightRun(graph, stations, line, i, acc, maxDistance);
    RightRunShape(graph, stations, line, i, acc, maxDistance);
    assert RightAt(graph, stations, line, i, acc, maxDistance, r, k);
  }

  /** Every entry of the leftward walk lies within the radius and is on the walked line. */
  lemma LeftWithinRadius(graph: map<Station, seq<Connection>>, stations: seq<Station>,
                         line: LineName, i: nat, acc: real, maxDistance: real)
    requires i < |stations| && InGraph(stations, graph)
    ensures forall e :: e in LeftRun(graph, stations, line, i, acc, maxDistance) ==>
              e.distance <= maxDistance && e.line == line
  {
    var r := LeftRun(graph, stations, line, i, acc, maxDistance);
    LeftRunShape(graph, stations, line, i, acc, maxDistance);
    forall e | e in r
      ensures e.distance <= maxDistance && e.line == line
    {
      var j :| 0 <= j < |r| && r[j] == e;
      assert LeftAt(graph, stations, line, i, acc, maxDistance, r, j);
    }
  }

  /** Every entry of the rightward walk lies within the radius and is on the walked line. */
  lemma RightWithinRadius(graph: map<Station, seq<Connection>>, stations: seq<Station>,
                          line: LineName, i: nat, acc: real, maxDistance: real)
    requires i < |stations| && InGraph(stations, graph)
    ensures forall e :: e in RightRun(graph, stations, line, i, acc, maxDistance) ==>
              e.distance <= maxDistance && e.line == line
  {
    var r := RightRun(graph, stations, line, i, acc, maxDistance);
    RightRunShape(graph, stations, line, i, acc, maxDistance);
    forall e | e in r
      ensures e.distance <= maxDistance && e.line == line
    {
      var j :| 0 <= j < |r| && r[j] == e;
      assert RightAt(graph, stations, line, i, acc, maxDistance, r, j);
    }
  }
}
