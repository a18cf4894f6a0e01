/**
 * The SubwaySystem object: the three maps it keeps, the ingestion that
 * fills them from a feed of records, the radius search and the shortest
 * path search over them.
 */
module Subway {
  import opened Metro
  import Builder
  import Radius
  import opened Routing

  class SubwaySystem {
    /** Station name to the set of lines it lies on. */
    var stationLines: map<Station, set<LineName>>
    /** Station name to its outgoing connections, in insertion order. */
    var graph: map<Station, seq<Connection>>
    /** Line name to its stations, in first-seen order. */
    var lineStations: map<LineName, seq<Station>>

    /** The three maps start out empty. */
    constructor ()
      ensures stationLines == map[] && graph == map[] && lineStations == map[]
    {
      stationLines, graph, lineStations := map[], map[], map[];
    }

    /** The builder's invariant holds of the three maps. */
    ghost predicate Valid()
      reads this
    {
      WellFormed(stationLines, graph, lineStations)
    }

    /** The three maps as a builder state with no line in progress. */
    ghost function Snapshot(): Builder.State
      reads this
    {
      Builder.State(stationLines, graph, lineStations, None, [])
    }

    /** addStationToLine: line joins the station's line set, which is created if absent. */
    method AddStationToLine(station: Station, line: LineName)
      modifies this
      ensures stationLines == Builder.WithLine(old(stationLines), station, line)
      ensures graph == old(graph) && lineStations == old(lineStations)
    {
      if station !in stationLines {
        stationLines := stationLines[station := {}];
      }
      stationLines := stationLines[station := stationLines[station] + {line}];
    }

    /** addConnection: the connection to `to` is appended to from's list, which is created if absent. */
    method AddConnection(from: Station, to: Station, line: LineName, distance: real)
      modifies this
      ensures graph == Builder.WithConnection(old(graph), from, to, line, distance)
      ensures stationLines == old(stationLines) && lineStations == old(lineStations)
    {
      if from !in graph {
        graph := graph[from := []];
      }
      graph := graph[from := graph[from] + [Connection(to, line, distance)]];
    }

    /**
     * The record loop of parseData: a header stores the list of the line in
     * progress and starts a new one; a row registers both stations on the
     * current line, adds the connection both ways and appends the stations
     * not yet listed; at the end the last list is stored. The maps end up
     * as the fold of the records, and stay well formed.
     */
    method ParseData(records: seq<Record>)
      modifies this
      requires Builder.Scoped(Snapshot(), records)
      ensures var p := Builder.Parse(old(Snapshot()), records);
        stationLines == p.stationLines && graph == p.graph && lineStations == p.lineStations
      ensures old(Valid()) ==> Valid()
      ensures old(NonNegative(graph)) && Builder.RowsNonNegative(records) ==> NonNegative(graph)
    {
      ghost var b0 := Snapshot();
      var currentLine: Option<LineName> := None;
      var currentStations: seq<Station> := [];
      var i := 0;
      while i < |records|
        invariant 0 <= i <= |records|
        invariant Builder.Scoped(b0, records[..i])
        invariant Builder.State(stationLines, graph, lineStations, currentLine, currentStations)
                  == Builder.Ingest(b0, records[..i])
      {
        Builder.IngestPrefix(b0, records, i);
        var r := records[i];
        match r {
          case LineBegin(name) =>
            if currentLine.Some? {
              lineStations := lineStations[currentLine.value := currentStations];
            }
            currentLine := Some(name);
            currentStations := [];
          case Row(s1, s2, distance) =>
            var line := currentLine.value;
            AddStationToLine(s1, line);
            AddStationToLine(s2, line);
            AddConnection(s1, s2, line, distance);
            AddConnection(s2, s1, line, distance);
            if s1 !in currentStations {
              currentStations := currentStations + [s1];
            }
            if s2 !in currentStations {
              currentStations := currentStations + [s2];
            }
        }
        i := i + 1;
      }
      assert records[..i] == records;
      if currentLine.Some? {
        lineStations := lineStations[currentLine.value := currentStations];
      }
      if WellFormed(b0.stationLines, b0.graph, b0.lineStations) {
        Builder.IngestKeepsValid(b0, records);
      }
      if NonNegative(b0.graph) && Builder.RowsNonNegative(records) {
        Builder.IngestKeepsNonNegative(b0, records);
      }
    }

    /** Every line of the station has a stored list that holds it, made of known stations. */
    ghost predicate Searchable(station: Station)
      reads this
    {
      station in stationLines ==>
        forall l :: l in stationLines[station] ==>
          l in lineStations && station in lineStations[l] && Radius.InGraph(lineStations[l], graph)
    }

    /**
     * getNearbyStations: for an unknown station nothing; otherwise, for each
     * of its lines in the order visited, the leftward and then the rightward
     * walk along the line's list. Every triple is within the radius and on one
     * of the station's lines.
     */
    method GetNearbyStations(station: Station, maxDistance: real)
      returns (result: seq<Radius.Nearby>, ghost lines: seq<LineName>)
      requires Searchable(station)
      ensures station !in stationLines ==> result == [] && lines == []
      ensures forall e :: e in result ==>
                e.distance <= maxDistance && station in stationLines && e.line in stationLines[station]
      ensures station in stationLines ==>
                && NoDup(lines) && (forall l :: l in lines <==> l in stationLines[station])
                && Radius.Walkable(graph, lineStations, station, lines)
                && result == Radius.NearbyFor(graph, lineStations, station, lines, maxDistance)
      ensures forall e :: e in result ==> e.distance <= maxDistance && e.line in lines
    {
      result, lines := [], [];
      if station !in stationLines {
        return;
      }
      var remaining := stationLines[station];
      while remaining != {}
        invariant remaining <= stationLines[station]
        invariant NoDup(lines)
        invariant forall l :: l in lines <==> l in stationLines[station] && l !in remaining
        invariant Radius.Walkable(graph, lineStations, station, lines)
        invariant result == Radius.NearbyFor(graph, lineStations, station, lines, maxDistance)
        decreases |remaining|
      {
        var line :| line in remaining;
        var stations := lineStations[line];
        var index := FirstIndex(stations, station);
        var left := WalkLeft(stations, line, index, maxDistance);
        var right := WalkRight(stations, line, index, maxDistance);
        Radius.NearbyForSnoc(graph, lineStations, station, lines, line, maxDistance);
        result := result + (left + right);
        lines := lines + [line];
        remaining := remaining - {line};
      }
    }

    /** The leftward loop: positions index - 1 down to 0, stopping at the first overshoot. */
    method WalkLeft(stations: seq<Station>, line: LineName, index: nat, maxDistance: real)
      returns (found: seq<Radius.Nearby>)
      requires index < |stations| && Radius.InGraph(stations, graph)
      ensures found == Radius.LeftRun(graph, stations, line, index, 0.0, maxDistance)
    {
      ghost var run := Radius.LeftRun(graph, stations, line, index, 0.0, maxDistance);
      Radius.LeftRunShape(graph, stations, line, index, 0.0, maxDistance);
      found := [];
      var accumulated := 0.0;
      var i := index - 1;
      while i >= 0
        invariant -1 <= i < index && |found| == index - 1 - i
        invariant |found| <= |run| && found == run[..|found|]
        invariant accumulated == Radius.LeftHops(graph, stations, line, index, |found|)
      {
        Radius.LeftHopsSnoc(graph, stations, line, index, |found|, i + 1, i);
        Radius.LeftRunNext(graph, stations, line, index, 0.0, maxDistance, |found|);
        accumulated := accumulated + GetDistance(graph, stations[i + 1], stations[i], line);
        if accumulated > maxDistance {
          break;
        }
        found := found + [Radius.Nearby(stations[i], line, accumulated)];
        i := i - 1;
      }
    }

    /** The rightward loop: positions index + 1 up to the end, stopping at the first overshoot. */
    method WalkRight(stations: seq<Station>, line: LineName, index: nat, maxDistance: real)
      returns (found: seq<Radius.Nearby>)
      requires index < |stations| && Radius.InGraph(stations, graph)
      ensures found == Radius.RightRun(graph, stations, line, index, 0.0, maxDistance)
    {
      ghost var run := Radius.RightRun(graph, stations, line, index, 0.0, maxDistance);
      Radius.RightRunShape(graph, stations, line, index, 0.0, maxDistance);
      found := [];
      var accumulated := 0.0;
      var i := index + 1;
      while i < |stations|
        invariant index < i <= |stations| && |found| == i - 1 - index
        invariant |found| <= |run| && found == run[..|found|]
        invariant accumulated == Radius.RightHops(graph, stations, line, index, |found|)
      {
        Radius.RightHopsSnoc(graph, stations, line, index, |found|, i - 1, i);
        Radius.RightRunNext(graph, stations, line, index, 0.0, maxDistance, |found|);
        accumulated := accumulated + GetDistance(graph, stations[i - 1], stations[i], line);
        if accumulated > maxDistance {
          break;
        }
        found := found + [Radius.Nearby(stations[i], line, accumulated)];
        i := i + 1;
      }
    }

    /**
     * shortestPath: Dijkstra's search from start, stopping when end is polled
     * or the queue runs dry, then the backtracking. The end is reached
     * exactly when some walk leads there; the path is then a walk from start
     * whose cost is the total and no walk is shorter, and each hop arrives on
     * the line lineInfo records; an unreached end gives the path [end].
     */
    method ShortestPath(start: Station, end: Station) returns (result: PathResult, ghost hops: seq<Connection>)
      requires Closed(graph) && NonNegative(graph)
      requires (start in graph && end in graph) || start == end
      ensures |result.path| == |hops| + 1 && result.path[|result.path| - 1] == end
      ensures IsWalk(graph, result.path, hops)
      ensures forall j :: 0 <= j < |hops| ==>
                result.path[j + 1] in result.lineInfo && result.lineInfo[result.path[j + 1]] == hops[j].line
      ensures result.total.Reached? <==> Reachable(graph, start, end)
      ensures result.total.Reached? ==> result.path[0] == start && WalkCost(hops) == result.total.d
      ensures result.total.Reached? ==>
                forall path, hs :: IsWalk(graph, path, hs) && path[0] == start && path[|path| - 1] == end
                                   ==> result.total.d <= WalkCost(hs)
      ensures result.total.Unreached? ==> result.path == [end]
    {
      if start !in graph {
        // start is end: it is polled first and the loop stops at once, with
        // no predecessor recorded and the distance 0 put for start.
        result := PathResult([end], map[], Reached(0.0));
        hops := [];
        assert IsWalk(graph, [start], []);
        forall path, hs | IsWalk(graph, path, hs) && path[0] == start && path[|path| - 1] == end
          ensures 0.0 <= WalkCost(hs)
        {
          WalkCostNonNegative(graph, path, hs, 0);
          assert hs[0..] == hs;
        }
        return;
      }
      var dist, prev, prevLine, settled, order := Search(start, end);
      var path;
      path, hops := Backtrack(graph, start, end, dist, prev, prevLine, settled, order);
      result := PathResult(path, prevLine, dist[end]);
    }

    /** The initial distances: every station of the network unreached, start at 0. */
    method InitialDistances(start: Station) returns (dist: map<Station, Dist>)
      requires start in graph
      ensures dist.Keys == graph.Keys && dist[start] == Reached(0.0)
      ensures forall v :: v in dist && v != start ==> dist[v] == Unreached
    {
      dist := map[];
      var keys := graph.Keys;
      while keys != {}
        invariant keys <= graph.Keys && dist.Keys == graph.Keys - keys
        invariant forall v :: v in dist ==> dist[v] == Unreached
        decreases |keys|
      {
        var s :| s in keys;
        dist := dist[s := Unreached];
        keys := keys - {s};
      }
      dist := dist[start := Reached(0.0)];
    }

    /**
     * The polling loop: take a least entry; stop if it is the end; otherwise
     * relax its connections. The distance of the end is then optimal, and
     * the predecessor maps are consistent with the final distances.
     */
    method Search(start: Station, end: Station)
      returns (dist: map<Station, Dist>, prev: map<Station, Station>, prevLine: map<Station, LineName>,
               ghost settled: set<Station>, ghost order: map<Station, nat>)
      requires start in graph && end in graph && Closed(graph) && NonNegative(graph)
      ensures DistOk(graph, start, dist) && PredOk(graph, start, dist, prev, prevLine, settled, order)
      ensures Optimality(graph, start, end, dist)
    {
      dist := InitialDistances(start);
      prev, prevLine := map[], map[];
      var pq := [Node(start, 0.0)];
      settled, order := {}, map[];
      ghost var floor := 0.0;
      InitialInv(graph, start, dist);
      while pq != []
        invariant Inv(graph, start, dist, prev, prevLine, pq, settled, order, floor)
        invariant pq == [] ==> Optimality(graph, start, end, dist)
        decreases graph.Keys - settled, |pq|
      {
        var k := FindMin(pq);
        var current := pq[k];
        PollKeeps(graph, start, dist, prev, prevLine, pq, settled, order, floor, k);
        if current.station == end {
          Optimal(graph, start, end, dist, pq, settled, floor, current.distance);
          pq := RemoveAt(pq, k);
          break;
        }
        ghost var again := current.station in settled;
        order := if current.station in settled then order else order[current.station := |settled|];
        settled := settled + {current.station};
        pq := RemoveAt(pq, k);
        dist, prev, prevLine, pq := Relax(graph, start, current.station, current.distance,
                                          dist, prev, prevLine, pq, settled, order, again);
        floor := current.distance;
        if pq == [] {
          Optimal(graph, start, end, dist, pq, settled, floor, floor);
        }
      }
    }
  }
}
