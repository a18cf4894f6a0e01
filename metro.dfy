/**
 * The data model of the metro network: stations and lines are named by
 * strings, the adjacency list holds one directed connection per physical
 * neighbour per line, and the three maps of SubwaySystem are plain Dafny maps.
 */
module Metro {

  type Station = string
  type LineName = string

  datatype Option<T> = None | Some(value: T)

  /** One outgoing edge of the adjacency list: a neighbour reached on a line. */
  datatype Connection = Connection(target: Station, line: LineName, distance: real)

  /** The abstract ingestion feed: a line header, or a station pair with its distance. */
  datatype Record = LineBegin(name: LineName) | Row(s1: Station, s2: Station, distance: real)

  predicate NoDup<T(==)>(s: seq<T>)
  {
    forall i, j :: 0 <= i < j < |s| ==> s[i] != s[j]
  }

  /** The position of the first occurrence of x (List.indexOf for an x that is present). */
  function FirstIndex(s: seq<Station>, x: Station): (i: nat)
    requires x in s
    ensures i < |s| && s[i] == x && forall j :: 0 <= j < i ==> s[j] != x
  {
    if s[0] == x then 0 else 1 + FirstIndex(s[1..], x)
  }

  /** The lines on which a list of connections runs. */
  function LinesAt(conns: seq<Connection>): set<LineName>
  {
    set c | c in conns :: c.line
  }

  /** Every directed edge a -> b on line L with distance d has its reverse b -> a. */
  ghost predicate Symmetric(graph: map<Station, seq<Connection>>)
  {
    forall a, c :: a in graph && c in graph[a] ==>
      c.target in graph && Connection(a, c.line, c.distance) in graph[c.target]
  }

  /** Every edge leads to a station the adjacency list knows. */
  ghost predicate Closed(graph: map<Station, seq<Connection>>)
  {
    forall a, c :: a in graph && c in graph[a] ==> c.target in graph
  }

  ghost predicate NonNegative(graph: map<Station, seq<Connection>>)
  {
    forall a, c :: a in graph && c in graph[a] ==> c.distance >= 0.0
  }

  /** The invariant kept by the graph builder between rows. */
  ghost predicate WellFormed(stationLines: map<Station, set<LineName>>,
                             graph: map<Station, seq<Connection>>,
                             lineStations: map<LineName, seq<Station>>)
  {
    && stationLines.Keys == graph.Keys
    && (forall s :: s in graph ==> stationLines[s] == LinesAt(graph[s]))
    && Symmetric(graph)
    && (forall l :: l in lineStations ==> NoDup(lineStations[l]))
    && (forall l, s :: l in lineStations && s in lineStations[l] ==> s in graph)
  }

  lemma SymmetricIsClosed(graph: map<Station, seq<Connection>>)
    requires Symmetric(graph)
    ensures Closed(graph)
  {
  }

  /** Every line of the station lists the station (what a line-local walk needs). */
  ghost predicate LinesIndexed(stationLines: map<Station, set<LineName>>,
                               lineStations: map<LineName, seq<Station>>, station: Station)
    requires station in stationLines
  {
    forall l :: l in stationLines[station] ==> l in lineStations && station in lineStations[l]
  }

  predicate Matches(c: Connection, target: Station, line: LineName)
  {
    c.target == target && c.line == line
  }

  /** The index of the first connection to target on line, if there is one. */
  function FirstMatch(conns: seq<Connection>, target: Station, line: LineName): (r: Option<nat>)
    ensures r.Some? ==> r.value < |conns| && Matches(conns[r.value], target, line)
    ensures r.Some? ==> forall j :: 0 <= j < r.value ==> !Matches(conns[j], target, line)
    ensures r.None? ==> forall j :: 0 <= j < |conns| ==> !Matches(conns[j], target, line)
  {
    if conns == [] then None
    else if Matches(conns[0], target, line) then Some(0)
    else
      match FirstMatch(conns[1..], target, line)
      case None => None
      case Some(k) => Some(k + 1)
  }

  /**
   * The distance of the first connection from s1 to s2 on line, or 0 when
   * the adjacency list of s1 has none.
   */
  function GetDistance(graph: map<Station, seq<Connection>>, s1: Station, s2: Station,
                       line: LineName): (r: real)
    requires s1 in graph
    ensures NonNegative(graph) ==> r >= 0.0
    ensures r != 0.0 ==> FirstMatch(graph[s1], s2, line).Some?
  {
    match FirstMatch(graph[s1], s2, line)
    case None => 0.0
    case Some(i) => graph[s1][i].distance
  }

  /** getDistance yields the distance of the first matching connection, and 0 when there is none. */
  lemma GetDistanceIsFirstMatch(graph: map<Station, seq<Connection>>, s1: Station, s2: Station,
                                line: LineName)
    requires s1 in graph
    ensures (forall j :: 0 <= j < |graph[s1]| ==> !Matches(graph[s1][j], s2, line)) ==>
              GetDistance(graph, s1, s2, line) == 0.0
    ensures forall i :: 0 <= i < |graph[s1]| && Matches(graph[s1][i], s2, line)
                        && (forall j :: 0 <= j < i ==> !Matches(graph[s1][j], s2, line))
                        ==> GetDistance(graph, s1, s2, line) == graph[s1][i].distance
  {
  }

  /** The interchanges: every station on two or more lines, with its line set. */
  function TransferStations(stationLines: map<Station, set<LineName>>): (r: map<Station, set<LineName>>)
    ensures forall s :: s in r <==> s in stationLines && |stationLines[s]| >= 2
    ensures forall s :: s in r ==> r[s] == stationLines[s]
  {
    map s | s in stationLines && |stationLines[s]| >= 2 :: stationLines[s]
  }

  lemma TwoElements<T>(s: set<T>)
    ensures |s| >= 2 <==> exists x, y :: x in s && y in s && x != y
  {
    if |s| >= 2 {
      var x :| x in s;
      assert |s - {x}| == |s| - 1;
      var y :| y in s - {x};
    }
    if exists x, y :: x in s && y in s && x != y {
      var x, y :| x in s && y in s && x != y;
      var rest := s - {x, y};
      assert s == {x, y} + rest;
      assert |{x, y} + rest| == |{x, y}| + |rest|;
    }
  }

  /**
   * In a well-formed network a station is an interchange exactly when its own
   * adjacency list holds connections on two different lines.
   */
  lemma TransferIffTwoLines(stationLines: map<Station, set<LineName>>,
                            graph: map<Station, seq<Connection>>,
                            lineStations: map<LineName, seq<Station>>, s: Station)
    requires WellFormed(stationLines, graph, lineStations)
    ensures s in TransferStations(stationLines) <==>
              s in graph && exists i, j :: 0 <= i < |graph[s]| && 0 <= j < |graph[s]|
                                             && graph[s][i].line != graph[s][j].line
  {
    if s in graph {
      var ls := LinesAt(graph[s]);
      TwoElements(ls);
      if |ls| >= 2 {
        var x, y :| x in ls && y in ls && x != y;
        var cx :| cx in graph[s] && cx.line == x;
        var cy :| cy in graph[s] && cy.line == y;
        var i :| 0 <= i < |graph[s]| && graph[s][i] == cx;
        var j :| 0 <= j < |graph[s]| && graph[s][j] == cy;
        assert graph[s][i].line != graph[s][j].line;
      }
      if exists i, j :: 0 <= i < |graph[s]| && 0 <= j < |graph[s]| && graph[s][i].line != graph[s][j].line {
        var i, j :| 0 <= i < |graph[s]| && 0 <= j < |graph[s]| && graph[s][i].line != graph[s][j].line;
        assert graph[s][i].line in ls && graph[s][j].line in ls;
      }
    }
  }
}
