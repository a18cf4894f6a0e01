/**
 * The graph builder: the effect of parseData's loop over the record feed,
 * written as a fold of one step per record over the three maps and the
 * accumulator of the line being read.
 */
module Builder {
  import opened Metro

  /** The builder's whole state: the three maps plus the current line and its stations. */
  datatype State = State(stationLines: map<Station, set<LineName>>,
                         graph: map<Station, seq<Connection>>,
                         lineStations: map<LineName, seq<Station>>,
                         current: Option<LineName>,
                         currentStations: seq<Station>)

  /** stationLines after registering station on line (addStationToLine). */
  function WithLine(stationLines: map<Station, set<LineName>>, station: Station, line: LineName)
    : (r: map<Station, set<LineName>>)
    ensures station in r && line in r[station]
    ensures station in stationLines ==> stationLines[station] <= r[station]
  {
    stationLines[station := (if station in stationLines then stationLines[station] else {}) + {line}]
  }

  /** graph after appending the edge from -> to (addConnection). */
  function WithConnection(graph: map<Station, seq<Connection>>, from: Station, to: Station,
                          line: LineName, distance: real): (r: map<Station, seq<Connection>>)
    ensures from in r && |r[from]| > 0 && r[from][|r[from]| - 1] == Connection(to, line, distance)
    ensures from in graph ==> graph[from] <= r[from]
  {
    graph[from := (if from in graph then graph[from] else []) + [Connection(to, line, distance)]]
  }

  /** The station list with s appended unless it is already there. */
  function AppendNew(stations: seq<Station>, s: Station): (r: seq<Station>)
    ensures stations <= r && |r| <= |stations| + 1
  {
    if s in stations then stations else stations + [s]
  }

  /** lineStations with the current line's list stored under its name, if there is a current line. */
  function Stored(b: State): (r: map<LineName, seq<Station>>)
    ensures b.current.Some? ==> b.current.value in r && r[b.current.value] == b.currentStations
    ensures b.current.None? ==> r == b.lineStations
    ensures forall l :: l in b.lineStations && b.current != Some(l) ==> l in r && r[l] == b.lineStations[l]
  {
    if b.current.Some? then b.lineStations[b.current.value := b.currentStations] else b.lineStations
  }

  /** The text before the first '号' (the first piece of split("号")). */
  function BeforeMark(title: string): (r: string)
    ensures r <= title && '号' !in r
    ensures r == title || title[|r|] == '号'
  {
    if title == [] || title[0] == '号' then []
    else [title[0]] + BeforeMark(title[1..])
  }

  /** The line name of a header line: the text before its first '号', then "号线". */
  function HeaderName(title: string): (r: LineName)
    ensures |r| >= 2 && r[|r| - 2..] == "号线"
    ensures r[..|r| - 2] <= title && '号' !in r[..|r| - 2]
    ensures r[..|r| - 2] == title || title[|r| - 2] == '号'
  {
    BeforeMark(title) + "号线"
  }

  /** A header "<n>号线站点间距" names the line "<n>号线". */
  lemma {:induction false} HeaderNameOfTitle(prefix: string)
    requires '号' !in prefix
    ensures HeaderName(prefix + "号线站点间距") == prefix + "号线"
  {
    if prefix != [] {
      assert (prefix + "号线站点间距")[1..] == prefix[1..] + "号线站点间距";
      HeaderNameOfTitle(prefix[1..]);
      assert [prefix[0]] + prefix[1..] == prefix;
    }
  }

  /** One record of the feed. */
  function Step(b: State, r: Record): (b': State)
    requires r.Row? ==> b.current.Some?
    ensures r.LineBegin? ==>
              && b'.current == Some(r.name) && b'.currentStations == []
              && b'.graph == b.graph && b'.stationLines == b.stationLines
    ensures r.Row? ==>
              && b'.current == b.current && b'.lineStations == b.lineStations
              && b'.graph.Keys == b.graph.Keys + {r.s1, r.s2}
              && b.currentStations <= b'.currentStations
  {
    match r
    case LineBegin(name) =>
      State(b.stationLines, b.graph, Stored(b), Some(name), [])
    case Row(s1, s2, d) =>
      var line := b.current.value;
      State(WithLine(WithLine(b.stationLines, s1, line), s2, line),
            WithConnection(WithConnection(b.graph, s1, s2, line, d), s2, s1, line, d),
            b.lineStations, b.current,
            AppendNew(AppendNew(b.currentStations, s1), s2))
  }

  /** Every row of the feed has a header before it. */
  predicate Scoped(b: State, records: seq<Record>)
  {
    b.current.Some? || records == [] || records[0].LineBegin?
  }

  /** The state after the records, one at a time from the first. */
  function Ingest(b: State, records: seq<Record>): (r: State)
    requires Scoped(b, records)
    ensures r.current.Some? <==> b.current.Some? || records != []
    decreases |records|
  {
    if records == [] then b
    else
      var n := |records| - 1;
      assert Scoped(b, records[..n]);
      Step(Ingest(b, records[..n]), records[n])
  }

  /** The state at the end of input: the last line's list is flushed. */
  function Parse(b: State, records: seq<Record>): (p: State)
    requires Scoped(b, records)
    ensures p.current.Some? ==> p.current.value in p.lineStations
                                && p.lineStations[p.current.value] == p.currentStations
    ensures var e := Ingest(b, records);
      && p.graph == e.graph && p.stationLines == e.stationLines
      && p.current == e.current && p.currentStations == e.currentStations
      && forall l :: l in e.lineStations && e.current != Some(l) ==>
           l in p.lineStations && p.lineStations[l] == e.lineStations[l]
  {
    var e := Ingest(b, records);
    e.(lineStations := Stored(e))
  }

  lemma IngestSnoc(b: State, records: seq<Record>, r: Record)
    requires Scoped(b, records + [r])
    ensures Scoped(b, records)
    ensures r.Row? ==> Ingest(b, records).current.Some?
    ensures Ingest(b, records + [r]) == Step(Ingest(b, records), r)
  {
    assert (records + [r])[..|records|] == records;
  }

  /** The last record of a non-empty feed is applied to the state after the others. */
  lemma IngestLast(b: State, records: seq<Record>)
    requires Scoped(b, records) && records != []
    ensures Scoped(b, records[..|records| - 1])
    ensures records[|records| - 1].Row? ==> Ingest(b, records[..|records| - 1]).current.Some?
    ensures Ingest(b, records) == Step(Ingest(b, records[..|records| - 1]), records[|records| - 1])
  {
  }

  /** Record i of a feed is applied to the state its first i records leave. */
  lemma IngestPrefix(b: State, records: seq<Record>, i: nat)
    requires Scoped(b, records) && i < |records|
    ensures Scoped(b, records[..i]) && Scoped(b, records[..i + 1])
    ensures records[i].Row? ==> Ingest(b, records[..i]).current.Some?
    ensures Ingest(b, records[..i + 1]) == Step(Ingest(b, records[..i]), records[i])
  {
    assert records[..i + 1][..i] == records[..i];
    IngestLast(b, records[..i + 1]);
  }

  // ---------------------------------------------------------------------------
  // The builder invariant: the network is well formed and the current list is
  // duplicate-free and made of known stations.

  ghost predicate Valid(b: State)
  {
    && WellFormed(b.stationLines, b.graph, b.lineStations)
    && NoDup(b.currentStations)
    && (forall s :: s in b.currentStations ==> s in b.graph)
  }

  lemma LinesAtAppend(conns: seq<Connection>, c: Connection)
    ensures LinesAt(conns + [c]) == LinesAt(conns) + {c.line}
  {
    var l, r := LinesAt(conns + [c]), LinesAt(conns) + {c.line};
    forall x | x in l ensures x in r {
      var d :| d in conns + [c] && d.line == x;
      if d != c { assert d in conns; }
    }
    forall x | x in r ensures x in l {
      if x != c.line {
        var d :| d in conns && d.line == x;
        assert d in conns + [c];
      } else {
        assert c in conns + [c];
      }
    }
  }

  lemma AppendNewMembers(stations: seq<Station>, s: Station)
    ensures forall x :: x in AppendNew(stations, s) <==> x in stations || x == s
  {
  }

  lemma AppendNewKeepsNoDup(stations: seq<Station>, s: Station)
    requires NoDup(stations)
    ensures NoDup(AppendNew(stations, s))
  {
  }

  /** Appending a connection adds exactly that one edge and keeps every existing one. */
  lemma WithConnectionMembers(g: map<Station, seq<Connection>>, from: Station, to: Station,
                              line: LineName, d: real)
    ensures var g' := WithConnection(g, from, to, line, d);
      && g'.Keys == g.Keys + {from}
      && Connection(to, line, d) in g'[from]
      && (forall a :: a in g ==> g[a] <= g'[a])
      && (forall a :: a in g && a != from ==> g'[a] == g[a])
      && (forall a, c :: a in g' && c in g'[a] ==>
            (a in g && c in g[a]) || (a == from && c == Connection(to, line, d)))
  {
    var g' := WithConnection(g, from, to, line, d);
    var old1 := if from in g then g[from] else [];
    assert g'[from] == old1 + [Connection(to, line, d)];
    forall a, c | a in g' && c in g'[a]
      ensures (a in g && c in g[a]) || (a == from && c == Connection(to, line, d))
    {
      if a == from && c != Connection(to, line, d) {
        assert c in old1;
      }
    }
  }

  /** Appending s1 -> s2 and s2 -> s1 adds both stations, both edges, and keeps every other list. */
  lemma EdgePairFrame(g: map<Station, seq<Connection>>, s1: Station, s2: Station,
                      line: LineName, d: real)
    ensures var g2 := WithConnection(WithConnection(g, s1, s2, line, d), s2, s1, line, d);
      && g2.Keys == g.Keys + {s1, s2}
      && Connection(s2, line, d) in g2[s1] && Connection(s1, line, d) in g2[s2]
      && (forall a :: a in g ==> g[a] <= g2[a])
      && (forall a :: a in g && a != s1 && a != s2 ==> g2[a] == g[a])
  {
    var g1 := WithConnection(g, s1, s2, line, d);
    WithConnectionMembers(g, s1, s2, line, d);
    WithConnectionMembers(g1, s2, s1, line, d);
  }

  /** Appending s1 -> s2 and s2 -> s1 with the same line and distance keeps every edge reversible. */
  lemma EdgePairKeepsSymmetric(g: map<Station, seq<Connection>>, s1: Station, s2: Station,
                               line: LineName, d: real)
    requires Symmetric(g)
    ensures Symmetric(WithConnection(WithConnection(g, s1, s2, line, d), s2, s1, line, d))
  {
    var g1 := WithConnection(g, s1, s2, line, d);
    var g2 := WithConnection(g1, s2, s1, line, d);
    WithConnectionMembers(g, s1, s2, line, d);
    WithConnectionMembers(g1, s2, s1, line, d);
    forall a: Station, c: Connection | a in g2 && c in g2[a]
      ensures c.target in g2 && Connection(a, c.line, c.distance) in g2[c.target]
    {
      if !(a == s2 && c == Connection(s1, line, d)) && !(a == s1 && c == Connection(s2, line, d)) {
        assert c in g1[a] && c in g[a];
        assert Connection(a, c.line, c.distance) in g[c.target];
      }
    }
  }

  /** The two appended edges carry the row's line, so the line sets still match the edges. */
  lemma EdgePairKeepsLines(sl: map<Station, set<LineName>>, g: map<Station, seq<Connection>>,
                           s1: Station, s2: Station, line: LineName, d: real)
    requires sl.Keys == g.Keys && forall s :: s in g ==> sl[s] == LinesAt(g[s])
    ensures var g2 := WithConnection(WithConnection(g, s1, s2, line, d), s2, s1, line, d);
            var sl2 := WithLine(WithLine(sl, s1, line), s2, line);
      sl2.Keys == g2.Keys && forall s :: s in g2 ==> sl2[s] == LinesAt(g2[s])
  {
    var g1 := WithConnection(g, s1, s2, line, d);
    var old1 := if s1 in g then g[s1] else [];
    var old2 := if s2 in g1 then g1[s2] else [];
    LinesAtAppend(old1, Connection(s2, line, d));
    LinesAtAppend(old2, Connection(s1, line, d));
    assert LinesAt([]) == {};
  }

  /**
   * A row (s1, s2, d) on line L registers L for both stations, appends
   * s1 -> s2 and s2 -> s1 on L with distance d, and leaves every other
   * station alone.
   */
  lemma RowEffect(b: State, s1: Station, s2: Station, d: real)
    requires b.current.Some?
    ensures var b' := Step(b, Row(s1, s2, d));
      && b.current.value in b'.stationLines[s1] && b.current.value in b'.stationLines[s2]
      && Connection(s2, b.current.value, d) in b'.graph[s1]
      && Connection(s1, b.current.value, d) in b'.graph[s2]
      && b'.graph.Keys == b.graph.Keys + {s1, s2}
      && (forall s :: s != s1 && s != s2 && s in b.graph ==>
            b'.graph[s] == b.graph[s])
      && (forall s :: s != s1 && s != s2 && s in b.stationLines ==>
            b'.stationLines[s] == b.stationLines[s])
  {
    EdgePairFrame(b.graph, s1, s2, b.current.value, d);
  }

  /** A row keeps the network well formed (in particular symmetric) and the current list duplicate-free. */
  lemma RowKeepsValid(b: State, s1: Station, s2: Station, d: real)
    requires Valid(b) && b.current.Some?
    ensures Valid(Step(b, Row(s1, s2, d)))
  {
    var line := b.current.value;
    EdgePairFrame(b.graph, s1, s2, line, d);
    EdgePairKeepsSymmetric(b.graph, s1, s2, line, d);
    EdgePairKeepsLines(b.stationLines, b.graph, s1, s2, line, d);
    AppendPairKeepsList(b.currentStations, b.graph.Keys, s1, s2);
  }

  /** Appending the row's two stations keeps the current list duplicate-free and within the known stations. */
  lemma AppendPairKeepsList(stations: seq<Station>, known: set<Station>, s1: Station, s2: Station)
    requires NoDup(stations) && forall s :: s in stations ==> s in known
    ensures var r := AppendNew(AppendNew(stations, s1), s2);
      NoDup(r) && forall s :: s in r ==> s in known + {s1, s2}
  {
    AppendNewMembers(stations, s1);
    AppendNewMembers(AppendNew(stations, s1), s2);
    AppendNewKeepsNoDup(stations, s1);
    AppendNewKeepsNoDup(AppendNew(stations, s1), s2);
  }

  lemma HeaderKeepsValid(b: State, name: LineName)
    requires Valid(b)
    ensures Valid(Step(b, LineBegin(name)))
    ensures WellFormed(b.stationLines, b.graph, Stored(b))
  {
  }

  /** Edge symmetry and the other builder invariants hold after any feed. */
  lemma {:induction false} IngestKeepsValid(b: State, records: seq<Record>)
    requires Valid(b) && Scoped(b, records)
    ensures Valid(Ingest(b, records))
    ensures WellFormed(Parse(b, records).stationLines, Parse(b, records).graph,
                       Parse(b, records).lineStations)
    decreases |records|
  {
    if records != [] {
      var n := |records| - 1;
      IngestLast(b, records);
      IngestKeepsValid(b, records[..n]);
      var e := Ingest(b, records[..n]);
      match records[n]
      case LineBegin(name) => HeaderKeepsValid(e, name);
      case Row(s1, s2, d) => RowKeepsValid(e, s1, s2, d);
    }
    HeaderKeepsValid(Ingest(b, records), "");
  }

  /** The network parsed from a feed is symmetric: every edge has its reverse. */
  lemma ParsedIsSymmetric(b: State, records: seq<Record>, a: Station, c: Connection)
    requires Valid(b) && Scoped(b, records)
    requires a in Parse(b, records).graph && c in Parse(b, records).graph[a]
    ensures c.target in Parse(b, records).graph
    ensures Connection(a, c.line, c.distance) in Parse(b, records).graph[c.target]
  {
    IngestKeepsValid(b, records);
  }

  /** Every row of the feed carries a non-negative distance. */
  predicate RowsNonNegative(records: seq<Record>)
  {
    forall i :: 0 <= i < |records| && records[i].Row? ==> records[i].distance >= 0.0
  }

  lemma StepKeepsNonNegative(b: State, r: Record)
    requires NonNegative(b.graph) && (r.Row? ==> b.current.Some? && r.distance >= 0.0)
    ensures NonNegative(Step(b, r).graph)
  {
    if r.Row? {
      var g1 := WithConnection(b.graph, r.s1, r.s2, b.current.value, r.distance);
      WithConnectionMembers(b.graph, r.s1, r.s2, b.current.value, r.distance);
      WithConnectionMembers(g1, r.s2, r.s1, b.current.value, r.distance);
    }
  }

  /** Rows with non-negative distances give a network with non-negative distances, as the search needs. */
  lemma {:induction false} IngestKeepsNonNegative(b: State, records: seq<Record>)
    requires NonNegative(b.graph) && Scoped(b, records) && RowsNonNegative(records)
    ensures NonNegative(Ingest(b, records).graph) && NonNegative(Parse(b, records).graph)
    decreases |records|
  {
    if records != [] {
      var n := |records| - 1;
      IngestLast(b, records);
      forall i | 0 <= i < n && records[..n][i].Row?
        ensures records[..n][i].distance >= 0.0
      {
        assert records[..n][i] == records[i];
      }
      IngestKeepsNonNegative(b, records[..n]);
      StepKeepsNonNegative(Ingest(b, records[..n]), records[n]);
    }
  }

  // ---------------------------------------------------------------------------
  // Line order: the list of a line holds each station once, in the order in
  // which the rows of its block first mention it.

  /** The station names of the rows, in order: s1 then s2 of each row. */
  function Mentions(rows: seq<Record>): seq<Station>
    requires forall i :: 0 <= i < |rows| ==> rows[i].Row?
  {
    if rows == [] then []
    else Mentions(rows[..|rows| - 1]) + [rows[|rows| - 1].s1, rows[|rows| - 1].s2]
  }

  lemma FirstIndexAppend(s: seq<Station>, t: seq<Station>, x: Station)
    requires x in s
    ensures x in s + t && FirstIndex(s + t, x) == FirstIndex(s, x)
  {
    var i := FirstIndex(s, x);
    var k := FirstIndex(s + t, x);
    assert (s + t)[i] == x;
  }

  lemma FirstIndexAfter(s: seq<Station>, t: seq<Station>, x: Station)
    requires x !in s && x in t
    ensures x in s + t && FirstIndex(s + t, x) >= |s|
  {
    assert forall j :: 0 <= j < |s| ==> (s + t)[j] == s[j];
  }

  /** stations lists each mention once, in the order of first mention. */
  ghost predicate FirstSeenOrder(stations: seq<Station>, mentions: seq<Station>)
  {
    && NoDup(stations)
    && (forall x :: x in stations <==> x in mentions)
    && (forall i, j :: 0 <= i < j < |stations| ==>
          FirstIndex(mentions, stations[i]) < FirstIndex(mentions, stations[j]))
  }

  lemma AppendMentionKeepsOrder(stations: seq<Station>, mentions: seq<Station>, s: Station)
    requires FirstSeenOrder(stations, mentions)
    ensures FirstSeenOrder(AppendNew(stations, s), mentions + [s])
  {
    var st' := AppendNew(stations, s);
    var m' := mentions + [s];
    forall x | x in mentions ensures FirstIndex(m', x) == FirstIndex(mentions, x) {
      FirstIndexAppend(mentions, [s], x);
    }
    forall i, j | 0 <= i < j < |st'| ensures FirstIndex(m', st'[i]) < FirstIndex(m', st'[j]) {
      if j == |stations| {
        assert st'[j] == s && s !in mentions;
        FirstIndexAfter(mentions, [s], s);
        assert st'[i] in mentions;
      }
    }
  }

  lemma RowKeepsOrder(b: State, s1: Station, s2: Station, d: real, mentions: seq<Station>)
    requires b.current.Some? && FirstSeenOrder(b.currentStations, mentions)
    ensures var b' := Step(b, Row(s1, s2, d));
      && b'.current == b.current
      && FirstSeenOrder(b'.currentStations, mentions + [s1, s2])
      && b.currentStations <= b'.currentStations
  {
    var mid := AppendNew(b.currentStations, s1);
    AppendMentionKeepsOrder(b.currentStations, mentions, s1);
    AppendMentionKeepsOrder(mid, mentions + [s1], s2);
    assert mentions + [s1] + [s2] == mentions + [s1, s2];
    AppendNewMembers(b.currentStations, s1);
    AppendNewMembers(mid, s2);
  }

  /**
   * Within a block (a header and the rows after it) the accumulated station
   * list is the block's stations in first-seen order, and only grows at its end.
   */
  lemma {:induction false} BlockOrder(b: State, name: LineName, rows: seq<Record>)
    requires forall i :: 0 <= i < |rows| ==> rows[i].Row?
    ensures Scoped(b, [LineBegin(name)] + rows)
    ensures var e := Ingest(b, [LineBegin(name)] + rows);
      e.current == Some(name) && FirstSeenOrder(e.currentStations, Mentions(rows))
    ensures rows != [] ==>
      Ingest(b, [LineBegin(name)] + rows[..|rows| - 1]).currentStations
        <= Ingest(b, [LineBegin(name)] + rows).currentStations
    decreases |rows|
  {
    var recs := [LineBegin(name)] + rows;
    if rows == [] {
      assert recs == [] + [LineBegin(name)];
      IngestSnoc(b, [], LineBegin(name));
    } else {
      var n := |rows| - 1;
      var prefix := [LineBegin(name)] + rows[..n];
      assert recs == prefix + [rows[n]];
      BlockOrder(b, name, rows[..n]);
      IngestSnoc(b, prefix, rows[n]);
      RowKeepsOrder(Ingest(b, prefix), rows[n].s1, rows[n].s2, rows[n].distance, Mentions(rows[..n]));
      assert Mentions(rows) == Mentions(rows[..n]) + [rows[n].s1, rows[n].s2];
    }
  }

  /** Feeding p and then q is feeding p + q. */
  lemma {:induction false} IngestAppend(b: State, p: seq<Record>, q: seq<Record>)
    requires Scoped(b, p + q)
    ensures Scoped(b, p) && Scoped(Ingest(b, p), q)
    ensures Ingest(b, p + q) == Ingest(Ingest(b, p), q)
    decreases |q|
  {
    if p != [] {
      assert (p + q)[0] == p[0];
    }
    if q == [] {
      assert p + q == p;
    } else {
      var n := |q| - 1;
      assert (p + q)[..|p + q| - 1] == p + q[..n];
      assert (p + q)[|p + q| - 1] == q[n];
      IngestLast(b, p + q);
      IngestAppend(b, p, q[..n]);
      IngestLast(Ingest(b, p), q);
    }
  }

  /**
   * A block inside a feed: when the next header arrives, the list stored
   * under the block's line holds the block's stations, each once, in the
   * order the rows first mention them.
   */
  lemma BlockStored(b: State, before: seq<Record>, name: LineName, rows: seq<Record>, next: LineName)
    requires Scoped(b, before) && forall i :: 0 <= i < |rows| ==> rows[i].Row?
    ensures Scoped(b, before + ([LineBegin(name)] + rows) + [LineBegin(next)])
    ensures var e := Ingest(b, before + ([LineBegin(name)] + rows) + [LineBegin(next)]);
      name in e.lineStations && FirstSeenOrder(e.lineStations[name], Mentions(rows))
  {
    var block := [LineBegin(name)] + rows;
    if before != [] {
      assert (before + block)[0] == before[0];
    }
    IngestAppend(b, before, block);
    BlockOrder(Ingest(b, before), name, rows);
    IngestSnoc(b, before + block, LineBegin(next));
  }

  /** The same for the last block of a feed: the final flush stores its list. */
  lemma BlockParsed(b: State, before: seq<Record>, name: LineName, rows: seq<Record>)
    requires Scoped(b, before) && forall i :: 0 <= i < |rows| ==> rows[i].Row?
    ensures Scoped(b, before + ([LineBegin(name)] + rows))
    ensures var p := Parse(b, before + ([LineBegin(name)] + rows));
      name in p.lineStations && FirstSeenOrder(p.lineStations[name], Mentions(rows))
  {
    var block := [LineBegin(name)] + rows;
    if before != [] {
      assert (before + block)[0] == before[0];
    }
    IngestAppend(b, before, block);
    BlockOrder(Ingest(b, before), name, rows);
  }

  /** A header stores the finished list under its line and starts an empty one. */
  lemma HeaderStoresLine(b: State, name: LineName)
    requires b.current.Some?
    ensures var b' := Step(b, LineBegin(name));
      && b'.lineStations == b.lineStations[b.current.value := b.currentStations]
      && b'.current == Some(name) && b'.currentStations == []
  {
  }

  // ---------------------------------------------------------------------------
  // Every line of a station lists that station, provided no header repeats a
  // line name (a repeated header overwrites the earlier list).

  /** The header names are pairwise distinct and not yet stored. */
  ghost predicate FreshHeaders(b: State, records: seq<Record>)
  {
    && (forall i :: 0 <= i < |records| && records[i].LineBegin? ==>
          records[i].name !in b.lineStations && b.current != Some(records[i].name))
    && (forall i, j :: 0 <= i < j < |records| && records[i].LineBegin? && records[j].LineBegin? ==>
          records[i].name != records[j].name)
  }

  /** Station s on line l is listed: in the current list if l is the current line, else in l's stored list. */
  ghost predicate IndexedAt(b: State, s: Station, l: LineName)
  {
    s in b.stationLines && l in b.stationLines[s] ==>
      (b.current == Some(l) && s in b.currentStations)
      || (l in b.lineStations && s in b.lineStations[l])
  }

  /** Every line of every station lists the station, and the current line has no stored list yet. */
  ghost predicate Indexed(b: State)
  {
    && (b.current.Some? ==> b.current.value !in b.lineStations)
    && forall s, l :: IndexedAt(b, s, l)
  }

  lemma StepKeepsIndexed(b: State, r: Record)
    requires Indexed(b) && (r.Row? ==> b.current.Some?)
    requires r.LineBegin? ==> r.name !in b.lineStations && b.current != Some(r.name)
    ensures Indexed(Step(b, r))
  {
    var b' := Step(b, r);
    match r
    case LineBegin(name) =>
      forall s, l ensures IndexedAt(b', s, l) {
        assert IndexedAt(b, s, l);
      }
    case Row(s1, s2, d) =>
      AppendNewMembers(b.currentStations, s1);
      AppendNewMembers(AppendNew(b.currentStations, s1), s2);
      forall s, l ensures IndexedAt(b', s, l) {
        assert IndexedAt(b, s, l);
      }
  }

  /** No name in future is stored or current. */
  ghost predicate Unused(b: State, future: set<LineName>)
  {
    forall x :: x in future ==> x !in b.lineStations && b.current != Some(x)
  }

  /** No header of the records uses a name in future. */
  ghost predicate Avoids(records: seq<Record>, future: set<LineName>)
  {
    forall i :: 0 <= i < |records| && records[i].LineBegin? ==> records[i].name !in future
  }

  lemma StepKeepsUnused(b: State, r: Record, future: set<LineName>)
    requires Unused(b, future) && (r.Row? ==> b.current.Some?)
    requires r.LineBegin? ==> r.name !in future
    ensures Unused(Step(b, r), future)
  {
  }

  /** Names no header uses stay unused through the records. */
  lemma {:induction false} IngestKeepsUnused(b: State, records: seq<Record>, future: set<LineName>)
    requires Scoped(b, records) && Unused(b, future) && Avoids(records, future)
    ensures Unused(Ingest(b, records), future)
    decreases |records|
  {
    if records != [] {
      var n := |records| - 1;
      var prefix := records[..n];
      var last := records[n];
      IngestLast(b, records);
      forall i | 0 <= i < n && prefix[i].LineBegin?
        ensures prefix[i].name !in future
      {
        assert records[i] == prefix[i];
      }
      IngestKeepsUnused(b, prefix, future);
      StepKeepsUnused(Ingest(b, prefix), last, future);
    }
  }

  /** The conditions on a feed hold for its prefix without the last record, and that record's header name is new to the prefix. */
  lemma PrefixFresh(b: State, records: seq<Record>, n: nat)
    requires n + 1 == |records| && FreshHeaders(b, records)
    ensures FreshHeaders(b, records[..n])
    ensures records[n].LineBegin? ==>
              Unused(b, {records[n].name}) && Avoids(records[..n], {records[n].name})
  {
    var prefix := records[..n];
    forall i, j | 0 <= i < j < n && prefix[i].LineBegin? && prefix[j].LineBegin?
      ensures prefix[i].name != prefix[j].name
    {
      assert records[i] == prefix[i] && records[j] == prefix[j];
    }
    forall i | 0 <= i < n && prefix[i].LineBegin?
      ensures prefix[i].name !in b.lineStations && b.current != Some(prefix[i].name)
      ensures records[n].LineBegin? ==> prefix[i].name != records[n].name
    {
      assert records[i] == prefix[i];
    }
  }

  /** Indexed survives any feed whose header names are all new. */
  lemma {:induction false} IngestKeepsIndexed(b: State, records: seq<Record>)
    requires Indexed(b) && Scoped(b, records) && FreshHeaders(b, records)
    ensures Indexed(Ingest(b, records))
    decreases |records|
  {
    if records != [] {
      var n := |records| - 1;
      var prefix := records[..n];
      var last := records[n];
      IngestLast(b, records);
      PrefixFresh(b, records, n);
      IngestKeepsIndexed(b, prefix);
      var e := Ingest(b, prefix);
      if last.LineBegin? {
        IngestKeepsUnused(b, prefix, {last.name});
        assert Unused(e, {last.name});
      }
      StepKeepsIndexed(e, last);
    }
  }

  /**
   * After a whole feed whose header names are all new, every line a station
   * belongs to has a stored list that contains the station.
   */
  lemma ParseIndexed(b: State, records: seq<Record>)
    requires Indexed(b) && Scoped(b, records) && FreshHeaders(b, records)
    ensures var p := Parse(b, records);
      forall s :: s in p.stationLines ==> LinesIndexed(p.stationLines, p.lineStations, s)
  {
    IngestKeepsIndexed(b, records);
    var e := Ingest(b, records);
    var p := Parse(b, records);
    forall s | s in p.stationLines
      ensures LinesIndexed(p.stationLines, p.lineStations, s)
    {
      forall l | l in p.stationLines[s]
        ensures l in p.lineStations && s in p.lineStations[l]
      {
        assert IndexedAt(e, s, l);
      }
    }
  }
}
