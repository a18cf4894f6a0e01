/**
 * printPath: the path is cut into runs of consecutive hops that arrive on
 * the same line, and for each run the loop announces the ride (and, from the
 * second run on, the transfer before it); the method returns the last
 * station of the path.
 */
module Segments {
  import opened Metro

  /** A run of the path on one line, from position lo to position hi. */
  datatype Segment = Segment(line: LineName, lo: nat, hi: nat)

  /** What the loop prints: the start of a ride on a line, or a change of line at a station. */
  datatype Event = Ride(line: LineName, from: Station) | Transfer(at: Station, line: LineName)

  /** The text returned for an empty path. */
  const NotFound: string := "未找到路径"

  /** Every station after the first has an arrival line (lineInfo.get never yields null there). */
  predicate Annotated(path: seq<Station>, info: map<Station, LineName>)
  {
    forall i :: 1 <= i < |path| ==> path[i] in info
  }

  /**
   * The runs after one more hop, into position n on line: the last run
   * grows when it is on that line, and a new run starts otherwise.
   */
  function Extend(segs: seq<Segment>, line: LineName, n: nat): (r: seq<Segment>)
    requires n >= 1
    ensures |r| >= 1 && r[|r| - 1].line == line && r[|r| - 1].hi == n
    ensures segs != [] && segs[|segs| - 1].line == line ==>
              |r| == |segs| && r[|r| - 1].lo == segs[|segs| - 1].lo
    ensures !(segs != [] && segs[|segs| - 1].line == line) ==>
              |r| == |segs| + 1 && r[|r| - 1].lo == n - 1
    ensures forall k :: 0 <= k < |r| - 1 ==> r[k] == segs[k]
  {
    if segs != [] && segs[|segs| - 1].line == line then
      segs[..|segs| - 1] + [Segment(line, segs[|segs| - 1].lo, n)]
    else segs + [Segment(line, n - 1, n)]
  }

  /** The runs of the first n hops, as the loop builds them hop by hop. */
  function Runs(path: seq<Station>, info: map<Station, LineName>, n: nat): (r: seq<Segment>)
    requires n < |path| && Annotated(path, info)
    ensures forall k :: 0 <= k < |r| ==> r[k].lo < r[k].hi <= n
    ensures r == [] <==> n == 0
    decreases n
  {
    if n == 0 then [] else Extend(Runs(path, info, n - 1), info[path[n]], n)
  }

  /** The line of the last run (currentLine in the loop), None before the first hop. */
  function LastLine(runs: seq<Segment>): Option<LineName>
  {
    if runs == [] then None else Some(runs[|runs| - 1].line)
  }

  /**
   * Run k of a cut of positions 0..n: at least one hop, every hop arriving on
   * the run's line, and the next run starting where it ends, on another line.
   */
  ghost predicate RunOk(path: seq<Station>, info: map<Station, LineName>, runs: seq<Segment>, n: nat, k: int)
    requires n < |path| && Annotated(path, info)
  {
    0 <= k < |runs| ==>
      && runs[k].lo < runs[k].hi <= n
      && (forall j :: runs[k].lo < j <= runs[k].hi ==> info[path[j]] == runs[k].line)
      && (k + 1 < |runs| ==> runs[k].hi == runs[k + 1].lo && runs[k].line != runs[k + 1].line)
  }

  /**
   * runs cuts positions 0..n into consecutive runs of one arrival line each,
   * neighbouring runs on different lines (so no run could be longer).
   */
  ghost predicate Partition(path: seq<Station>, info: map<Station, LineName>, runs: seq<Segment>, n: nat)
    requires n < |path| && Annotated(path, info)
  {
    && (runs == [] <==> n == 0)
    && (runs != [] ==> runs[0].lo == 0 && runs[|runs| - 1].hi == n)
    && forall k :: RunOk(path, info, runs, n, k)
  }

  /** One more hop keeps the runs a partition. */
  lemma ExtendPartition(path: seq<Station>, info: map<Station, LineName>, segs: seq<Segment>, n: nat)
    requires 1 <= n < |path| && Annotated(path, info)
    requires Partition(path, info, segs, n - 1)
    ensures Partition(path, info, Extend(segs, info[path[n]], n), n)
  {
    var line := info[path[n]];
    var r := Extend(segs, line, n);
    var m := |r| - 1;
    var grows := segs != [] && segs[|segs| - 1].line == line;
    if segs != [] {
      assert r[0] == segs[0] || m == 0;
    }
    forall k
      ensures RunOk(path, info, r, n, k)
    {
      if 0 <= k < m {
        assert r[k] == segs[k];
        assert RunOk(path, info, segs, n - 1, k);
        if k + 1 < m {
          assert r[k + 1] == segs[k + 1];
        }
      } else if k == m {
        if grows {
          assert RunOk(path, info, segs, n - 1, k);
          forall j | r[k].lo < j <= r[k].hi
            ensures info[path[j]] == r[k].line
          {
            if j < n {
              assert segs[k].lo < j <= segs[k].hi;
            }
          }
        }
      }
    }
  }

  /** The loop's runs are exactly such a partition. */
  lemma {:induction false} RunsPartition(path: seq<Station>, info: map<Station, LineName>, n: nat)
    requires n < |path| && Annotated(path, info)
    ensures Partition(path, info, Runs(path, info, n), n)
    decreases n
  {
    if n > 0 {
      RunsPartition(path, info, n - 1);
      ExtendPartition(path, info, Runs(path, info, n - 1), n);
    }
  }

  /** Every run of a partition other than the last ends before n. */
  lemma RunEnds(path: seq<Station>, info: map<Station, LineName>, runs: seq<Segment>, n: nat, k: nat)
    requires n < |path| && Annotated(path, info)
    requires Partition(path, info, runs, n) && k < |runs|
    ensures runs[k].lo < runs[k].hi <= n && (k + 1 < |runs| ==> runs[k].hi < n)
    ensures runs[k].hi == n || info[path[runs[k].hi + 1]] != runs[k].line
    ensures forall j :: runs[k].lo < j <= runs[k].hi ==> info[path[j]] == runs[k].line
  {
    assert RunOk(path, info, runs, n, k);
    if k + 1 < |runs| {
      assert RunOk(path, info, runs, n, k + 1);
    }
  }

  /** The k-th runs of two partitions coincide. */
  lemma {:induction false} RunsAgree(path: seq<Station>, info: map<Station, LineName>,
                                     r1: seq<Segment>, r2: seq<Segment>, n: nat, k: nat)
    requires n < |path| && Annotated(path, info)
    requires Partition(path, info, r1, n) && Partition(path, info, r2, n)
    requires k < |r1| && k < |r2|
    ensures r1[k] == r2[k]
    decreases k
  {
    if k > 0 {
      RunsAgree(path, info, r1, r2, n, k - 1);
      assert RunOk(path, info, r1, n, k - 1) && RunOk(path, info, r2, n, k - 1);
    }
    RunEnds(path, info, r1, n, k);
    RunEnds(path, info, r2, n, k);
    assert r1[k].lo == r2[k].lo;
    assert r1[k].line == info[path[r1[k].lo + 1]] == r2[k].line;
  }

  /** Two partitions of the same path are the same runs: the cut is determined by the lines. */
  lemma PartitionUnique(path: seq<Station>, info: map<Station, LineName>,
                        r1: seq<Segment>, r2: seq<Segment>, n: nat)
    requires n < |path| && Annotated(path, info)
    requires Partition(path, info, r1, n) && Partition(path, info, r2, n)
    ensures r1 == r2
  {
    if n > 0 {
      var m := (if |r1| < |r2| then |r1| else |r2|) - 1;
      RunsAgree(path, info, r1, r2, n, m);
      RunEnds(path, info, r1, n, m);
      RunEnds(path, info, r2, n, m);
      assert |r1| == |r2|;
      forall k | 0 <= k < |r1|
        ensures r1[k] == r2[k]
      {
        RunsAgree(path, info, r1, r2, n, k);
      }
    }
  }

  // ---------------------------------------------------------------------------
  // The announcements.

  /**
   * Run k's announcements in the printed sequence: its ride at position 2k
   * and, except for the first run, the transfer at position 2k - 1, both at
   * the run's first station.
   */
  ghost predicate AnnouncedAt(path: seq<Station>, runs: seq<Segment>, events: seq<Event>, k: int)
  {
    0 <= k < |runs| && 2 * k < |events| && runs[k].lo < |path| ==>
      && events[2 * k] == Ride(runs[k].line, path[runs[k].lo])
      && (k > 0 ==> events[2 * k - 1] == Transfer(path[runs[k].lo], runs[k].line))
  }

  /** events are exactly the announcements of runs: one ride per run, a transfer before every ride but the first. */
  ghost predicate Announces(path: seq<Station>, runs: seq<Segment>, events: seq<Event>)
  {
    && |events| == (if runs == [] then 0 else 2 * |runs| - 1)
    && (forall k :: 0 <= k < |runs| ==> runs[k].lo < |path|)
    && forall k :: AnnouncedAt(path, runs, events, k)
  }

  /** One more hop into position n: what the loop prints there keeps the announcements in step with the runs. */
  lemma ExtendAnnounces(path: seq<Station>, runs: seq<Segment>, events: seq<Event>, line: LineName, n: nat)
    requires 1 <= n < |path| && Announces(path, runs, events)
    ensures LastLine(Extend(runs, line, n)) == Some(line)
    ensures LastLine(runs) == Some(line) ==> Announces(path, Extend(runs, line, n), events)
    ensures LastLine(runs) != Some(line) && runs != [] ==>
              Announces(path, Extend(runs, line, n), events + [Transfer(path[n - 1], line)] + [Ride(line, path[n - 1])])
    ensures runs == [] ==> Announces(path, Extend(runs, line, n), events + [Ride(line, path[n - 1])])
  {
    var r := Extend(runs, line, n);
    var e := if LastLine(runs) == Some(line) then events
             else if runs == [] then events + [Ride(line, path[n - 1])]
             else events + [Transfer(path[n - 1], line)] + [Ride(line, path[n - 1])];
    var m := |r| - 1;
    forall k
      ensures AnnouncedAt(path, r, e, k)
    {
      assert AnnouncedAt(path, runs, events, k);
      if 0 <= k < m {
        assert r[k] == runs[k];
      }
    }
  }

  /**
   * printPath: for an empty path the "not found" text; otherwise the
   * announcements of the runs, and the last station of the path.
   */
  method PrintPath(path: seq<Station>, info: map<Station, LineName>) returns (events: seq<Event>, last: string)
    requires Annotated(path, info)
    ensures path == [] ==> events == [] && last == NotFound
    ensures path != [] ==> Announces(path, Runs(path, info, |path| - 1), events) && last == path[|path| - 1]
  {
    events := [];
    if path == [] {
      return events, NotFound;
    }
    var currentLine: Option<LineName> := None;
    var startStation := path[0];
    var i := 1;
    ghost var runs: seq<Segment> := [];
    while i < |path|
      invariant 1 <= i <= |path|
      invariant startStation == path[i - 1]
      invariant runs == Runs(path, info, i - 1)
      invariant currentLine == LastLine(runs)
      invariant Announces(path, runs, events)
    {
      var station := path[i];
      var line := info[station];
      ExtendAnnounces(path, runs, events, line, i);
      runs := Extend(runs, line, i);
      if currentLine != Some(line) {
        if currentLine.Some? {
          events := events + [Transfer(path[i - 1], line)];
        }
        currentLine := Some(line);
        events := events + [Ride(line, startStation)];
      }
      startStation := station;
      i := i + 1;
    }
    last := startStation;
  }
}
