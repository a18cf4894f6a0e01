# Wuhan metro network: a verified model of SubwaySystem

This project models the core of the Wuhan Metro simulation: the
`SubwaySystem` class, which reads the metro network from a data file
into three maps and answers queries over them:

- station name → set of lines;
- station name → adjacency list of connections;
- line name → ordered station list.

The queries are:

- the interchange stations;
- the stations within a travel radius along each line;
- the shortest path between two stations (Dijkstra's algorithm);
- the line-by-line description of a path;
- the tiered fare for a distance.

The modules follow the structure of the class:

- `Metro` (metro.dfy) holds the entities and the simple queries:
  - station and line names, `Connection`, the abstract ingestion feed (`Record`);
  - the network invariants (edge symmetry, closure, non-negative distances);
  - `getDistance` as "first matching connection, else 0";
  - `getTransferStations`.
- `Builder` (builder.dfy) holds the specification of `parseData`:
  - a fold of one step per record over the three maps and the line being read;
  - the header-name rule;
  - the facts the fold keeps: edge symmetry, line sets matching the edges, duplicate-free lists in first-seen order, every line of a station listing it.
- `Radius` (radius.dfy): the two walks of `getNearbyStations` as functions, with their running sums and the radius bounds.
- `Routing` (routing.dfy): Dijkstra's state, meaning tentative distances, predecessor maps and queue. It holds the invariants kept between polls, the inner relaxation loop as a method, and the backtracking loop. It also proves that the search result is optimal against every walk of the network.
- `Segments` (segments.dfy): `printPath`. The path is cut into runs on one line, and the loop's announcements are the rides and transfers of those runs.
- `Fare` (fare.dfy): `calculateFare` as written, its properties, the jump at 50 km and the corrected fare.
- `Subway` (subway.dfy): the `SubwaySystem` class itself. It has the three maps as fields and its methods, with the loops of the source, proved against the functions above.

Doubles are modelled as mathematical reals. `Double.MAX_VALUE`, the "unreached" sentinel of the search, is the `Unreached` constructor of `Routing.Dist`.

## Model

| member | source | states |
|---|---|---|
| Subway.SubwaySystem.constructor | src/SubwaySystem.java:11-15 | the three maps start empty |
| Subway.SubwaySystem.ParseData | src/SubwaySystem.java:23-75 | after the record loop and the final flush, the three maps are those of the fold `Builder.Parse` of the feed; a well-formed network stays well formed; a network with non-negative distances stays so when every row's distance is non-negative |
| Builder.Ingest | src/SubwaySystem.java:29-70 | after the records a line is in progress exactly when one was before or the feed is non-empty |
| Builder.Step | src/SubwaySystem.java:35-68 | a header starts an empty list for its line and leaves the stations and connections alone; a row keeps the line in progress and the stored lists, adds exactly its two stations to the network, and only extends the list in progress at its end |
| Builder.Parse | src/SubwaySystem.java:71-73 | the final flush stores the list of the line in progress under its name; the network, the line in progress and every other stored list are those the records left |
| Builder.IngestAppend | src/SubwaySystem.java:29-70 | feeding one part of a feed and then the rest gives the state of feeding the whole |
| Builder.Stored | src/SubwaySystem.java:36-38 | with a line in progress its list is stored under the line's name and every other list stays; without one nothing changes |
| Builder.WithLine | src/SubwaySystem.java:83-86 | the station becomes known and lies on the line, and keeps the lines it had |
| Builder.WithConnection | src/SubwaySystem.java:96-99 | `from` becomes known, and its list ends with the new connection after the old list |
| Builder.AppendNew | src/SubwaySystem.java:64-67 | the list only grows at its end, by at most one station |
| Builder.BeforeMark | src/SubwaySystem.java:39 | the first piece of splitting at '号' is a prefix of the title without '号', ending at the first '号' or at the end |
| Builder.HeaderName | src/SubwaySystem.java:39 | the line name is a prefix of the title without '号', ending at the first '号' or at the end of the title, followed by "号线" |
| Builder.HeaderNameOfTitle | src/SubwaySystem.java:35-39 | a header "<n>号线站点间距" with no '号' in n names the line "<n>号线" |
| Builder.HeaderStoresLine | src/SubwaySystem.java:36-40 | a header stores the list in progress under its line and starts an empty list for the new line |
| Builder.RowEffect | src/SubwaySystem.java:55-61 | a row registers the current line for both stations, adds both directed connections with the row's distance, grows the station set by exactly the two stations, and leaves every other station's connections and lines alone |
| Builder.WithConnectionMembers | src/SubwaySystem.java:96-99 | appending a connection keeps every existing edge and adds exactly that one edge |
| Builder.EdgePairFrame | src/SubwaySystem.java:60-61 | the two appends of a row add both stations and both edges, keep every earlier list as a prefix, and change no other list |
| Builder.EdgePairKeepsSymmetric | src/SubwaySystem.java:60-61 | adding a row's two opposite connections keeps every edge reversible |
| Builder.EdgePairKeepsLines | src/SubwaySystem.java:56-61 | after a row each station's line set is still exactly the set of lines of its connections |
| Builder.RowKeepsValid | src/SubwaySystem.java:55-67 | a row keeps the network well formed and the list in progress duplicate-free and made of known stations |
| Builder.HeaderKeepsValid | src/SubwaySystem.java:36-40 | a header, and the final flush, keep the network well formed |
| Builder.IngestKeepsValid | src/SubwaySystem.java:23-75 | any feed keeps the builder invariant, and the parsed network is well formed |
| Builder.ParsedIsSymmetric | src/SubwaySystem.java:60-61 | every connection of the parsed network leads to a known station that has the reverse connection on the same line with the same distance |
| Builder.StepKeepsNonNegative | src/SubwaySystem.java:55-61 | a record whose distance is non-negative keeps every distance of the network non-negative |
| Builder.IngestKeepsNonNegative | src/SubwaySystem.java:23-75 | a feed whose rows have non-negative distances gives a network with non-negative distances, which the shortest path search needs |
| Builder.AppendNewMembers | src/SubwaySystem.java:64-67 | after appending a station when absent the list holds exactly its old stations and that one |
| Builder.AppendNewKeepsNoDup | src/SubwaySystem.java:64-67 | appending a station when absent keeps the list duplicate-free |
| Builder.AppendPairKeepsList | src/SubwaySystem.java:64-67 | a row's two appends keep the list duplicate-free and within the known stations plus the row's two |
| Builder.LinesAtAppend | src/SubwaySystem.java:84-85 | the lines of a connection list grow by the appended connection's line |
| Builder.AppendMentionKeepsOrder | src/SubwaySystem.java:64-67 | appending a mention keeps the list in first-seen order of the mentions |
| Builder.RowKeepsOrder | src/SubwaySystem.java:63-67 | a row keeps the list in first-seen order and only extends it at the end |
| Builder.BlockOrder | src/SubwaySystem.java:35-67 | after a header and its rows the list in progress is exactly the block's stations, each once, in the order the rows first mention them, and it only grows at its end |
| Builder.BlockStored | src/SubwaySystem.java:36-67 | for a block anywhere in a feed, when the next header arrives the list stored under the block's line is the block's stations, each once, in first-mention order |
| Builder.BlockParsed | src/SubwaySystem.java:63-73 | for the last block of a feed, the list the final flush stores under its line is the block's stations, each once, in first-mention order |
| Builder.StepKeepsIndexed | src/SubwaySystem.java:36-67 | one record keeps every station's lines indexed (listed in progress or stored) |
| Builder.StepKeepsUnused | src/SubwaySystem.java:36-40 | a record whose header name is not in a set keeps that set's names unstored and not current |
| Builder.IngestKeepsUnused | src/SubwaySystem.java:29-70 | names no header uses stay unstored and not current through a feed |
| Builder.PrefixFresh | src/SubwaySystem.java:35-39 | fresh headers stay fresh for a prefix, and the last header's name is new to it |
| Builder.IngestKeepsIndexed | src/SubwaySystem.java:29-70 | with distinct new header names, every station's lines stay indexed through a feed |
| Builder.ParseIndexed | src/SubwaySystem.java:23-75 | with distinct new header names, each line a parsed station lies on has a stored list containing the station |
| Subway.SubwaySystem.AddStationToLine | src/SubwaySystem.java:83-86 | the line joins the station's line set, created if absent; nothing else changes |
| Subway.SubwaySystem.AddConnection | src/SubwaySystem.java:96-99 | the connection is appended to the list of `from`, created if absent; nothing else changes |
| Metro.TransferStations | src/SubwaySystem.java:106-114 | a station is in the result exactly when it lies on at least two lines, and it keeps its full line set |
| Metro.TwoElements | src/SubwaySystem.java:109 | a set has at least two elements exactly when it holds two distinct ones |
| Metro.TransferIffTwoLines | src/SubwaySystem.java:106-114 | in a well-formed network a station is an interchange exactly when its own connections run on two different lines |
| Metro.SymmetricIsClosed | src/SubwaySystem.java:60-61 | a symmetric adjacency list only leads to known stations |
| Metro.FirstMatch | src/SubwaySystem.java:163-168 | the index of the first connection to the target on the line, or none when no connection matches |
| Metro.GetDistance | src/SubwaySystem.java:162-169 | the result is never negative in a network with non-negative distances, and a non-zero result always comes from a matching connection |
| Metro.FirstIndex | src/SubwaySystem.java:131 | the position of the first occurrence of a station that is present, as indexOf gives it (the builder also measures first mentions with it) |
| Metro.GetDistanceIsFirstMatch | src/SubwaySystem.java:162-169 | getDistance is the distance of the first matching connection, and 0 when none matches |
| Subway.SubwaySystem.GetNearbyStations | src/SubwaySystem.java:123-152 | an unknown station gives nothing; otherwise the result is the left walk and then the right walk of each of the station's lines, visited once each; every entry is within the radius and on one of those lines |
| Subway.SubwaySystem.WalkLeft | src/SubwaySystem.java:133-140 | the leftward loop yields exactly the leftward walk of the line from the station's position |
| Subway.SubwaySystem.WalkRight | src/SubwaySystem.java:142-149 | the rightward loop yields exactly the rightward walk of the line from the station's position |
| Radius.LeftRun | src/SubwaySystem.java:134-140 | the leftward walk has at most one entry per position before the station |
| Radius.RightRun | src/SubwaySystem.java:143-149 | the rightward walk has at most one entry per position after the station |
| Radius.LeftHops | src/SubwaySystem.java:136 | the running sum of leftward hops is never negative in a network with non-negative distances |
| Radius.RightHops | src/SubwaySystem.java:145 | the running sum of rightward hops is never negative in a network with non-negative distances |
| Radius.LineNearby | src/SubwaySystem.java:130-149 | the two walks of one line have fewer entries than the line has stations, each within the radius and on that line |
| Radius.NearbyFor | src/SubwaySystem.java:129-150 | every entry of the search over the visited lines is within the radius and on one of those lines |
| Radius.LeftHopsSnoc | src/SubwaySystem.java:134-136 | the sum of k + 1 leftward hops is the sum of k hops plus the next hop |
| Radius.RightHopsSnoc | src/SubwaySystem.java:143-145 | the sum of k + 1 rightward hops is the sum of k hops plus the next hop |
| Radius.LeftRunShape | src/SubwaySystem.java:134-140 | the leftward walk visits positions i-1, i-2, … in order with the running sums as distances, all within the radius, and stops exactly at the first sum beyond it or at the start of the line |
| Radius.RightRunShape | src/SubwaySystem.java:143-149 | the rightward walk visits positions i+1, i+2, … with the running sums, all within the radius, and stops exactly at the first sum beyond it or at the end of the line |
| Radius.LeftRunNext | src/SubwaySystem.java:135-139 | after k entries the leftward walk ends when the next sum exceeds the radius, and otherwise emits the next station with that sum |
| Radius.RightRunNext | src/SubwaySystem.java:144-148 | the rightward counterpart of LeftRunNext |
| Radius.LeftWithinRadius | src/SubwaySystem.java:135-140 | every entry of the leftward walk is within the radius and on the line (from the shape of the walk) |
| Radius.RightWithinRadius | src/SubwaySystem.java:144-149 | every entry of the rightward walk is within the radius and on the line (from the shape of the walk) |
| Subway.SubwaySystem.ShortestPath | src/SubwaySystem.java:178-217 | the end is reached exactly when some walk from the start leads there; then the path is a walk from the start whose cost is the total and no walk is cheaper; each hop arrives on the line lineInfo records; an unreached end gives the path [end]; an unknown start that is also the end gives [end] at distance 0 |
| Subway.SubwaySystem.InitialDistances | src/SubwaySystem.java:185-188 | every station of the network is unreached except the start, at distance 0 |
| Subway.SubwaySystem.Search | src/SubwaySystem.java:189-206 | when the polling loop stops, the end's distance is optimal and the predecessor maps are consistent with the final distances |
| Routing.Improves | src/SubwaySystem.java:199 | a connection that does not improve leaves its target reached at a distance no greater than the new one; an unreached target is always improved |
| Routing.FindMin | src/SubwaySystem.java:193 | the polled entry has the least distance in the queue (the first such) |
| Routing.RemoveAt | src/SubwaySystem.java:193 | polling removes exactly that one entry from the queue multiset |
| Routing.WalkCostNonNegative | src/SubwaySystem.java:198 | with non-negative distances every suffix of a walk costs at least 0 |
| Routing.InitialInv | src/SubwaySystem.java:185-189 | the initial distances and singleton queue satisfy the search invariant |
| Routing.PollDistance | src/SubwaySystem.java:193 | the least entry's station is reached within the entry's distance, which is at or above the last polled one, and exactly at it when the station is not yet settled |
| Routing.PollQueue | src/SubwaySystem.java:193 | the rest of the queue lies at or above the polled distance and its entries are reached stations no better than their distances |
| Routing.PollSettled | src/SubwaySystem.java:193-197 | after settling the polled station every settled station is reached within the polled distance, and every one but the polled station has its connections relaxed |
| Routing.PollQueued | src/SubwaySystem.java:193-197 | after the poll every reached station not yet settled still has a queue entry at its distance |
| Routing.PollPred | src/SubwaySystem.java:193-197 | settling a station gives it the next position in the settling order and keeps the predecessor links consistent |
| Routing.PollKeeps | src/SubwaySystem.java:192-197 | the least entry's station is reached within the polled distance, exactly at it when not yet settled and already relaxed when settled, and the state is ready for relaxing its connections |
| Routing.Relax | src/SubwaySystem.java:197-205 | after the inner loop every connection of the polled station is relaxed, the invariant holds again, only lowered stations changed, and a stale poll changes nothing |
| Routing.RelaxBegins | src/SubwaySystem.java:197 | the inner loop's invariant holds at its start |
| Routing.RelaxImproves | src/SubwaySystem.java:199-203 | an improving connection updates distance, both predecessor maps and queue while keeping the inner invariant |
| Routing.RelaxSkips | src/SubwaySystem.java:199 | a connection that does not improve keeps the inner invariant |
| Routing.RelaxEnds | src/SubwaySystem.java:197-205 | the inner invariant over all connections gives the relaxation's postconditions |
| Routing.ProgressAfterRelax | src/SubwaySystem.java:199-203 | relaxing the next connection keeps the earlier ones relaxed and every changed distance a strict lowering through the polled station |
| Routing.StaleImprovesNothing | src/SubwaySystem.java:198-199 | a relaxed station polled again with a distance no smaller than its own improves none of its connections |
| Routing.RelaxEdgeKeeps | src/SubwaySystem.java:199-203 | one improving relaxation keeps the state ready for the next connection |
| Routing.DistAfterRelax | src/SubwaySystem.java:200 | an improvement never targets the start, and the distances keep every station with the start at 0 |
| Routing.QueueAfterRelax | src/SubwaySystem.java:200-203 | the queue stays consistent with the lowered distances |
| Routing.RelaxedAfterRelax | src/SubwaySystem.java:199-200 | a lower distance at another station leaves a relaxed station relaxed |
| Routing.SettledAfterRelax | src/SubwaySystem.java:199-200 | an improved station is never a settled one, and settled stations keep their properties |
| Routing.QueuedAfterRelax | src/SubwaySystem.java:203 | every unsettled reached station has a queue entry at its distance after the relaxation |
| Routing.PredAfterRelax | src/SubwaySystem.java:200-202 | recording the polled station as predecessor and the connection's line for an improved target keeps the predecessor links consistent |
| Routing.WalkBound | src/SubwaySystem.java:192-206 | following any walk from a reached station, either its end is reached within the walk's cost or the least queue entry is |
| Routing.Optimal | src/SubwaySystem.java:192-206 | when the end is polled or the queue runs dry, the end is reached exactly when some walk leads there, and then within the cost of every such walk |
| Routing.Backtrack | src/SubwaySystem.java:209-214 | prepending predecessors from the end gives a walk ending at the end, linked through the predecessor maps; for a reached end it starts at the start and costs the end's distance; an unreached end gives [end] |
| Routing.PrependKeeps | src/SubwaySystem.java:212-213 | prepending a predecessor and its connection keeps the path a walk linked through the maps and adds that connection's distance |
| Segments.Extend | src/SubwaySystem.java:282-289 | one more hop grows the last run when it is on the same line, and otherwise starts a new run at the previous station |
| Segments.Runs | src/SubwaySystem.java:278-290 | the runs of the first n hops are non-empty spans within 0..n, and there are none exactly when n is 0 |
| Segments.ExtendPartition | src/SubwaySystem.java:278-290 | one more hop keeps the runs a partition of the path into maximal single-line spans |
| Segments.RunsPartition | src/SubwaySystem.java:278-290 | the loop's runs partition the path into consecutive spans of one arrival line each, neighbouring spans on different lines |
| Segments.RunEnds | src/SubwaySystem.java:282 | a run of a partition ends at the path's end or where the next hop's line differs |
| Segments.RunsAgree | src/SubwaySystem.java:282 | the k-th runs of two partitions of the same path coincide |
| Segments.PartitionUnique | src/SubwaySystem.java:278-290 | a path has only one such partition, so the loop's lines determine it |
| Segments.ExtendAnnounces | src/SubwaySystem.java:282-288 | what the loop prints at one hop keeps the announcements in step with the runs |
| Segments.PrintPath | src/SubwaySystem.java:270-292 | an empty path gives the "not found" text; otherwise the printed events are one ride per run, at the run's first station, with a transfer at that station before every ride but the first, and the returned text is the last station |
| Fare.CalculateFare | src/SubwaySystem.java:300-318 | the fare is at least 2, exactly 2 up to 4 km and more than 2 beyond |
| Fare.FareAtBoundaries | src/SubwaySystem.java:302-313 | the fare is 2, 4, 6, 8 and 9 at 4, 12, 24, 40 and 50 km |
| Fare.FareMonotone | src/SubwaySystem.java:300-318 | the fare never falls as the distance grows |
| Fare.FareContinuousUpToFifty | src/SubwaySystem.java:302-311 | up to 50 km the fare grows by at most a quarter of the extra distance, so it has no jumps there |
| Fare.FareJumpsAtFifty | src/SubwaySystem.java:310-313 | the fare is 9 at 50 km and 10.025 at 50.5 km, a rise of more than a quarter of the extra distance |
| Fare.IntendedFare | src/SubwaySystem.java:300-318 | the corrected fare equals the source's up to 50 km and is 1 less beyond |
| Fare.IntendedFareMonotoneAndContinuous | src/SubwaySystem.java:300-318 | the corrected fare never falls and grows by at most a quarter of the extra distance, so it has no jumps |
| Fare.IntendedFareSlopes | src/SubwaySystem.java:304-313 | each bracket of the corrected fare charges its own rate per extra km: 1/4, 1/6, 1/8, 1/10, 1/20 |

## Left out

- Reading the file: the BufferedReader, `trim`, skipping blank lines, the two lines skipped after a header, and the tab and `---` splitting of a row are not modelled. The loop takes a feed of already split records, `Metro.Record`. Only the header-name rule (`Builder.HeaderName`) is modelled on text.
- Malformed rows are not modelled: a row that does not split into two stations and a distance is skipped by the source, and `Double.parseDouble` may throw. The feed holds only well-formed rows.
- Floating point: distances and fares are exact reals, so rounding, infinities and NaN are not modelled. In particular the final `total = 0` branch of calculateFare, reachable only for NaN, is dead in the model.
- Text output: `printPath`'s printf calls are modelled as a sequence of `Segments.Event` values (ride or transfer), not as formatted strings.
- `String.valueOf(accumulated)` in getNearbyStations: the model keeps the distance as a number inside `Radius.Nearby`.
- HashMap and HashSet iteration order: getNearbyStations visits a station's lines in an unspecified order. `Subway.SubwaySystem.GetNearbyStations` picks each line nondeterministically and returns the visit order as a ghost sequence.
- PriorityQueue tie-breaking: among entries of equal distance, `Routing.FindMin` polls the first. The source's heap may poll any of them. The proved properties do not depend on the choice.
- Subway.SubwaySystem.ParseData requires that the first record of a feed is a header. A row before any header would register the null line in the source.
- Subway.SubwaySystem.ShortestPath requires that every connection leads to a known station, that distances are non-negative, and that start and end are stations of the network unless they are the same name. The source fails with a NullPointerException on the other cases: an unknown start other than end has no adjacency list at line 197, an unknown end with a known start leaves `dist.get(end)` null at line 216, and an unknown target leaves `dist.get(conn.target)` null at line 199. An unknown start that is also the end is polled first, so the source returns the path [end] at distance 0, and so does the model. Negative distances would break Dijkstra's correctness and the model's termination argument. For a parsed network, `Builder.IngestKeepsValid` gives the closure and `Builder.IngestKeepsNonNegative` the non-negative distances.
- Subway.SubwaySystem.GetNearbyStations requires that every line of the station has a stored list containing it and made of known stations. `Builder.ParseIndexed` proves this holds after a feed whose header names are distinct.
- Builder.ParseIndexed: when a header repeats a line name the source overwrites the earlier list, so a station of the earlier block may be missing from its line's list. The lemma is therefore stated only for feeds with distinct header names.
- Segments.PrintPath requires that every station after the first has a recorded arrival line. Otherwise the source fails with a NullPointerException at `line.equals`.
- `Connection` is not defined in SubwaySystem.java. `Metro.Connection` keeps the three fields the class reads: a target, a line and a distance.
- SubwayGUI.java (the Swing front end) and Test.java (the console driver) are not part of this model.

## Findings

| source | as written | input that shows it | evidently intended | confidence | as-written member | corrected member |
|---|---|---|---|---|---|---|
| src/SubwaySystem.java:313 | the bracket above 50 km starts from 10: `10 + (distance - 50) * 0.05` | 50 km costs 9, but 50.5 km costs 10.025: half a kilometre more adds more than a yuan | the bracket continues from the 9 the previous bracket reaches at 50 km: `9 + (distance - 50) * 0.05` | medium, not executed | Fare.FareJumpsAtFifty | Fare.IntendedFareMonotoneAndContinuous |
