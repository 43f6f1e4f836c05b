# Building sweep planner, modelled in Dafny

A building sweep is planned in three steps. First a facility model is built: rooms, exits, corridors and stairs, on one or more floors. Then a team of responders gets the rooms to check, with one ordered list per responder. Last, a simulator replays that assignment to predict when every room is cleared. This project models the core of a Python implementation of that planner in Dafny and proves properties of the model:

- **Facility and responders.** `Facility` covers rooms, their check times, connections and the distance lookup; `Responders` covers responder moves, checks, resets and the team.
- **Three navigation graphs.**
  - `CoarseGraph`: one node per room, exit, corridor and stair.
  - `NodeBased`, with `NodeIds` and `NodeFacts`: room centres, doors, corridor waypoints and stair landings.
  - `Doors` with `DoorFacts`: doors placed on the nearest corridor.

  All three are built on the weighted graph of `Networks`. Their shortest-path service is an oracle, `Networks.PathFinder`, with a stated contract.
- **Five optimizers.**
  - Greedy: `Greedy`, with `Sweep`, `Plans`, `Routes` and `Dealing`. It has the nearest, priority and balanced strategies and the route ordering.
  - Door-graph: `Detailed`.
  - Floor by floor: `TopDown`.
  - Strategy selector: `Smart`.
  - Genetic search: `Genetic`, with `Chromosomes` and `OrderCrossover`.
- **Three simulators.**
  - Coarse: `Simulation`.
  - Node-graph: `NodeSimulation`.
  - Door-graph: `DetailedSimulation`.

  Their shared result format lives in `Outcomes`.

Objects that the program updates in place become classes with `modifies` and `reads` frames. The rooms dictionary, the graphs and the plans are values: `Dicts.Dict` keeps Python's insertion-ordered dictionaries, `seq` stands for lists and `real` for floats. Every loop of the program is a method whose contract ties it to a specification function. Lemmas then prove what the program promises about that function:
- a sort is a permutation;
- every room is dealt out once;
- a plan covers exactly the unchecked rooms;
- crossover and mutation yield permutations;
- the timelines stay in order;
- a run succeeds exactly when every room is on some list;
- each error path (KeyError, ZeroDivisionError, max of an empty sequence) is an `Err` result. It is reached exactly when the program would raise it, except where a walking speed of 0 divides a numpy distance: there the program goes on with an infinite time, and the members concerned are listed under "## Left out".

## Model

| member | source | states |
|---|---|---|
| Common.Max | src/models/responder.py:173-175 | max() of the values: it fails exactly on an empty sequence, and otherwise returns one of the values that is at least every value |
| Common.Midpoint | src/models/building_v2.py:47-49 | the midpoint of a corridor lies halfway between its ends on both axes |
| Common.Below | src/algorithms/genetic.py:204-205 | a raw random draw selects an index below the bound, and every index is selected by the draw equal to it |
| Common.NatToStringInjective | src/models/building.py:288 | different room numbers print differently |
| Common.PrefixedNumbersDistinct | src/models/building.py:286-302 | ids built from a shared prefix and different numbers, such as R1 and R2, are different |
| Dicts.Put | src/models/building.py:80-82 | storing under a key sets that key's value, keeps the old iteration order for a key already present and appends a new key at the end |
| Dicts.Values | src/models/building.py:152-154 | the values list follows the key order, one value per key |
| Dicts.KeyIndex | src/models/building.py:152-154 | every stored key has a position in the iteration order |
| Sorting.SortBy | src/algorithms/greedy.py:106-109 | a sort returns a permutation of its input |
| Sorting.SortSorted | src/algorithms/greedy.py:106-109 | with a total preorder as the comparison, the result of a sort is ordered by it |
| Sorting.SortStable | src/models/graph.py:144 | the sort is stable: the elements sharing any one key come out in the order they went in |
| Facility.Room.CheckTime | src/models/building.py:41-52 | the check time exceeds the base time by exactly rate × area × complexity, so it is at least the base time for a sane room and a non-negative rate |
| Facility.Room.Uncleared | src/models/building.py:164-169 | the reset room is not cleared, has no clearance time and no clearer, and differs from the old room in nothing else |
| Facility.NewRoom | src/models/building.py:13-39 | a new room carries the given id and starts uncleared, with no time and no clearer |
| Facility.CheckTimeExample | src/models/building.py:41-52 | a 16 m² room of complexity 1 with the default base time 10 and rate 1 takes 26 seconds |
| Facility.FirstDistanceMeaning | src/models/building.py:127-150 | the lookup is finite exactly when some connection runs from a to b, and then it is the distance of the first such connection |
| Facility.FirstDistanceStable | src/models/building.py:141-145 | a distance already found is unchanged by appending more connections |
| Facility.FirstDistanceSymmetric | src/models/building.py:113-125 | because connections are added in mirrored pairs, the lookup gives the same answer from a to b as from b to a |
| Facility.PairedAppend | src/models/building.py:113-125 | adding a connection keeps the connection list made of mirrored pairs |
| Facility.FilterRooms | src/models/building.py:156-162 | the filtered list holds exactly the rooms that pass the test, and no more rooms than the input |
| Facility.PriorityKeyIsTotalPreorder | src/algorithms/greedy.py:106-109 | the (-priority, y, x) key comparison is total and transitive, as Python tuple comparison is |
| Facility.SortByPriority | src/algorithms/greedy.py:106-109 | the sorted rooms are a permutation of the input, ordered by (-priority, y, x) |
| Facility.RoomIdsPermute | src/algorithms/greedy.py:106-109 | reordering the rooms reorders their ids: equal multisets of rooms give equal multisets of ids |
| Facility.Building.constructor | src/models/building.py:61-78 | a new building has the given name and floor count, and no rooms, corridors, exits, stairs, connections or cached distances |
| Facility.Building.AddRoom | src/models/building.py:80-82 | the room is stored under its own id; a new id is appended to the key order and an existing one keeps its place |
| Facility.Building.AddExit | src/models/building.py:84-90 | the exit record is stored under its id, keeping dictionary order |
| Facility.Building.AddCorridor | src/models/building.py:92-102 | the corridor record, with its length, is stored under its id, keeping dictionary order |
| Facility.Building.AddStairs | src/models/building.py:104-111 | the stair record is stored under its id, keeping dictionary order |
| Facility.Building.AddConnection | src/models/building.py:113-125 | the connection and its reverse are appended, in that order, and nothing else changes |
| Facility.Building.GetDistance | src/models/building.py:127-150 | the answer is the first matching directed connection's distance or inf; only a found distance for a new pair is added to the cache |
| Facility.Building.GetAllRooms | src/models/building.py:152-154 | one room per key, in dictionary order |
| Facility.Building.GetRoomsByFloor | src/models/building.py:156-158 | exactly the building's rooms on that floor |
| Facility.Building.GetHighPriorityRooms | src/models/building.py:160-162 | exactly the building's rooms of priority 2 or more |
| Facility.Building.ResetClearance | src/models/building.py:164-169 | every room becomes uncleared with no time or clearer, the key order is kept, and nothing else changes |
| Facility.SimpleRoomIdsDistinct | src/models/building.py:284-306 | the generated room ids R1, R2, ... are pairwise different |
| Facility.NewSimpleBuilding | src/models/building.py:263-327 | the two-sided layout yields 2 × (n // 2) rooms, the main corridor, exits E1 and E2 and their connections; any other layout name yields a building with nothing in it |
| Facility.BuildTwoSided | src/models/building.py:278-325 | an empty building receives exactly the two-sided layout |
| Facility.AddSimpleRooms | src/models/building.py:282-306 | the left-side rooms at x = 5 and then the right-side rooms at x = 25 are added in order, each at its spacing along y |
| Facility.AddSimpleSide | src/models/building.py:283-306 | one side's loop adds its rooms after those already in place |
| Facility.SimpleRoomsStep | src/models/building.py:283-306 | the next generated room is new and extends the layout by one |
| Facility.AddSimpleCorridor | src/models/building.py:308-313 | the main corridor runs along x = 15 from 0 to the corridor length, with exit E1 at its start and E2 at its end |
| Facility.AddSimpleConnections | src/models/building.py:315-323 | the connections are the room-to-corridor pairs in room order, then the corridor to E1 and to E2 at distance 0 |
| Facility.ConnectSimpleRooms | src/models/building.py:315-318 | each room is joined to the corridor, in dictionary order |
| Facility.ConnectSimpleRoom | src/models/building.py:315-318 | one pass joins the i-th room to the corridor at distance 12 |
| Facility.SimpleRoomFacts | src/models/building.py:317 | every generated room lies 10 from the corridor's axis, so its connection distance is 12 |
| Facility.SimpleConnectionsStep | src/models/building.py:315-318 | one more room's mirrored pair extends the connection list |
| Facility.NewIdIsNew | src/models/building.py:283-306 | the next generated id is not yet a room |
| Responders.ChronologicalExtend | src/models/responder.py:64-72 | appending an event stamped no earlier than the timeline's entries keeps it in time order |
| Responders.SettledExtend | src/models/responder.py:64-72 | after such an append the newest entry carries the current time |
| Responders.TravelDistanceAppend | src/models/responder.py:113-120 | the distance estimate of a longer timeline adds the new event's travel time times the walking speed |
| Responders.WalkAddsDistance | src/models/responder.py:57-72 | a walking move of d metres adds exactly d to the distance estimate |
| Responders.UntimedEventAddsNothing | src/models/responder.py:113-120 | events without a travel time add nothing to the estimate |
| Responders.TravelDistanceNonNegative | src/models/responder.py:113-120 | with non-negative travel times and speed the estimate is non-negative |
| Responders.Responder.constructor | src/models/responder.py:11-44 | the responder keeps its id, start and speeds, stands at the start with a one-entry path and a start event at time 0, and has checked nothing |
| Responders.Responder.SpeedFor | src/models/responder.py:57-63 | walking speed off the stairs, climbing speed for a positive floor change, descending speed otherwise (a zero change included); positive for a capable responder |
| Responders.Responder.MoveTo | src/models/responder.py:46-72 | the clock advances by distance / speed; the target becomes the position and the end of the path; one arrive event with that travel time is appended; the timeline stays in order |
| Responders.Responder.CheckRoom | src/models/responder.py:75-95 | the clock advances by the room's check time; the room id is recorded; the returned room is the given one cleared now by this responder; one check-complete event is appended |
| Responders.Responder.Reset | src/models/responder.py:97-107 | the responder is back at its start with the initial path, timeline, clock and no checked rooms |
| Responders.Responder.GetTotalDistance | src/models/responder.py:113-120 | the loop's total is the travel-time-times-walking-speed sum over the whole timeline |
| Responders.PaddedPositions | src/models/responder.py:142-147 | no positions give n copies of E1; a short list is kept as a prefix and padded with E1 up to n; a long one is kept whole |
| Responders.CapabilityOr | src/models/responder.py:152-156 | the given capability when present, the default otherwise |
| Responders.TimesOf | src/models/responder.py:173-175 | the current times of the responders, in team order |
| Responders.DistancesOf | src/models/responder.py:177-179 | the distance estimates of the responders, in team order |
| Responders.ResponderTeam.constructor | src/models/responder.py:129-159 | n responders numbered 1..n, responder i starting at padded position i with the given or default capabilities |
| Responders.ResponderTeam.GetResponder | src/models/responder.py:161-166 | found exactly when some responder has the id, and then it is the first such one; otherwise a not-found error |
| Responders.ResponderTeam.NumberedLookup | src/models/responder.py:149-166 | in a team numbered 1..n an id is found exactly when it lies in 1..n, at position id - 1 |
| Responders.ResponderTeam.ResetAll | src/models/responder.py:168-171 | every responder is back at its start |
| Responders.ResponderTeam.GetMaxTime | src/models/responder.py:173-175 | an error for an empty team; otherwise a current time no responder exceeds and some responder has |
| Responders.ResponderTeam.GetTotalDistance | src/models/responder.py:177-179 | the sum of the responders' distance estimates |
| CoarseGraph.AddNodes | src/models/graph.py:27-69 | after adding a list of nodes the graph's nodes are the old ones plus the listed ids; untouched nodes keep their attributes and a listed id carries the attributes of its last occurrence; edges are unchanged |
| CoarseGraph.AddNodesStep | src/models/graph.py:27-69 | one more node write keeps those three facts with one more id |
| CoarseGraph.MapInfos | src/models/graph.py:27-56 | the kind, position and floor of each entry, in dictionary order |
| CoarseGraph.StairLandings | src/models/graph.py:58-69 | one landing per entry of the stair's connects, named after the stair and floor, tagged as a stair at the stair's position |
| CoarseGraph.AllLandings | src/models/graph.py:58-69 | every landing comes from some stair and floor it connects, and every such pair yields a landing |
| CoarseGraph.AllLandingsSnoc | src/models/graph.py:58-69 | the landings of one more stair follow those of the stairs before it |
| CoarseGraph.EdgeStepAdded | src/models/graph.py:72-78 | a connection whose two ends are nodes becomes an edge with its distance |
| CoarseGraph.EdgeStepSkipped | src/models/graph.py:72-78 | a connection with an end that is not a node is dropped and joins no pair of nodes |
| CoarseGraph.AddConnectionEdges | src/models/graph.py:72-78 | the nodes are unchanged and there is an edge exactly where some connection joins two nodes, weighted by the last such connection |
| CoarseGraph.BuildGraph | src/models/graph.py:24-78 | the nodes are the room, exit and corridor ids and the stair landings; a later kind overwrites an earlier one under the same id; the edges come from the connections between nodes |
| CoarseGraph.AddAllNodes | src/models/graph.py:27-69 | the four node loops give exactly the room, exit, corridor and landing nodes, with the overwrite order of the loops and no edges |
| CoarseGraph.AddDictNodes | src/models/graph.py:27-56 | one node loop adds every entry of a dictionary with its attributes and leaves the other nodes alone |
| CoarseGraph.AddLandings | src/models/graph.py:58-69 | the landing loop adds exactly the landing ids, each with one of the landings' attributes |
| CoarseGraph.BuildingGraph.constructor | src/models/graph.py:13-22 | the graph holds exactly the building's rooms, exits, corridors and landings as nodes, an uncontested room keeps its kind, position and floor, and the edges come from the connections |
| CoarseGraph.BuildingGraph.ShortestPath | src/models/graph.py:80-96 | a found path is returned with its length; no path gives ([], inf); an unknown node is an error, not caught |
| CoarseGraph.BuildingGraph.GetRoomNodes | src/models/graph.py:115-118 | exactly the nodes tagged as rooms, each once |
| CoarseGraph.BuildingGraph.GetExitNodes | src/models/graph.py:120-123 | exactly the nodes tagged as exits, each once |
| CoarseGraph.BuildingGraph.GetNodePosition | src/models/graph.py:147-151 | a node's position when it is in the graph, nothing otherwise |
| CoarseGraph.BuildingGraph.IsSameFloor | src/models/graph.py:153-159 | true exactly when both nodes exist and their floors are equal |
| CoarseGraph.BuildingGraph.Reachable | src/models/graph.py:133-138 | exactly the rooms to which a path is found, each with that path's length |
| CoarseGraph.BuildingGraph.GetNearestRooms | src/models/graph.py:125-145 | an unknown node raised by any room's query propagates; otherwise the reachable rooms with their distances, stably sorted ascending, cut to the first n as a Python slice does, and sorted |
| CoarseGraph.DistanceLeIsTotalPreorder | src/models/graph.py:144 | comparing pairs by distance is total and transitive |
| CoarseGraph.SortedPrefix | src/models/graph.py:144-145 | a prefix of a sorted list is sorted |
| CoarseGraph.Slice | src/models/graph.py:145 | the number of entries a Python prefix slice keeps: n capped at the length, or the length plus n for a negative n, not below 0 |
| Placement.Trunc | src/models/node_based_building.py:66 | Python's int() of a float: the integer part toward zero, within one of the value |
| Placement.Lerp | src/models/node_based_building.py:68-69 | the point a fraction t along a segment: the start at 0 and the end at 1 |
| Placement.Eligible | src/models/node_based_building.py:174-175 | exactly the keys, in order, whose entries pass the filter |
| Placement.EligibleAppend | src/models/node_based_building.py:174-175 | filtering a concatenation is concatenating the filtered parts |
| Placement.NearestAmong | src/models/node_based_building.py:171-181 | nothing exactly when there is no candidate; otherwise a candidate with its distance |
| Placement.NearestAmongLeast | src/models/node_based_building.py:171-181 | no candidate is nearer than the chosen one |
| Placement.NearestAmongFirst | src/models/node_based_building.py:179-181 | every candidate before the chosen one is strictly farther, so the strict comparison keeps the first of equally near candidates |
| Placement.NearestStep | src/models/node_based_building.py:174-181 | one more key becomes the best exactly when it passes the filter and is strictly nearer than the best so far |
| Placement.FindNearest | src/models/node_based_building.py:170-181 | the running-minimum loop over a dictionary yields the first nearest entry that passes the filter, or nothing |
| Placement.NearestCorridor | src/models/node_based_building.py:122-137 | nothing exactly when no corridor is on the room's floor; otherwise a corridor on that floor, the nearest by midpoint |
| Placement.DoorSide | src/models/node_based_building.py:139-155 | on a vertical corridor the door is half a room to the left or right of the centre at the same y, otherwise above or below at the same x, on the side where the corridor lies |
| NodeIds.NumberedInjective | src/models/node_based_building.py:70 | an id made of a prefix ending in a non-digit and a number determines both parts |
| NodeIds.WaypointInjective | src/models/node_based_building.py:70 | a waypoint id names its corridor and its index |
| NodeIds.LandingInjective | src/models/node_based_building.py:98 | a landing id names its stair and its floor |
| NodeIds.WaypointNotLanding | src/models/node_based_building.py:70-98 | no waypoint id is a landing id |
| NodeIds.WaypointEndsInDigit | src/models/node_based_building.py:70 | waypoint ids end in a digit |
| NodeIds.LandingEndsInDigit | src/models/node_based_building.py:98 | landing ids end in a digit |
| NodeIds.RoomIdsEndInLetter | src/models/node_based_building.py:33-44 | room centre and door ids end in a letter |
| NodeIds.RoomIdsDistinct | src/models/node_based_building.py:33-44 | different rooms have different centre ids and different door ids, and no centre id is a door id |
| Networks.KindName | src/models/graph.py:115-123 | the room and exit node types are spelled "room" and "exit", and only they |
| Networks.Graph.AddNode | src/models/graph.py:30-37 | a new node goes last, an existing one keeps its place and takes the new attributes, and the edges are untouched |
| Networks.Graph.AddEdge | src/models/graph.py:74-78 | both directions of the pair get the weight and the nodes are untouched |
| Networks.FoundPathFacts | src/models/graph.py:91-94 | with non-negative weights a found path runs from the source to the target through nodes of the graph and has a non-negative length; a missing node is reported exactly when an end is not in the graph |
| Networks.SelfDistanceZero | src/models/graph.py:91-94 | from a node to itself the shortest path has length 0 |
| Networks.NodesOfKind | src/models/graph.py:115-123 | exactly the listed nodes of the kind, in order, without duplicates when the list has none |
| Networks.LastLinkMeaning | src/models/graph.py:72-78 | a pair has a last write exactly when some connection joins it, in either direction, and then it is the distance of a joining connection no later one joins |
| Networks.PutAllLast | src/models/node_based_building.py:29-105 | after a list of node writes a node exists exactly when it existed or was written, and carries its last write's attributes or its old ones |
| Networks.LinkedMeaning | src/models/node_based_building.py:29-232 | after a list of edge writes each pair has the weight of its last write, and a pair no write joins keeps its old weight |
| Networks.LinkedLast | src/models/node_based_building.py:29-232 | a pair some write joins has the last such write's weight, both ways |
| Networks.LinkedFromNothing | src/models/node_based_building.py:29-232 | an edge of a graph built from no edges comes from a write joining its ends, with the last such weight |
| Networks.LinkedOnlyTo | src/models/building_v2.py:92-102 | when every write touching u joins it to r, r is u's only neighbour |
| Networks.LinkedNonNegative | src/models/node_based_building.py:29-232 | writes of non-negative weight keep every weight non-negative |
| NodeBased.CalculateDoorPosition | src/models/node_based_building.py:117-158 | the running-minimum loop over the corridors yields the door position of the door-side rule |
| NodeBased.DoorPositionRule | src/models/node_based_building.py:117-158 | the door lies 2 m from the room centre along one axis; with no corridor on the room's floor it is on the right; otherwise it faces a same-floor corridor whose midpoint is nearest, on the corridor's side |
| NodeBased.Segments | src/models/node_based_building.py:68-82 | the divisor of the waypoint fractions and edge weights is never below 1 |
| NodeBased.StairChainAt | src/models/node_based_building.py:108-115 | the i-th vertical edge of a stair joins the landings of its i-th and (i+1)-th connected floors |
| NodeBased.AddCenters | src/models/node_based_building.py:31-39 | the room loop writes one centre node per room, in dictionary order, and adds no edge |
| NodeBased.AddDoors | src/models/node_based_building.py:41-57 | the door loop writes one door node per room and joins it to the room's centre |
| NodeBased.WaypointNodeStep | src/models/node_based_building.py:67-77 | waypoint i is written at fraction i of the way along the corridor, after waypoints 0..i-1 |
| NodeBased.WaypointEdgeStep | src/models/node_based_building.py:79-83 | waypoint i is joined to waypoint i-1, both ways, with the corridor's share |
| NodeBased.CorridorNodes | src/models/node_based_building.py:61-66 | the corridor's length and its waypoint count int(L) + 1 |
| NodeBased.AddCorridorWaypoints | src/models/node_based_building.py:60-83 | one corridor's loop writes its waypoints and its chain of edges |
| NodeBased.AddWaypoint | src/models/node_based_building.py:67-83 | one pass writes waypoint i and its edge back to waypoint i-1 |
| NodeBased.AddWaypoints | src/models/node_based_building.py:59-83 | the corridor loop writes every corridor's waypoints and chains, corridor by corridor |
| NodeBased.AddExits | src/models/node_based_building.py:85-92 | the exit loop writes one node per exit and adds no edge |
| NodeBased.StairEdgeEnds | src/models/node_based_building.py:108-115 | both ends of each vertical edge are landings of the stair |
| NodeBased.AddStair | src/models/node_based_building.py:95-115 | one stair's landings, then its vertical edges between consecutive connected floors |
| NodeBased.AddLandings | src/models/node_based_building.py:97-105 | one landing node per floor the stair connects, in order |
| NodeBased.AddStairEdges | src/models/node_based_building.py:108-115 | consecutive landings are joined both ways with weight 4 |
| NodeBased.LandingStep | src/models/node_based_building.py:97-105 | one more landing is one more node write |
| NodeBased.StairEdgeStep | src/models/node_based_building.py:108-115 | one more vertical edge sets both directions of that pair to 4 |
| NodeBased.AddStairs | src/models/node_based_building.py:94-115 | the stair loop writes every stair's landings and vertical edges |
| NodeBased.CreateAllNodes | src/models/node_based_building.py:29-115 | the graph's nodes are those of the five node loops in order, and its edges those the loops write, the last write to a pair winning |
| NodeBased.NearestWaypoint | src/models/node_based_building.py:170-181 | nothing exactly when the node's floor has no corridor node; otherwise a corridor node on that floor with its distance |
| NodeBased.NearestWaypointLeast | src/models/node_based_building.py:170-181 | no corridor node on the floor is nearer than the chosen one |
| NodeBased.AttachmentsSnoc | src/models/node_based_building.py:163-184 | one more node of the loop adds its attachment, if any, after the earlier ones |
| NodeBased.Attach | src/models/node_based_building.py:163-184 | one pass adds the edge from the node to its nearest corridor node when the node has the loop's kind and is within reach |
| NodeBased.AttachAll | src/models/node_based_building.py:163-232 | one loop adds the attachments of every node of its kind, in node order, and no node |
| NodeBased.ConnectNodes | src/models/node_based_building.py:160-232 | the door loop (reach 5), the exit loop (no limit) and the landing loop (reach 10) add their edges in that order and no node |
| NodeBased.LocationNode | src/models/node_based_building.py:246-247 | a room id stands for the room's centre node, any other location for itself |
| NodeBased.NodePath | src/models/node_based_building.py:234-254 | ([], []) unless a path is found; a found path comes with the position of each of its nodes, one for one |
| NodeBased.NodeBasedBuilding.constructor | src/models/node_based_building.py:15-27 | the graph holds the nodes the node loops write and the weights both phases write |
| NodeBased.NodeBasedBuilding.GetShortestPath | src/models/node_based_building.py:234-254 | the found path between the nodes the two locations name, with one position per node; ([], []) when no path is found or a node is missing |
| NodeBased.NodeBasedBuilding.GetAllNodesOnFloor | src/models/node_based_building.py:256-262 | exactly the nodes whose floor matches, in node order, with their kind, position and floor |
| NodeFacts.AllWaypointsShape | src/models/node_based_building.py:59-77 | every node the corridor loop writes is a waypoint id tagged as a corridor node |
| NodeFacts.ChainEdgeAt | src/models/node_based_building.py:79-83 | the i-th chain edge joins waypoints i and i+1 with the corridor's share |
| NodeFacts.AllChainsMember | src/models/node_based_building.py:59-83 | every chain edge is edge i of some corridor's chain |
| NodeFacts.ChainLinksWaypoints | src/models/node_based_building.py:79-83 | both ends of every chain edge are waypoint ids |
| NodeFacts.AllStairChainsShape | src/models/node_based_building.py:107-115 | every vertical edge joins the landings of consecutive connected floors of one stair, with weight 4 |
| NodeFacts.AttachmentsShape | src/models/node_based_building.py:163-232 | every edge of a connect loop runs from a node of the loop's kind to a corridor node |
| NodeFacts.ConnectWritesShape | src/models/node_based_building.py:160-232 | every edge _connect_nodes adds runs from a non-corridor node to a corridor node |
| NodeFacts.LastWriteSource | src/models/node_based_building.py:29-105 | every node of the graph carries the attributes of a write of the loop for its kind, and no node is a coarse room node |
| NodeFacts.WriteKinds | src/models/node_based_building.py:29-105 | each node loop writes nodes of its own kind |
| NodeFacts.CorridorNodesAreWaypoints | src/models/node_based_building.py:59-77 | every corridor node of the graph has a waypoint id |
| NodeFacts.LandingsAreStairs | src/models/node_based_building.py:94-105 | every floor a stair connects has a landing node, tagged as a stair, since the stair loop writes last |
| NodeFacts.AttachmentRule | src/models/node_based_building.py:163-232 | an attachment runs from a node of the kind to a corridor node on its floor, is shorter than the reach and no longer than to any corridor node on that floor; such a node with a corridor node in reach gets one |
| NodeFacts.CenterWritten | src/models/node_based_building.py:31-39 | the room loop writes each room's centre at the room's position and floor |
| NodeFacts.DoorWritten | src/models/node_based_building.py:41-52 | the door loop writes each room's door where the door-side rule puts it |
| NodeFacts.LaterWritesMissRoom | src/models/node_based_building.py:59-105 | the corridor, exit and stair loops never write a room's centre or door id unless an exit has that id |
| NodeFacts.CenterNode | src/models/node_based_building.py:31-39 | each room has a centre node at its position and floor, unless an exit with the same id overwrote it |
| NodeFacts.DoorAfterRoomLoops | src/models/node_based_building.py:31-52 | after the two room loops each door carries the door-side position and the room's floor |
| NodeFacts.DoorNodeOf | src/models/node_based_building.py:41-52 | each room has a door node where the door-side rule puts it, unless an exit with the same id overwrote it |
| NodeFacts.OnlyDoorEdgeJoinsRoom | src/models/node_based_building.py:54-57 | no chain, stair or connect edge joins a room's centre and door |
| NodeFacts.WaypointLayout | src/models/node_based_building.py:60-77 | a corridor of length L gets int(L) + 1 waypoints numbered from 0, evenly spread from its start to its end on its floor (one waypoint when L < 1) |
| NodeFacts.WaypointCountBounds | src/models/node_based_building.py:66 | the waypoint count n satisfies n ≤ L + 1 < n + 1 |
| NodeFacts.FractionEnds | src/models/node_based_building.py:68 | the first waypoint lies at fraction 0 and the last, when there are two or more, at fraction 1 |
| NodeFacts.FractionBounds | src/models/node_based_building.py:68 | every waypoint fraction lies between 0 and 1 |
| NodeFacts.ChainLayout | src/models/node_based_building.py:79-83 | the chain joins each waypoint to the next with an edge of length L / max(n - 1, 1) |
| NodeFacts.ChainTotal | src/models/node_based_building.py:79-83 | for a corridor of at least a metre the chain's edges add up to its length |
| NodeFacts.CenterDoorEdge | src/models/node_based_building.py:54-57 | each room's centre and door are joined both ways with weight 2 in the finished graph |
| NodeFacts.DoorEdgeOf | src/models/node_based_building.py:54-57 | some door edge joins a room's centre and door, and every such edge weighs 2 |
| NodeFacts.ConnectionsMissLandings | src/models/node_based_building.py:160-232 | no edge of _connect_nodes ends at a landing |
| NodeFacts.StairEdge | src/models/node_based_building.py:107-115 | the landings of consecutive connected floors are joined both ways with weight 4 in the finished graph |
| NodeFacts.StairLinkFloors | src/models/node_based_building.py:107-115 | a vertical edge between two landings joins consecutive connected floors of one stair |
| NodeFacts.StairEdgesOnly | src/models/node_based_building.py:107-115 | an edge between two landings is a vertical edge of one stair, of weight 4, between consecutive connected floors |
| NodeFacts.OnlyStairsJoinLandings | src/models/node_based_building.py:29-232 | only vertical stair edges join two landings |
| NodeFacts.DoorEdgesMissLandings | src/models/node_based_building.py:54-57 | no door edge touches a landing |
| NodeFacts.ChainsMissLandings | src/models/node_based_building.py:79-83 | no chain edge joins two landings |
| NodeFacts.AllWaypointsFrom | src/models/node_based_building.py:59-77 | every waypoint write is a waypoint of some corridor |
| NodeFacts.WaypointWritten | src/models/node_based_building.py:59-77 | a waypoint's last write is its own: no other corridor reuses its id |
| NodeFacts.WaypointNode | src/models/node_based_building.py:59-77 | each waypoint is a corridor node at its place on the corridor, unless an exit with the same id overwrote it |
| NodeFacts.CorridorChainEdge | src/models/node_based_building.py:79-83 | consecutive waypoints are joined both ways with the corridor's share in the finished graph, unless an exit shares one of their ids |
| NodeFacts.ChainLinksAgree | src/models/node_based_building.py:79-83 | every chain edge joining two consecutive waypoints of a corridor is that corridor's own edge |
| NodeFacts.ChainBackMisses | src/models/node_based_building.py:107-232 | neither a stair edge nor an edge of _connect_nodes joins two consecutive waypoints |
| NodeFacts.ConnectionsMissCorridorPairs | src/models/node_based_building.py:160-232 | no edge of _connect_nodes joins two corridor nodes |
| NodeFacts.ChainsNonNegative | src/models/node_based_building.py:79-83 | chain edges have non-negative weight |
| NodeFacts.AttachmentsNonNegative | src/models/node_based_building.py:163-232 | attachment edges have non-negative weight |
| NodeFacts.BuiltWeightsNonNegative | src/models/node_based_building.py:29-232 | every edge weight of the finished graph is non-negative, as a shortest path search needs |
| NodeFacts.EdgeWeightsNonNegative | src/models/node_based_building.py:29-232 | every weight written by the door, chain, stair and connect phases is non-negative |
| NodeFacts.ShortestPathMeaning | src/models/node_based_building.py:234-254 | given a correct shortest path search, a non-empty result is a shortest walk between the nodes the locations name, and the result is empty exactly when no walk joins them |
| Doors.PlaceDoor | src/models/building_v2.py:35-79 | one pass of finalize_doors replaces the door by its final door and keeps the key order |
| Doors.FinalizeEach | src/models/building_v2.py:33-79 | the loop leaves every door finalized, in place |
| Doors.FinalizeLoop | src/models/building_v2.py:35-79 | after i passes the first i doors are final and the rest untouched |
| Doors.FinalizeStep | src/models/building_v2.py:35-79 | one more pass makes one more door final |
| Doors.FinalizedDoors | src/models/building_v2.py:33-79 | finalizing keeps the door keys, each door's id, room and floor, and replaces each door by its final door |
| Doors.UpdateInOrder | src/models/building_v2.py:35 | an in-order pass that replaces each value by its final one leaves the earlier keys final and the later ones as they were |
| Doors.SameEntries | src/models/building_v2.py:35 | dictionaries with the same key order that agree on each key are the same |
| Doors.PlacedDoors | src/models/building_v2.py:92-93 | exactly the doors that have a position |
| Doors.SegmentCount | src/models/building_v2.py:111 | a corridor is cut into at least two segments |
| Doors.SegmentNodes | src/models/building_v2.py:112-117 | a corridor with n segments gets n + 1 nodes |
| Doors.SegmentEdges | src/models/building_v2.py:119-123 | a corridor with n segments gets n edges |
| Doors.NearestCorridorNodeRule | src/models/building_v2.py:132-142 | the node found is a corridor node on the floor at its distance and none is nearer; nothing is found exactly when the floor has no corridor node |
| Doors.AddRoomNodes | src/models/building_v2.py:87-89 | the room loop writes one room node per room and adds no edge |
| Doors.PlacedStep | src/models/building_v2.py:92-93 | a door with a position is the next of the placed doors |
| Doors.DoorNodeStep | src/models/building_v2.py:93-95 | a placed door's node is written at its position on its floor |
| Doors.DoorEdgeStep | src/models/building_v2.py:97-102 | a placed door's edge to its room is written both ways |
| Doors.AddDoorNode | src/models/building_v2.py:93-102 | one placed door's node and its edge to its room |
| Doors.AddDoorNodes | src/models/building_v2.py:91-102 | the door loop writes the placed doors' nodes and room edges, in door order |
| Doors.DoorPass | src/models/building_v2.py:92-102 | one pass of the door loop adds the door's node and edge when it has a position, and nothing otherwise |
| Doors.SegmentNodeStep | src/models/building_v2.py:112-117 | node i is written at fraction i / n along the corridor |
| Doors.SegmentEdgeStep | src/models/building_v2.py:119-123 | node i is joined to node i - 1, both ways, with weight L / n |
| Doors.AddSegment | src/models/building_v2.py:112-123 | one pass writes node i and its edge back to node i - 1 |
| Doors.AddSegments | src/models/building_v2.py:105-123 | one corridor's nodes and edges |
| Doors.AddAllSegments | src/models/building_v2.py:104-123 | every corridor's nodes and edges, corridor by corridor |
| Doors.SegmentPass | src/models/building_v2.py:105-123 | one pass of the corridor loop adds the k-th corridor's nodes and edges |
| Doors.AddLink | src/models/building_v2.py:130-145 | the edge from a door or exit to its nearest corridor node on its floor, if there is one, and no node |
| Doors.LinkDoor | src/models/building_v2.py:126-145 | one placed door's link |
| Doors.LinkDoors | src/models/building_v2.py:125-145 | the door loop of the linking phase adds the link of each placed door, in door order, all searches seeing the same nodes |
| Doors.AddLinkedExit | src/models/building_v2.py:148-167 | one exit's node, then its link, the search seeing the exits already added |
| Doors.AddLinkedExits | src/models/building_v2.py:147-167 | every exit's node and link, in exit order |
| Doors.AddPlacedNodes | src/models/building_v2.py:85-123 | the room nodes, the placed doors with their room edges, then the corridors' nodes and edges; every placed door is a node |
| Doors.FindNearestCorridor | src/models/building_v2.py:39-54 | the running-minimum loop yields the same-floor corridor of nearest midpoint, the first on a tie |
| Doors.BuildingWithDoors.constructor | src/models/building_v2.py:14-16 | an empty building with the given name and floors and no doors |
| Doors.BuildingWithDoors.AddRoom | src/models/building_v2.py:18-31 | the room is stored as by the base building, and exactly one door named after it is stored without a position on its floor |
| Doors.BuildingWithDoors.FinalizeDoors | src/models/building_v2.py:33-79 | every door replaced in place by its final door, the rest unchanged |
| Doors.BuildingWithDoors.BuildDetailedGraph | src/models/building_v2.py:81-169 | the graph's nodes and weights are exactly those the five phases write |
| DoorFacts.FinalDoorRule | src/models/building_v2.py:33-79 | a door keeps its id, room and floor; with no corridor on its room's floor it is unchanged; otherwise it sits half the room's size from the centre toward a same-floor corridor of nearest midpoint |
| DoorFacts.SegmentCountRule | src/models/building_v2.py:111 | a corridor of length L gets n ≥ 2 segments: 2 below 6 m, and 2n ≤ L < 2n + 2 from 4 m on |
| DoorFacts.SegmentNodesLayout | src/models/building_v2.py:112-117 | the n + 1 corridor nodes are numbered from 0 on the corridor's floor and run from its start to its end |
| DoorFacts.PartEnds | src/models/building_v2.py:113 | fraction 0 at the first node and 1 at the last |
| DoorFacts.SegmentEdgesLayout | src/models/building_v2.py:119-123 | edge i joins node i to node i + 1, and all n edges weigh L / n |
| DoorFacts.SegmentEdgeJoins | src/models/building_v2.py:119-123 | edge i joins nodes i and i + 1 with weight L / n |
| DoorFacts.SegmentTotal | src/models/building_v2.py:119-123 | the edges of a corridor add up to its length |
| DoorFacts.LinkRule | src/models/building_v2.py:130-145 | at most one link, from the door or exit to a same-floor corridor node at the distance between them, none nearer; no link when the floor has no corridor node, and one when it has |
| DoorFacts.FinalizedPlacement | src/models/building_v2.py:56-79 | a door without a position gets one exactly when a corridor lies on its room's floor |
| DoorFacts.DoorIdNotSegment | src/models/building_v2.py:23-115 | a door id is never a corridor node id |
| DoorFacts.DoorNodeInGraph | src/models/building_v2.py:91-95 | the graph has a door node exactly when the door has a position, at that position on the door's floor |
| DoorFacts.DoorLinksShape | src/models/building_v2.py:125-145 | every door link runs from a placed door and is that door's own link |
| DoorFacts.ExitLinksShape | src/models/building_v2.py:147-167 | every exit link runs from an exit to an exit or a corridor node, with non-negative weight for a non-negative norm |
| DoorFacts.RoomDoorEdgeInGraph | src/models/building_v2.py:97-102 | a placed door and its room are joined both ways with weight sqrt(area) / 2, and no later write changes it |
| DoorFacts.RoomEdgesShape | src/models/building_v2.py:97-102 | every room edge joins a placed door to its room with weight sqrt(area) / 2 |
| DoorFacts.DoorLinkInGraph | src/models/building_v2.py:125-145 | a placed door is joined both ways to the nearest corridor node on its floor, at the distance between them, when the floor has one |
| DoorFacts.UnlinkedDoor | src/models/building_v2.py:144-145 | a placed door on a floor without corridor nodes has no edge but the one to its room |
| DoorFacts.SegmentNodeInGraph | src/models/building_v2.py:112-117 | corridor node i is in the graph as the corridor loop wrote it, unless an exit shares its id |
| DoorFacts.SegmentEdgeInGraph | src/models/building_v2.py:119-123 | consecutive corridor nodes are joined both ways with weight L / n, unless an exit shares one of their ids |
| DoorFacts.SegmentEdgesAgree | src/models/building_v2.py:119-123 | every corridor edge joining nodes i and i + 1 of a corridor is that corridor's edge i |
| DoorFacts.LinksMissSegment | src/models/building_v2.py:125-167 | no door or exit link joins two corridor nodes |
| DoorFacts.DetailedWeightsNonNegative | src/models/building_v2.py:81-169 | with a norm and square root that are never negative, every edge weight of the detailed graph is non-negative |
| Sweep.FlattenAppend | src/algorithms/greedy.py:93-95 | appending a room to one responder's list adds exactly that room to the rooms assigned overall |
| Sweep.FlattenSameLists | src/algorithms/greedy.py:189-198 | reordering each responder's list leaves the rooms assigned overall unchanged |
| Sweep.Remove | src/algorithms/greedy.py:95 | removing the picked room shortens the unchecked rooms by one and keeps the others in their order |
| Sweep.Scan | src/algorithms/greedy.py:84-87 | the strict less-than scan keeps its best unless a candidate is strictly nearer |
| Sweep.ScanMeaning | src/algorithms/greedy.py:74-87 | the scan returns a nearest candidate, and the first one among equals |
| Sweep.ScanFromNothing | src/algorithms/greedy.py:74-90 | starting from no best at infinity, nothing is picked iff every distance is infinite, and a pick is finite |
| Sweep.ScanAppend | src/algorithms/greedy.py:78-87 | scanning two blocks in turn is scanning their concatenation, so the nested loops are one scan |
| Sweep.PairCands | src/algorithms/greedy.py:81-82 | every room of the inner loop yields one candidate with its path distance, or the first path error |
| Sweep.ScanRooms | src/algorithms/greedy.py:81-87 | the inner loop over unchecked rooms computes the scan of that responder's candidates or the path error |
| Sweep.AllCandsOk | src/algorithms/greedy.py:78-87 | the outer loop has no error iff every responder-room distance is defined |
| Sweep.AllCandsSound | src/algorithms/greedy.py:78-87 | every candidate the loops consider is a responder, a room and their path distance |
| Sweep.AllCandsComplete | src/algorithms/greedy.py:78-87 | every responder-room pair is considered |
| Sweep.AllCandsOrdered | src/algorithms/greedy.py:78-81 | pairs are considered responder by responder, rooms in iteration order |
| Sweep.NearestPick | src/algorithms/greedy.py:72-95 | the chosen pair has the least finite distance of all pairs and every earlier pair is strictly farther; none is chosen iff all distances are infinite |
| Sweep.EarlierFarther | src/algorithms/greedy.py:84-87 | ties keep the first pair found |
| Plans.Start | src/algorithms/greedy.py:66-70 | a plan starts with empty lists, the initial positions and all rooms unchecked |
| Plans.Assign | src/algorithms/greedy.py:93-95 | assigning removes the room from the unchecked ones and keeps the plan's shape |
| Plans.ArgMin | src/algorithms/greedy.py:141 | the responder with the least estimate, the first one among equals |
| Plans.BalancedNext | src/algorithms/greedy.py:139-170 | one balanced round assigns a room to a responder and shrinks the unchecked rooms |
| Plans.BalancedNextMeaning | src/algorithms/greedy.py:139-170 | the least-loaded responder takes its nearest finite room and its estimate grows by travel plus check time; none is taken iff every room is unreachable from it |
| Plans.AddedNonNegative | src/algorithms/greedy.py:163-170 | the estimate increment is at least the room's check time |
| Plans.AssignAccounts | src/algorithms/greedy.py:93-95 | every room stays either assigned once or unchecked |
| Plans.StartAccounts | src/algorithms/greedy.py:66-67 | at the start every room is unchecked exactly once |
| Plans.AccountsDistinct | src/algorithms/greedy.py:61-97 | no room is assigned twice and assigned rooms are no longer unchecked |
| Plans.NearestRunAccounts | src/algorithms/greedy.py:72-97 | the nearest strategy assigns each room at most once and loses none |
| Plans.NearestRunStops | src/algorithms/greedy.py:89-90 | the nearest strategy stops early only when every remaining room is unreachable from every position |
| Plans.BalancedRunAccounts | src/algorithms/greedy.py:139-172 | the balanced strategy assigns each room at most once and loses none |
| Plans.BalancedRunStops | src/algorithms/greedy.py:154-155 | the balanced strategy stops early only when the least-loaded responder reaches no remaining room |
| Plans.BalancedEstimatesGrow | src/algorithms/greedy.py:136-170 | estimates never decrease |
| Routes.Pick | src/algorithms/greedy.py:194-201 | the nearest unvisited room is one of them |
| Routes.PickMeaning | src/algorithms/greedy.py:194-201 | the pick has the least finite distance, and nothing is picked iff all are unreachable |
| Routes.WalkExtends | src/algorithms/greedy.py:188-210 | the loop only appends to the ordered rooms, and appends every unvisited one |
| Routes.WalkPermutes | src/algorithms/greedy.py:188-210 | the order visits every room exactly once |
| Routes.WalkIsNearestRoute | src/algorithms/greedy.py:190-210 | the order is a nearest-neighbour route followed by the unreachable rest |
| Routes.PathOrderPermutes | src/algorithms/greedy.py:174-212 | _optimize_path_order returns a permutation of its rooms |
| Routes.PathOrderIsNearestRoute | src/algorithms/greedy.py:174-212 | lists of at most one room come back unchanged; longer ones come back as a nearest-neighbour route |
| Routes.WalkTotal | src/algorithms/greedy.py:188-210 | with every distance defined the loop never fails |
| Dealing.Deal | src/algorithms/greedy.py:113-115 | dealing yields one list per responder |
| Dealing.RoundRobin | src/algorithms/greedy.py:113-115 | the round robin fails with ZeroDivision iff there are rooms but no responders |
| Dealing.DealRooms | src/algorithms/greedy.py:113-115 | the enumerate loop computes the round robin |
| Dealing.DealCounts | src/algorithms/greedy.py:113-115 | responder k gets n/N rooms, plus one when k is below the remainder |
| Dealing.DealBalanced | src/algorithms/greedy.py:113-115 | list lengths differ by at most one |
| Dealing.DealMembers | src/algorithms/greedy.py:113-115 | a room goes to responder k iff its index is k modulo the team size |
| Dealing.DealPermutes | src/algorithms/greedy.py:113-115 | every room is dealt exactly once |
| Dealing.DealKeepsOrder | src/algorithms/greedy.py:106-115 | each list keeps the priority order of the sorted rooms |
| Dealing.DealDistinct | src/algorithms/greedy.py:113-115 | no list holds a room twice |
| Greedy.Cycle | src/algorithms/greedy.py:39 | the exits repeated k times: element i is exit i modulo their number |
| Greedy.DefaultPositions | src/algorithms/greedy.py:34-40 | the default starts are the first n exits, or exit i mod the exit count for responder i; with no exit and n > 0 it divides by zero |
| Greedy.GreedyOptimizer.constructor | src/algorithms/greedy.py:15-43 | the team is built from the given positions or the default ones, numbered 1..n, and the graph over the building |
| Greedy.GreedyOptimizer.Create | src/algorithms/greedy.py:34-43 | construction fails with ZeroDivision iff there are neither initial positions nor exits and n > 0 |
| Greedy.GreedyOptimizer.Starts | src/algorithms/greedy.py:68-70 | the responders' initial positions, in id order |
| Greedy.GreedyOptimizer.Paces | src/algorithms/greedy.py:163-170 | each responder's walking speed, base check time and check rate, in id order |
| Greedy.GreedyOptimizer.Optimize | src/algorithms/greedy.py:45-59 | "priority" and "balanced" run their strategies and every other name runs the nearest one |
| Greedy.GreedyOptimizer.GreedyNearest | src/algorithms/greedy.py:61-97 | the method computes the nearest-first plan from the initial positions |
| Greedy.GreedyOptimizer.BestPair | src/algorithms/greedy.py:74-87 | the nested loops pick the first strictly nearest responder-room pair, or the first path error |
| Greedy.GreedyOptimizer.GreedyBalanced | src/algorithms/greedy.py:127-172 | the method computes the balanced plan with every estimate starting at 0 |
| Greedy.GreedyOptimizer.GreedyPriority | src/algorithms/greedy.py:99-125 | the method computes the priority plan |
| Greedy.BalancedSweep | src/algorithms/greedy.py:135-172 | the while loop computes the balanced run from the initial plan |
| Greedy.PrioritySweep | src/algorithms/greedy.py:104-125 | sorting, dealing and ordering compute the priority plan |
| Greedy.OrderList | src/algorithms/greedy.py:117-123 | one pass of the ordering loop orders responder k's list when it is non-empty |
| Greedy.NearestNeighbourOrder | src/algorithms/greedy.py:174-212 | the loop computes the nearest-neighbour order of the rooms |
| Greedy.BalancedPass | src/algorithms/greedy.py:139-170 | one pass of the while loop is one balanced round |
| Greedy.TakeRoom | src/algorithms/greedy.py:156-170 | taking a room divides by the walking speed, so a speed of zero fails with ZeroDivision |
| Greedy.NearestOutcome | src/algorithms/greedy.py:61-97 | no room is assigned twice and only building rooms are assigned; any room left out is unreachable from every responder's last position |
| Greedy.NearestCoversReachable | src/algorithms/greedy.py:61-97 | when every distance is finite, every room is assigned exactly once |
| Greedy.BalancedOutcome | src/algorithms/greedy.py:127-172 | no room is assigned twice and only building rooms are assigned; any room left out is unreachable for the least-loaded responder |
| Greedy.OrderListsMeaning | src/algorithms/greedy.py:117-123 | ordering permutes each list and turns each list of two or more rooms into a nearest-neighbour route from that responder's start |
| Greedy.PriorityOutcome | src/algorithms/greedy.py:99-125 | with no responder the plan divides by zero iff there are rooms; otherwise each share is the round-robin deal of the sorted rooms, reordered, the shares differ by at most one room, every room is assigned once, and longer shares are nearest-neighbour routes |
| Detailed.DetailedQuery | src/algorithms/detailed_optimizer.py:62-69 | a query that never raises: finite with the path length when a path exists, infinite (skipped) when the search raises |
| Detailed.DetailedOptimizer.constructor | src/algorithms/detailed_optimizer.py:14-34 | the detailed graph of the building and doors, then the team from the given or default positions |
| Detailed.DetailedOptimizer.Create | src/algorithms/detailed_optimizer.py:26-34 | construction fails with ZeroDivision iff there are neither initial positions nor exits and n > 0 |
| Detailed.DetailedOptimizer.Starts | src/algorithms/detailed_optimizer.py:51 | the responders' initial positions, in id order |
| Detailed.DetailedOptimizer.Paces | src/algorithms/detailed_optimizer.py:81-84 | each responder's walking speed, base check time and check rate, in id order |
| Detailed.DetailedOptimizer.Optimize | src/algorithms/detailed_optimizer.py:36-43 | "priority" runs the priority plan; every other name runs the balanced one |
| Detailed.DetailedOptimizer.OptimizeBalanced | src/algorithms/detailed_optimizer.py:45-86 | the method computes the balanced run over the detailed query, with every estimate starting at 0 |
| Detailed.DetailedOptimizer.OptimizePriority | src/algorithms/detailed_optimizer.py:88-141 | the method computes the priority plan, with path ordering over the detailed query |
| Detailed.OrderListsTotal | src/algorithms/detailed_optimizer.py:101-107 | with a query that never raises, ordering the lists never fails |
| Detailed.DetailedPriorityFails | src/algorithms/detailed_optimizer.py:88-109 | the priority strategy fails iff there is no responder and at least one room, and then with ZeroDivision |
| Detailed.BalancedRunTotal | src/algorithms/detailed_optimizer.py:53-84 | with a total query and non-zero speeds, the balanced run fails iff the team is empty with rooms left, as min of an empty dict |
| Detailed.OrderEmpty | src/algorithms/detailed_optimizer.py:48 | the set of room ids is empty iff there are no rooms |
| Detailed.DetailedBalancedFails | src/algorithms/detailed_optimizer.py:45-86 | with non-zero speeds, _optimize_balanced fails iff the team is empty and the building has rooms |
| Detailed.DetailedBalancedLeftOut | src/algorithms/detailed_optimizer.py:59-72 | a room left out has no path from the least-loaded responder's last position |
| TopDown.FloorsDesc | src/algorithms/top_down_optimizer.py:74 | the floors n_floors down to 1, none when n_floors < 1 |
| TopDown.OnFloorMembers | src/algorithms/top_down_optimizer.py:79 | the comprehension keeps exactly the rooms on that floor |
| TopDown.BetweenMembers | src/algorithms/top_down_optimizer.py:74-79 | the rooms kept over all floors are exactly those with a floor in 1..n_floors |
| TopDown.TopDownOptimizer.constructor | src/algorithms/top_down_optimizer.py:15-30 | the team is built from the given positions or the default ones, numbered 1..n |
| TopDown.TopDownOptimizer.Create | src/algorithms/top_down_optimizer.py:22-30 | construction fails with ZeroDivision iff there are neither initial positions nor exits and n > 0 |
| TopDown.TopDownOptimizer.Optimize | src/algorithms/top_down_optimizer.py:32-44 | a building of one floor gets the single-floor plan; any other gets the top-down one |
| TopDown.TopDownOptimizer.OptimizeSingleFloor | src/algorithms/top_down_optimizer.py:46-59 | all rooms, sorted by priority, are dealt round robin |
| TopDown.TopDownOptimizer.OptimizeTopDown | src/algorithms/top_down_optimizer.py:61-92 | the rooms are dealt round robin in top-down floor order |
| TopDown.TopDownOptimizer.GetStrategyName | src/algorithms/top_down_optimizer.py:98-100 | "top_down" iff there is more than one floor, else "balanced" |
| TopDown.CollectFloors | src/algorithms/top_down_optimizer.py:77-82 | rooms_by_floor has exactly the floors, each mapped to its rooms sorted by priority |
| TopDown.DealFloors | src/algorithms/top_down_optimizer.py:85-90 | the floor loop deals the whole top-down order round robin with one counter |
| TopDown.DealFloor | src/algorithms/top_down_optimizer.py:86-90 | one floor carries the deal on from the counter, or divides by zero at its first room when the team is empty |
| TopDown.DealShare | src/algorithms/top_down_optimizer.py:87-90 | the counter continues from the rooms already dealt |
| TopDown.SweepOrderAppend | src/algorithms/top_down_optimizer.py:86-87 | visiting two runs of floors in turn is visiting their concatenation |
| TopDown.ZeroDealt | src/algorithms/top_down_optimizer.py:88 | with no responder the first room met divides by zero, so no room came before it |
| TopDown.FloorRoomsMembers | src/algorithms/top_down_optimizer.py:79-82 | a floor's share holds the ids of exactly the rooms on that floor |
| TopDown.SweepOrderMembers | src/algorithms/top_down_optimizer.py:78-90 | the rooms visited are exactly those whose floor is listed |
| TopDown.SweepOrderMultiset | src/algorithms/top_down_optimizer.py:74-90 | the top-down order holds each room of floors 1..n_floors as often as the building does |
| TopDown.BetweenDistinct | src/algorithms/top_down_optimizer.py:79 | picking out rooms keeps their ids distinct |
| TopDown.SweepOrderFloors | src/algorithms/top_down_optimizer.py:74-90 | along the top-down order floors never increase |
| TopDown.KeyedRooms | src/models/building.py:80-82 | the ids of a building's rooms, in dict order, are its keys |
| TopDown.SingleFloorOutcome | src/algorithms/top_down_optimizer.py:46-59 | it fails iff there are rooms and no responder; otherwise every room is dealt exactly once and the shares differ by at most one room |
| TopDown.SweepOrderOfBuilding | src/algorithms/top_down_optimizer.py:74-90 | the top-down order holds each room on floors 1..n_floors once and no other, top floor first |
| TopDown.TopDownOutcome | src/algorithms/top_down_optimizer.py:61-92 | it fails iff there is no responder and some room lies on floors 1..n_floors; otherwise exactly those rooms are assigned, each once, each responder's floors never increase, and shares differ by at most one room |
| Smart.Count | src/algorithms/smart_optimizer.py:55-63 | a filtered count is at most the number of rooms |
| Smart.Ratio | src/algorithms/smart_optimizer.py:56-64 | a ratio is 0 without rooms, lies in [0, 1], and is 0 iff nothing qualifies or there are no rooms |
| Smart.SelectStrategy | src/algorithms/smart_optimizer.py:45-108 | the analysis keeps the stats and picks priority or balanced; priority gives one reason; balanced gives an equal-priority or too-few-high reason, plus a large-building reason above 10 rooms |
| Smart.CountZero | src/algorithms/smart_optimizer.py:77 | a count is zero iff no room qualifies |
| Smart.CountMono | src/algorithms/smart_optimizer.py:55-59 | a stronger condition never counts more rooms |
| Smart.StatsBounds | src/algorithms/smart_optimizer.py:52-106 | critical rooms are among the high-priority ones; every count is bounded by the total and every ratio lies in [0, 1], the critical ratio at most the high one |
| Smart.SelectStrategyIff | src/algorithms/smart_optimizer.py:71-91 | priority is chosen iff some room has priority 3 or more, or more than 30% have priority 2 or more |
| Smart.SelectEmpty | src/algorithms/smart_optimizer.py:56-91 | an empty building gives all-zero stats and balanced for equal priority |
| Smart.SmartOptimizer.constructor | src/algorithms/smart_optimizer.py:16-43 | the analysis comes from the rooms, the selected strategy is priority or balanced, and the greedy optimizer is built with it |
| Smart.SmartOptimizer.Create | src/algorithms/smart_optimizer.py:34-43 | construction fails with ZeroDivision iff there are neither initial positions nor exits and n > 0 |
| Smart.SmartOptimizer.Optimize | src/algorithms/smart_optimizer.py:110-117 | the greedy answer under the selected strategy, which is the priority or the balanced plan |
| Chromosomes.Without | src/algorithms/genetic.py:246 | removing a drawn index from the pool shortens it by one |
| Chromosomes.WithoutFacts | src/algorithms/genetic.py:246 | the drawn index is no longer in the pool, and the pool stays duplicate-free |
| Chromosomes.Picks | src/algorithms/genetic.py:182 | sampling k indices yields k of them |
| Chromosomes.PicksDistinct | src/algorithms/genetic.py:182 | sampled indices are distinct and drawn from the pool |
| Chromosomes.Sample | src/algorithms/genetic.py:182 | random.sample of k from range(n) gives k indices, or ValueError iff k > n |
| Chromosomes.SampleDistinct | src/algorithms/genetic.py:182 | sampled indices are distinct and below n |
| Chromosomes.Swap | src/algorithms/genetic.py:247 | swapping exchanges two positions, keeps every other one and so keeps the genes |
| Chromosomes.FisherYates | src/algorithms/genetic.py:121 | the shuffle steps keep the length and the genes |
| Chromosomes.Shuffle | src/algorithms/genetic.py:121 | random.shuffle permutes the list |
| Chromosomes.InitializePopulation | src/algorithms/genetic.py:109-124 | population_size chromosomes, each a shuffle of the indices 0..R-1 |
| Chromosomes.Mutation | src/algorithms/genetic.py:233-249 | the mutant is a permutation of the chromosome; fewer than two genes raises ValueError |
| Chromosomes.Mutate | src/algorithms/genetic.py:233-249 | the copy-and-swap statements compute the mutation |
| Chromosomes.MutationSwapsTwo | src/algorithms/genetic.py:243-247 | a mutant of a duplicate-free chromosome differs in exactly two positions, which hold each other's genes |
| Chromosomes.RoomAt | src/algorithms/genetic.py:135 | indexing room_ids succeeds iff the gene is within -R..R-1, else IndexError |
| Chromosomes.RoomsOf | src/algorithms/genetic.py:133-135 | every gene names one room |
| Chromosomes.Bounds | src/algorithms/genetic.py:131-134 | the block boundaries start at 0, end at the length, grow, and block k starts at k * per |
| Chromosomes.Decode | src/algorithms/genetic.py:126-137 | decoding gives one list per responder |
| Chromosomes.OwnerBlock | src/algorithms/genetic.py:134 | position i lies in the block of responder min(i // per, n-1) |
| Chromosomes.DealNext | src/algorithms/genetic.py:133-135 | appending position i's room to its owner keeps every list a prefix of its block |
| Chromosomes.ChromosomeToAssignment | src/algorithms/genetic.py:126-137 | the enumerate loop computes the decoding, including its ZeroDivision and IndexError cases |
| Chromosomes.AllDealt | src/algorithms/genetic.py:133-137 | once every position is dealt each list is its whole block |
| Chromosomes.RoomsOfPrefix | src/algorithms/genetic.py:133-135 | the first bad gene fails the whole decoding |
| Chromosomes.RoomsOfInRange | src/algorithms/genetic.py:135 | genes in range name the rooms at those indices |
| Chromosomes.PermutationGenes | src/algorithms/genetic.py:120-121 | a permutation of 0..R-1 holds each index once and only indices in range |
| Chromosomes.DecodeFails | src/algorithms/genetic.py:126-137 | decoding fails iff there is no responder, fewer genes than responders (both ZeroDivision), or a gene out of range |
| Chromosomes.DecodePermutation | src/algorithms/genetic.py:126-137 | a permutation decodes unless there is no responder or fewer rooms than responders, and then with ZeroDivision |
| Chromosomes.BlocksFlatten | src/algorithms/genetic.py:133-135 | consecutive blocks, concatenated, are the stretch they cover |
| Chromosomes.DecodeFlatten | src/algorithms/genetic.py:126-137 | the lists, concatenated in responder order, are the chromosome's rooms in its order |
| Chromosomes.DecodeOwner | src/algorithms/genetic.py:134-135 | position i's room goes to responder min(i // per, n-1) + 1, at its place within that block |
| Chromosomes.DecodeSizes | src/algorithms/genetic.py:131-134 | every responder but the last gets R // n rooms and the last one the remainder |
| OrderCrossover.Placed | src/algorithms/genetic.py:224 | the placed genes are exactly the child's genes other than -1 |
| OrderCrossover.Rotate | src/algorithms/genetic.py:227 | the parent read from start_pos round to start_pos is a permutation of it |
| OrderCrossover.Fill | src/algorithms/genetic.py:221-231 | filling keeps the child's length |
| OrderCrossover.WriteFrom | src/algorithms/genetic.py:229 | writing modulo the length keeps the child's length |
| OrderCrossover.Segment | src/algorithms/genetic.py:208-213 | the new child holds the parent's genes inside the cut and -1 outside |
| OrderCrossover.OxChild | src/algorithms/genetic.py:208-217 | a child has its parent's length |
| OrderCrossover.RandInt | src/algorithms/genetic.py:204-205 | randint gives a value within [lo, hi], or ValueError for an empty range |
| OrderCrossover.Cuts | src/algorithms/genetic.py:201-205 | the cut points satisfy c1 < c2 <= size; an empty parent raises ValueError |
| OrderCrossover.CrossoverOf | src/algorithms/genetic.py:189-219 | two children of the parents' length, or ValueError iff the parents are empty |
| OrderCrossover.FillChild | src/algorithms/genetic.py:221-231 | the loop over the rotated parent writes the child array in place as Fill says |
| OrderCrossover.Crossover | src/algorithms/genetic.py:189-219 | the method computes the crossover for its two draws |
| OrderCrossover.MakeChild | src/algorithms/genetic.py:208-217 | a child is built as the order crossover says |
| OrderCrossover.NewChild | src/algorithms/genetic.py:208-213 | a fresh array holding the parent's slice and -1 elsewhere |
| OrderCrossover.RandIntCovers | src/algorithms/genetic.py:204-205 | every value of the range is drawn by some raw draw |
| OrderCrossover.FillIsWrite | src/algorithms/genetic.py:227-231 | filling writes each unplaced gene once, in rotated order, at consecutive positions |
| OrderCrossover.WriteFromAt | src/algorithms/genetic.py:229 | within one lap the k-th value lands k places past pos and other positions keep their genes |
| OrderCrossover.FreshCounts | src/algorithms/genetic.py:228-230 | the genes written are exactly the ones not yet placed, each once |
| OrderCrossover.PlacedSlice | src/algorithms/genetic.py:212-213 | the placed genes of a new child are those of its parent's slice |
| OrderCrossover.RestOfChild | src/algorithms/genetic.py:216-217 | when the donor permutes the keeper, the genes written are the keeper's genes outside its slice |
| OrderCrossover.WriteLayout | src/algorithms/genetic.py:227-231 | writing from c2 fills c2 to the end and then the start up to c1 |
| OrderCrossover.OxLayout | src/algorithms/genetic.py:208-217 | a child is the keeper's slice in place, with the fresh genes after it, wrapping round |
| OrderCrossover.OxPermutation | src/algorithms/genetic.py:189-231 | a child of two permutations of the same genes is a permutation of them, keeps its slice, and read from c2 holds the donor's other genes in rotated order |
| OrderCrossover.CrossoverPermutation | src/algorithms/genetic.py:189-219 | both children of two permutations of the same genes are permutations of them |
| Genetic.IdMap | src/algorithms/genetic.py:128-135 | the decoded dict maps ids 1..n, and only those, to list id - 1 |
| Genetic.ReportedTimes | src/algorithms/genetic.py:157 | the total time of every responder path, in order |
| Genetic.Fitness | src/algorithms/genetic.py:139-163 | decoding errors propagate; otherwise the fitness is inf exactly when the quick simulation raises |
| Genetic.FitnessSimulated | src/algorithms/genetic.py:149-163 | when the simulation runs, the fitness is its total time (the latest finish of a responder) plus twice the standard deviation of the responders' times; inf exactly when the simulation raises |
| Genetic.EvaluateFitness | src/algorithms/genetic.py:139-163 | the method computes the fitness |
| Genetic.Scores | src/algorithms/genetic.py:73 | each score is that chromosome's fitness, in order |
| Genetic.ScorePopulation | src/algorithms/genetic.py:73 | the comprehension computes the scores, stopping at the first error |
| Genetic.ScoresPrefix | src/algorithms/genetic.py:73 | a failing prefix fails the whole comprehension |
| Genetic.ScoresTotal | src/algorithms/genetic.py:73 | the comprehension succeeds when every fitness does |
| Genetic.ArgMinExt | src/algorithms/genetic.py:76 | np.argmin: the first index of a least score |
| Genetic.Track | src/algorithms/genetic.py:76-81 | the history grows by the new best fitness, which never rises, is at most every score, and belongs to the best chromosome when that changed |
| Genetic.FreshSound | src/algorithms/genetic.py:57-59 | a fresh optimizer has no best, fitness inf and an empty history |
| Genetic.TrackSound | src/algorithms/genetic.py:76-81 | tracking keeps the history non-increasing and ending at the best fitness, with a best chromosome iff the best fitness is finite |
| Genetic.Tournament | src/algorithms/genetic.py:182-184 | a tournament's winner is a member of the population |
| Genetic.ArgMin3 | src/algorithms/genetic.py:183-184 | the winner is one of the three contestants |
| Genetic.ArgMin3IsArgMin | src/algorithms/genetic.py:184 | the winner is np.argmin over the three contestants' scores |
| Genetic.WinnerOf | src/algorithms/genetic.py:180-185 | every tournament's winner is a member index |
| Genetic.Winners | src/algorithms/genetic.py:180-185 | k tournaments select k chromosomes |
| Genetic.Selected | src/algorithms/genetic.py:165-187 | one chromosome per member is selected; ValueError iff the population has one or two members |
| Genetic.Tournaments | src/algorithms/genetic.py:180-187 | the selection loop appends each tournament's winner |
| Genetic.RunTournament | src/algorithms/genetic.py:182-184 | one tournament picks its winner |
| Genetic.Selection | src/algorithms/genetic.py:165-187 | the method computes the selection |
| Genetic.WinnersAt | src/algorithms/genetic.py:185 | the s-th selected chromosome is the winner of tournament s |
| Genetic.SelectedAll | src/algorithms/genetic.py:185 | whatever holds of every member holds of every selected chromosome |
| Genetic.SelectedWinner | src/algorithms/genetic.py:182-185 | each selected chromosome is the first fittest of three distinct members |
| Genetic.MaybeMutated | src/algorithms/genetic.py:97-100 | a child, mutated or not, is a permutation of what it was |
| Genetic.Crossed | src/algorithms/genetic.py:92-95 | the children of a pair have the parents' length |
| Genetic.Children | src/algorithms/genetic.py:88-100 | both children of a pair have one gene per room |
| Genetic.Broods | src/algorithms/genetic.py:88-102 | the loop visits one brood per pair |
| Genetic.BroodsAt | src/algorithms/genetic.py:88-102 | brood p is the children of pair p |
| Genetic.Gather | src/algorithms/genetic.py:102 | two children are gathered per pair |
| Genetic.GatherFails | src/algorithms/genetic.py:88-102 | once a pair raises the loop fails the same way |
| Genetic.GatherAll | src/algorithms/genetic.py:88-102 | the loop succeeds iff every pair does, and whatever holds of every child holds of the new population |
| Genetic.Offspring | src/algorithms/genetic.py:87-102 | two children per pair, each with one gene per room |
| Genetic.Cross | src/algorithms/genetic.py:92-95 | the method computes the crossover step |
| Genetic.MaybeMutate | src/algorithms/genetic.py:97-100 | the method computes the mutation step |
| Genetic.BreedPair | src/algorithms/genetic.py:89-102 | one pass of the pair loop computes that pair's children |
| Genetic.Breed | src/algorithms/genetic.py:87-102 | the pair loop computes the offspring |
| Genetic.Truncated | src/algorithms/genetic.py:104 | the next population is cut to population_size |
| Genetic.Reproduce | src/algorithms/genetic.py:83-104 | selection, breeding and truncation compute the next population |
| Genetic.Bred | src/algorithms/genetic.py:83-104 | every chromosome bred has one gene per room |
| Genetic.Generation | src/algorithms/genetic.py:71-104 | a generation keeps one gene per room |
| Genetic.GenerationStepRuns | src/algorithms/genetic.py:71-104 | the loop step runs a generation on every population of the right shape |
| Genetic.FirstPopulation | src/algorithms/genetic.py:109-124 | population_size shuffles of the room indices, each with one gene per room |
| Genetic.GeneticOptimizer.constructor | src/algorithms/genetic.py:17-59 | the settings, the team, the coarse graph, the quick simulation over them, the room ids in dict order, no best, fitness inf and an empty history |
| Genetic.GeneticOptimizer.Create | src/algorithms/genetic.py:45-54 | construction fails with ZeroDivision iff there are neither initial positions nor exits and n > 0 |
| Genetic.GeneticOptimizer.Advance | src/algorithms/genetic.py:71-104 | one generation updates the fields and yields the next population |
| Genetic.GeneticOptimizer.Optimize | src/algorithms/genetic.py:61-107 | the fields end as the generations leave them; a generation's error is raised, and otherwise the best chromosome is decoded |
| Genetic.GeneticOptimizer.Evolution | src/algorithms/genetic.py:71-104 | the generation loop runs the generations in turn |
| Genetic.GenerationSound | src/algorithms/genetic.py:71-104 | a generation keeps the fields sound |
| Genetic.GenerationHistory | src/algorithms/genetic.py:73-81 | a generation leaves the fields alone or appends the new best fitness; one that completes always appends; the best never rises |
| Genetic.EvolveKeeps | src/algorithms/genetic.py:71-104 | what every step keeps, the whole run keeps |
| Genetic.EvolveOnce | src/algorithms/genetic.py:71 | a run is its first step followed by the rest |
| Genetic.EvolveHistory | src/algorithms/genetic.py:71-104 | the history keeps its prefix and grows by at most one entry per generation, exactly one when none fails; the best never rises |
| Genetic.StepSound | src/algorithms/genetic.py:71-104 | the generation step keeps the fields sound |
| Genetic.StepExtends | src/algorithms/genetic.py:71-104 | the generation step extends the history as described |
| Genetic.StepPermutations | src/algorithms/genetic.py:83-104 | the generation step turns permutations into permutations |
| Genetic.RunFacts | src/algorithms/genetic.py:61-104 | after the run the history has one entry per generation run, generations when none fails, never rises, and the population is still made of permutations |
| Genetic.AnswerNoSolution | src/algorithms/genetic.py:107 | decoding the best fails for want of a chromosome iff no chromosome ever scored below inf |
| Genetic.GenerationSize | src/algorithms/genetic.py:87-104 | a completed generation leaves min(population_size, 2 * ceil(len / 2)) chromosomes |
| Genetic.ChildrenPermutations | src/algorithms/genetic.py:92-100 | crossover and mutation keep chromosomes permutations |
| Genetic.OffspringPermutations | src/algorithms/genetic.py:87-102 | every child of the pair loop is a permutation |
| Genetic.GenerationPermutations | src/algorithms/genetic.py:71-104 | every generation is made of permutations of the room indices |
| Genetic.BredPermutations | src/algorithms/genetic.py:83-104 | selection and breeding keep every chromosome a permutation |
| Genetic.ScoresOfPermutations | src/algorithms/genetic.py:73 | scoring permutations fails iff there are chromosomes and either no responder or fewer rooms than responders, with ZeroDivision |
| Genetic.FirstPermutations | src/algorithms/genetic.py:109-124 | the first population is made of permutations of the room indices |
| Outcomes.StartOf | src/models/responder.py:97-107 | after reset a responder has checked nothing, its clock is 0 and its timeline is settled |
| Outcomes.StatesOf | src/algorithms/simulator.py:80-88 | the state of every responder, in team order |
| Outcomes.StartState | src/models/responder.py:97-107 | a reset responder is in its start state |
| Outcomes.Cleared | src/models/responder.py:89-92 | checking marks the room cleared at that time by that responder |
| Outcomes.Store | src/models/responder.py:89-92 | a room changed in place keeps the dict's keys and their order |
| Outcomes.ResetRooms | src/models/building.py:164-169 | reset_clearance keeps every key and unclears every room |
| Outcomes.ClearsNothing | src/algorithms/simulator.py:59 | a sweep that checks nothing clears nothing |
| Outcomes.ClearsOneMore | src/models/responder.py:75-95 | checking one more room of the dict clears it too |
| Outcomes.ClearsThen | src/algorithms/simulator.py:42-43 | two sweeps in a row clear what either checked |
| Outcomes.JoinClears | src/algorithms/simulator.py:59-74 | the first room of a list and then the rest clear what they checked together |
| Outcomes.RunTeam | src/algorithms/simulator.py:42-43 | a team run has one final state per responder |
| Outcomes.Prepend | src/algorithms/simulator.py:42-43 | finished responders' states go in front of the rest's, and errors pass through |
| Outcomes.RunTeamNeedsIds | src/algorithms/simulator.py:43 | a run that gets through found every responder's id in the assignment |
| Outcomes.AllCheckedMembers | src/algorithms/simulator.py:112-113 | a room is among the team's checks iff some responder checked it |
| Outcomes.RunTeamClears | src/algorithms/simulator.py:37-43 | over the whole team every checked id is a room, and a room ends cleared iff it was before or someone checked it |
| Outcomes.ClearedByRun | src/algorithms/simulator.py:37-43 | after a run from reset rooms a room is cleared iff some responder checked it |
| Outcomes.ClearanceTable | src/algorithms/simulator.py:91-97 | room_clearance has the rooms' keys in order, each with its cleared, cleared_at and cleared_by |
| Outcomes.BuildClearanceTable | src/algorithms/simulator.py:91-97 | the loop builds the table |
| Outcomes.AllCleared | src/algorithms/simulator.py:101 | true iff every room is cleared |
| Outcomes.ClearanceTimes | src/algorithms/simulator.py:103-104 | at most one clearance time per room |
| Outcomes.ClearanceTimesMeaning | src/algorithms/simulator.py:103-104 | the list holds exactly the clearance times the rooms have |
| Outcomes.MeanBetween | src/algorithms/simulator.py:105 | a mean lies between any bounds of its terms |
| Outcomes.AverageClearanceBetween | src/algorithms/simulator.py:103-105 | the average clearance time lies within any bounds of the clearance times that include 0 |
| Outcomes.LoadBalance | src/algorithms/simulator.py:107-108 | 1.0 for an empty team; with a zero mean the unguarded form is not a number and the guarded one is 1.0 |
| Outcomes.LoadBalanceOne | src/algorithms/simulator.py:108 | with a usable mean, the balance is 1 iff the times do not spread |
| Outcomes.Times | src/algorithms/simulator.py:107 | each responder's current time, in order |
| Outcomes.StatesAre | src/algorithms/simulator.py:80-88 | states read one by one are the team's states |
| Outcomes.ResetRoomsIs | src/models/building.py:164-169 | the reset in place gives the reset dict |
| Outcomes.Estimates | src/algorithms/node_simulator.py:137 | the distance estimate is the time at the walking speed |
| Outcomes.ReportDistances | src/algorithms/simulator.py:87 | the total_distance of each report |
| Outcomes.TimesAgree | src/models/responder.py:173-175 | the team's times are the responders' current times |
| Outcomes.DistinctCount | src/algorithms/simulator.py:115 | a duplicate-free list has as many elements as its set |
| Simulation.ExecuteCons | src/algorithms/simulator.py:59-74 | the loop handles its rooms one at a time and the first error ends it |
| Simulation.DistancesNonNegative | src/models/graph.py:80-96 | shortest path lengths on the coarse graph are never negative |
| Simulation.VisitSkips | src/algorithms/simulator.py:63-65 | a room without a path is skipped and changes nothing |
| Simulation.VisitChecks | src/algorithms/simulator.py:61-74 | a reachable room is visited iff the walking speed is non-zero and the room exists; the responder walks the path length, checks the room, and gets an arrive event and then a check_complete event |
| Simulation.VisitFound | src/algorithms/simulator.py:61-74 | a visit is move_to followed by check_room, and it marks the room cleared by that responder at the finish time |
| Simulation.VisitClears | src/algorithms/simulator.py:59-74 | a visit checks at most that room, always when it is reachable, and clears what it checks |
| Simulation.VisitTimeline | src/algorithms/simulator.py:59-74 | with sane inputs the timeline stays in order and the clock never goes back |
| Simulation.ExecuteClears | src/algorithms/simulator.py:49-74 | the sweep checks only rooms of its list, at most one per entry, and clears exactly those |
| Simulation.ExecuteVisitsAll | src/algorithms/simulator.py:59-74 | when every location is connected the sweep checks its whole list in order |
| Simulation.ExecuteTimeline | src/algorithms/simulator.py:49-74 | the sweep keeps the timeline in order, and the clock never goes back |
| Simulation.ExecuteAtPosition | src/algorithms/simulator.py:57-74 | the routing location is always the responder's position |
| Simulation.Reports | src/algorithms/simulator.py:79-88 | one report per responder |
| Simulation.Distances | src/algorithms/simulator.py:87 | one distance per responder |
| Simulation.Tally | src/algorithms/simulator.py:111-114 | the room counts form a well-formed dict |
| Simulation.Bump | src/algorithms/simulator.py:114 | get(id, 0) + 1 raises one count and leaves the others |
| Simulation.TallyCounts | src/algorithms/simulator.py:111-114 | the counts hold exactly the checked rooms, each with its number of checks |
| Simulation.TallySnoc | src/algorithms/simulator.py:113-114 | counting one more check bumps its room |
| Simulation.RepeatedCount | src/algorithms/simulator.py:115 | the sum counts the rooms counted more than once |
| Simulation.TallyRepeated | src/algorithms/simulator.py:111-115 | the rooms counted more than once are the rooms checked more than once |
| Simulation.RedundancyBounds | src/algorithms/simulator.py:115 | when every checked id is a room the redundancy lies in [0, 1] |
| Simulation.MetricsOf | src/algorithms/simulator.py:99-129 | the metrics fail iff the building has no rooms, with ZeroDivision |
| Simulation.Collect | src/algorithms/simulator.py:76-133 | collecting fails iff the team is empty (max of nothing) or the building has no rooms (ZeroDivision) |
| Simulation.MetricsIs | src/algorithms/simulator.py:99-129 | the metrics are those its loops assemble |
| Simulation.CollectMeaning | src/algorithms/simulator.py:76-133 | success iff every room is cleared; the total time is the latest responder's; the redundancy is the share of rooms checked more than once and lies in [0, 1]; the counts are the team and room sizes |
| Simulation.RunMeaning | src/algorithms/simulator.py:30-47 | a run gets through only when every responder's id is in the assignment; it then keeps the room keys and fails only on an empty team or building |
| Simulation.RunSuccess | src/algorithms/simulator.py:30-133 | success iff every room was checked by some responder, and the redundancy lies in [0, 1] |
| Simulation.ReportAll | src/algorithms/simulator.py:79-88 | the loop builds the reports |
| Simulation.DistancesAgree | src/algorithms/simulator.py:127 | the team's total distance adds up the reported distances |
| Simulation.CountChecks | src/algorithms/simulator.py:111-114 | the nested loop counts every check of every responder |
| Simulation.CountInto | src/algorithms/simulator.py:113-114 | the inner loop adds one responder's checks to the counts |
| Simulation.SweepExecClears | src/algorithms/simulator.py:49-74 | every sweep on a coarse graph clears exactly what it checks |
| Simulation.SweepOutcome | src/algorithms/simulator.py:136-151 | run_quick reports the run's error, and otherwise the latest responder's finishing time as its total time |
| Simulation.Simulator.constructor | src/algorithms/simulator.py:15-28 | the simulator keeps the building, team and assignment and builds the coarse graph from the connections |
| Simulation.Simulator.ExecutorClears | src/algorithms/simulator.py:49-74 | every sweep the simulator performs clears what it checks |
| Simulation.Simulator.OutcomeMeaning | src/algorithms/simulator.py:30-133 | run fails if a responder's id is missing; a finished sweep fails only on an empty team or building; success means every room was checked by someone, and the redundancy lies in [0, 1] |
| Simulation.Simulator.VisitRoom | src/algorithms/simulator.py:60-74 | one iteration updates the responder and the rooms as a visit says |
| Simulation.Simulator.OutcomeOfRun | src/algorithms/simulator.py:37-47 | run is collect applied to the finished sweep |
| Simulation.Simulator.ExecutePath | src/algorithms/simulator.py:49-74 | the loop leaves the responder and the rooms as the sweep says, or raises its error |
| Simulation.Simulator.SweepOne | src/algorithms/simulator.py:42-43 | one responder's turn sweeps its list, or raises KeyError when its id is missing |
| Simulation.Simulator.SweepAll | src/algorithms/simulator.py:42-43 | the loop over the team leaves rooms and responders as the team run says |
| Simulation.Simulator.ResetForRun | src/algorithms/simulator.py:37-39 | every room is uncleared and every responder is back at its start |
| Simulation.Simulator.Run | src/algorithms/simulator.py:30-47 | run returns the outcome of the reset rooms and leaves rooms and responders as the run describes |
| Simulation.Simulator.CollectResults | src/algorithms/simulator.py:76-133 | collects the current state |
| Simulation.Simulator.CollectMetrics | src/algorithms/simulator.py:99-129 | the metrics block computes the metrics of the current state |
| NodeSimulation.HopSpeed | src/algorithms/node_simulator.py:56-69 | stair-to-stair hops use the up speed when the target floor is higher and the down speed otherwise; every other hop uses the walking speed; a capable responder's speed is positive |
| NodeSimulation.NodeType | src/algorithms/node_simulator.py:57-75 | a node's type name, "unknown" for a location that is not a node |
| NodeSimulation.HopsFail | src/algorithms/node_simulator.py:47-76 | the hop loop raises iff some hop along an edge has speed 0, with ZeroDivision |
| NodeSimulation.HopsKeep | src/algorithms/node_simulator.py:47-76 | the hops change only the clock and the timeline, which they extend by passing events |
| NodeSimulation.HopsTimeline | src/algorithms/node_simulator.py:47-76 | with positive speeds and no negative weights the hops never fail, keep the timeline in order and never turn the clock back |
| NodeSimulation.HopsWalkTime | src/algorithms/node_simulator.py:47-69 | along a walk without stair hops the time taken is the walk's length at the walking speed |
| NodeSimulation.NodeExecuteCons | src/algorithms/node_simulator.py:37-103 | the loop handles its rooms one at a time and the first error ends it |
| NodeSimulation.NodeVisitSkips | src/algorithms/node_simulator.py:41-43 | a room without a node path is skipped and changes nothing |
| NodeSimulation.NodeVisitChecks | src/algorithms/node_simulator.py:39-103 | a visit succeeds iff the hops do and the room exists; the responder stands at the room's centre, keeps its path, checks the room and gets an arrive and a check_complete event |
| NodeSimulation.NodeVisitFound | src/algorithms/node_simulator.py:78-103 | a visit that gets through: arrive at the centre, add the check time, clear the room, append the events |
| NodeSimulation.NodeVisitClears | src/algorithms/node_simulator.py:37-103 | a visit checks the room iff it has a node path, and clears what it checks |
| NodeSimulation.NodeVisitTimeline | src/algorithms/node_simulator.py:37-103 | with sane inputs a visit to a room of the building never fails, keeps the timeline in order and never turns the clock back |
| NodeSimulation.NodeVisitWalkTime | src/algorithms/node_simulator.py:39-84 | without stair hops the responder arrives after the shortest path length at the walking speed |
| NodeSimulation.NodeExecuteClears | src/algorithms/node_simulator.py:33-103 | the sweep checks only rooms of its list, at most one per entry, and clears exactly those |
| NodeSimulation.NodeExecuteVisitsAll | src/algorithms/node_simulator.py:37-103 | when every two locations are joined the sweep checks its whole list in order |
| NodeSimulation.NodeExecuteTimeline | src/algorithms/node_simulator.py:33-103 | with sane inputs the sweep fails only on an id that is not a room, keeps the timeline in order, and never turns the clock back |
| NodeSimulation.NodeExecuteKeepsPath | src/algorithms/node_simulator.py:106 | the node sweep never changes the responder's path |
| NodeSimulation.Trail | src/algorithms/node_simulator.py:111-123 | the rebuilt nodes and positions match one for one, and each position is its node's |
| NodeSimulation.TrailCons | src/algorithms/node_simulator.py:115-120 | each leg is appended when found and skipped otherwise, and the next leg starts from the last room reached |
| NodeSimulation.TrailGrows | src/algorithms/node_simulator.py:115-120 | one loop step extends the path built so far |
| NodeSimulation.TrailLegs | src/algorithms/node_simulator.py:111-123 | when all locations are joined, the rebuilt path is the leg to the first room followed by the rest, and it ends at the last room |
| NodeSimulation.NodeReports | src/algorithms/node_simulator.py:127-138 | each report carries the rebuilt path and the time-times-speed distance estimate |
| NodeSimulation.NodeCollect | src/algorithms/node_simulator.py:125-174 | collecting fails iff the team is empty (max of nothing) |
| NodeSimulation.NodeCollectMeaning | src/algorithms/node_simulator.py:125-174 | success iff every room is cleared; total time is the latest responder's; reports carry the rebuilt paths and estimates; the load balance is a number (1 for a zero mean); redundancy is 0 |
| NodeSimulation.ReportDistancesAre | src/algorithms/node_simulator.py:168 | the total distance adds up the per-report estimates |
| NodeSimulation.TrailsOf | src/algorithms/node_simulator.py:132-133 | each responder's rebuilt nodes and positions |
| NodeSimulation.Trails | src/algorithms/node_simulator.py:111-123 | each responder's trail from its start through the rooms it checked |
| NodeSimulation.TrailsAre | src/algorithms/node_simulator.py:122-123 | the stored trails are those rebuilt from the checked rooms |
| NodeSimulation.ReportAll | src/algorithms/node_simulator.py:127-138 | the loop builds the reports |
| NodeSimulation.NodeSimulator.constructor | src/algorithms/node_simulator.py:13-17 | the simulator keeps the building, the node building, the team and the assignment |
| NodeSimulation.NodeSimulator.ExecutorClears | src/algorithms/node_simulator.py:33-103 | every sweep the simulator performs clears what it checks |
| NodeSimulation.NodeSimulator.OutcomeOfRun | src/algorithms/node_simulator.py:19-31 | run is collect applied to the finished sweep and its trails |
| NodeSimulation.NodeSimulator.OutcomeMeaning | src/algorithms/node_simulator.py:19-174 | run needs every responder's id; it fails iff the sweep fails or the team is empty; success means every room was checked by someone; each report carries its rebuilt trail; redundancy is 0 |
| NodeSimulation.NodeSimulator.WalkRoute | src/algorithms/node_simulator.py:47-76 | the hop loop updates the responder as the hops say |
| NodeSimulation.NodeSimulator.VisitRoom | src/algorithms/node_simulator.py:39-103 | one iteration updates the responder and the rooms as a visit says |
| NodeSimulation.NodeSimulator.ArriveAndCheck | src/algorithms/node_simulator.py:78-101 | the responder is placed at the centre and checks and clears the room |
| NodeSimulation.NodeSimulator.RebuildTrail | src/algorithms/node_simulator.py:107-123 | the reconstruction loop stores the trail through the checked rooms |
| NodeSimulation.NodeSimulator.ExecuteNodePath | src/algorithms/node_simulator.py:33-123 | the loop leaves responder, rooms and trail as the sweep says, or raises its error |
| NodeSimulation.NodeSimulator.SweepOne | src/algorithms/node_simulator.py:26-27 | one responder's turn sweeps its list, or raises KeyError when its id is missing |
| NodeSimulation.NodeSimulator.ExecutePath | src/algorithms/node_simulator.py:27 | one responder from its start state sweeps as the executor says |
| NodeSimulation.NodeSimulator.SweepAll | src/algorithms/node_simulator.py:26-27 | the loop over the team leaves rooms, responders and trails as the team run says |
| NodeSimulation.NodeSimulator.ResetForRun | src/algorithms/node_simulator.py:22-23 | every room is uncleared and every responder is back at its start |
| NodeSimulation.NodeSimulator.Run | src/algorithms/node_simulator.py:19-31 | run returns the outcome of the reset rooms and leaves rooms and responders as the run describes |
| NodeSimulation.NodeSimulator.ResetAndSweep | src/algorithms/node_simulator.py:21-27 | resetting and sweeping leave the state the run describes |
| NodeSimulation.NodeSimulator.CollectResults | src/algorithms/node_simulator.py:125-174 | collects the current state |
| DetailedSimulation.DoorRouteShortest | src/algorithms/detailed_simulator.py:41-54 | without the door or the current location in the graph the route is the direct pair; when the door is reachable, the route is a shortest walk to it |
| DetailedSimulation.HopLength | src/algorithms/detailed_simulator.py:61-64 | a hop is the edge weight, or 1 when the nodes are not joined |
| DetailedSimulation.HopsOutcome | src/algorithms/detailed_simulator.py:57-76 | the hops get through iff there are none, or the speed is non-zero and every later node is in the graph; otherwise KeyError or ZeroDivision; they append the route to the path and one passing event per hop |
| DetailedSimulation.HopsStamps | src/algorithms/detailed_simulator.py:66-76 | with a positive speed and no negative weights the timeline stays in order and the clock never goes back |
| DetailedSimulation.HopsWalkTime | src/algorithms/detailed_simulator.py:57-76 | along a walk of the graph the hops take its length at the walking speed |
| DetailedSimulation.DoorToCenter | src/algorithms/detailed_simulator.py:79-82 | the step to the centre fails iff it is taken at speed 0; with a positive speed it never turns the clock back |
| DetailedSimulation.DoorExecuteCons | src/algorithms/detailed_simulator.py:39-110 | the loop handles its rooms one at a time and the first error ends it |
| DetailedSimulation.DoorVisitChecks | src/algorithms/detailed_simulator.py:39-110 | a visit succeeds iff the hops and the step to the centre do and the room exists; the responder stands in the room, the path gains the route, and the timeline gains arrive_room and check_complete |
| DetailedSimulation.DoorVisitFound | src/algorithms/detailed_simulator.py:84-110 | a visit that gets through, step by step |
| DetailedSimulation.DoorVisitClears | src/algorithms/detailed_simulator.py:93-100 | a visit checks exactly its room and clears it |
| DetailedSimulation.DoorVisitTimeline | src/algorithms/detailed_simulator.py:39-110 | with sane inputs a visit fails only if the room is missing or a route node is not in the graph; the timeline stays in order and the clock never goes back |
| DetailedSimulation.DoorVisitArrival | src/algorithms/detailed_simulator.py:44-90 | with a reachable door, the responder arrives after the shortest distance to the door plus the step to the centre |
| DetailedSimulation.DoorExecuteClears | src/algorithms/detailed_simulator.py:35-110 | a sweep that gets through checks its whole list in order and clears exactly those rooms |
| DetailedSimulation.DoorExecuteTimeline | src/algorithms/detailed_simulator.py:35-110 | the sweep keeps the timeline in order, and the clock never goes back |
| DetailedSimulation.DoorExecuteExtendsPath | src/algorithms/detailed_simulator.py:67 | the path only grows |
| DetailedSimulation.SimplifiedMeaning | src/algorithms/detailed_simulator.py:117-122 | the simplified path holds exactly the room, exit and start locations of the path, and no more entries |
| DetailedSimulation.GraphTrail | src/algorithms/detailed_simulator.py:125-131 | nodes and positions match one for one, each position its node's |
| DetailedSimulation.GraphTrailMeaning | src/algorithms/detailed_simulator.py:125-131 | the detailed path holds exactly the path's locations that are nodes |
| DetailedSimulation.DoorReports | src/algorithms/detailed_simulator.py:114-142 | one report per responder |
| DetailedSimulation.DoorCollect | src/algorithms/detailed_simulator.py:112-180 | collecting fails iff the team is empty (max of nothing) |
| DetailedSimulation.DoorCollectMeaning | src/algorithms/detailed_simulator.py:112-180 | success iff every room is cleared; the total time is the latest responder's; reports carry the simplified and detailed paths and the estimate; the load balance is not a number iff the mean time is 0; redundancy is 0 |
| DetailedSimulation.ReportsAre | src/algorithms/detailed_simulator.py:133-142 | each report is that responder's |
| DetailedSimulation.DoorDistancesAre | src/algorithms/detailed_simulator.py:174 | the total distance adds up the per-report estimates |
| DetailedSimulation.SimplifyPath | src/algorithms/detailed_simulator.py:117-122 | the loop builds the simplified path |
| DetailedSimulation.TracePath | src/algorithms/detailed_simulator.py:125-131 | the loop builds the detailed path and positions |
| DetailedSimulation.ReportAll | src/algorithms/detailed_simulator.py:114-142 | the loop builds the reports |
| DetailedSimulation.ReportOf | src/algorithms/detailed_simulator.py:116-142 | one responder's report |
| DetailedSimulation.DoorsStay | src/models/building_v2.py:18-31 | clearing or resetting rooms keeps their doors attached |
| DetailedSimulation.ListsCover | src/algorithms/detailed_simulator.py:155 | when each responder checked exactly its list, all rooms are cleared iff every room is on some list |
| DetailedSimulation.DetailedSimulator.constructor | src/algorithms/detailed_simulator.py:13-19 | the simulator keeps its inputs and builds the detailed graph of the building and doors |
| DetailedSimulation.DetailedSimulator.ExecutorClears | src/algorithms/detailed_simulator.py:35-110 | every sweep the simulator performs clears what it checks |
| DetailedSimulation.DetailedSimulator.OutcomeOfRun | src/algorithms/detailed_simulator.py:21-33 | run is collect applied to the finished sweep |
| DetailedSimulation.DetailedSimulator.OutcomeMeaning | src/algorithms/detailed_simulator.py:21-180 | a run that gets through checked exactly each responder's list; run fails iff a sweep fails or the team is empty; success iff every room is on some responder's list; redundancy is 0 |
| DetailedSimulation.DetailedSimulator.RunTeamChecksLists | src/algorithms/detailed_simulator.py:28-29 | every responder of a completed run checked exactly its list |
| DetailedSimulation.DetailedSimulator.WalkRoute | src/algorithms/detailed_simulator.py:57-76 | the hop loop updates the responder as the hops say |
| DetailedSimulation.DetailedSimulator.ArriveAndCheck | src/algorithms/detailed_simulator.py:85-107 | the responder stands in the room and checks and clears it |
| DetailedSimulation.DetailedSimulator.ClearRoom | src/algorithms/detailed_simulator.py:97-99 | the room is marked cleared at that time by that responder |
| DetailedSimulation.DetailedSimulator.RouteTo | src/algorithms/detailed_simulator.py:41-54 | the route to the door, with the direct route as the fallback |
| DetailedSimulation.DetailedSimulator.StepToCenter | src/algorithms/detailed_simulator.py:79-82 | the step to the centre updates the clock as described |
| DetailedSimulation.DetailedSimulator.VisitRoom | src/algorithms/detailed_simulator.py:39-110 | one iteration updates the responder and the rooms as a visit says |
| DetailedSimulation.DetailedSimulator.ReachRoom | src/algorithms/detailed_simulator.py:41-82 | routing, hopping and stepping to the centre, as the visit describes |
| DetailedSimulation.DetailedSimulator.ExecuteDetailedPath | src/algorithms/detailed_simulator.py:35-110 | the loop leaves responder and rooms as the sweep says, or raises its error |
| DetailedSimulation.DetailedSimulator.SweepOne | src/algorithms/detailed_simulator.py:28-29 | one responder's turn sweeps its list, or raises KeyError when its id is missing |
| DetailedSimulation.DetailedSimulator.SweepAll | src/algorithms/detailed_simulator.py:28-29 | the loop over the team leaves rooms and responders as the team run says |
| DetailedSimulation.DetailedSimulator.ResetForRun | src/algorithms/detailed_simulator.py:24-25 | every room is uncleared and every responder is back at its start |
| DetailedSimulation.DetailedSimulator.Run | src/algorithms/detailed_simulator.py:21-33 | run returns the outcome of the reset rooms and leaves rooms and responders as the run describes |
| DetailedSimulation.DetailedSimulator.CollectResults | src/algorithms/detailed_simulator.py:112-180 | collects the current state |

## Left out

- Networks.NodeInfo: a node keeps only its kind, position and floor. The program also stores area and priority on coarse room nodes (src/models/graph.py:28-35), stair_id on landings (src/models/graph.py:63-68, src/models/node_based_building.py:103) and room_id on room centres and doors (src/models/node_based_building.py:37, 50). No modelled operation reads these attributes.
- CoarseGraph.MapInfos: the records it builds lack the area and priority of room nodes; see Networks.NodeInfo.
- CoarseGraph.BuildingGraph.constructor: room nodes lack area and priority, and landings lack stair_id; see Networks.NodeInfo.
- NodeBased.NodeBasedBuilding.GetAllNodesOnFloor: the returned records lack room_id and stair_id; see Networks.NodeInfo.
- The distances in the detailed graph are numpy floats (`np.sqrt`, `np.linalg.norm`), and so are those of `Facility.NewSimpleBuilding`'s connections (`np.abs`). The program divides them by a walking speed of 0 without raising: it warns and continues with an infinite time or estimate. The model divides every distance as a Python number does and returns `Err(ZeroDivision)` at speed 0. The corridor chains and the door, exit and stair links of the node-based graph are numpy floats too (`src/models/node_based_building.py:63-83`, `:172-184`, `:208`, `:232`), while its room-centre-to-door edge of 2.0 and its stair-to-stair edge of 4.0 are plain numbers. That matches the program for buildings whose distances are plain numbers, for the detailed simulator's fallback hop of length 1, and for the node-based simulator's hop onto a room centre. The members concerned follow.
- Plans.BalancedNext: at speed 0 it returns Err(ZeroDivision), where the program continues with an infinite estimate when the distance is a numpy number.
- Greedy.TakeRoom: at speed 0 it returns Err(ZeroDivision), where the program continues with an infinite estimate on `Facility.NewSimpleBuilding`'s numpy distances.
- Detailed.DetailedOptimizer.OptimizeBalanced: at speed 0 it returns Err(ZeroDivision), where the program continues with an infinite estimate on the detailed graph's numpy distances.
- Simulation.Visit: at speed 0 it returns Err(ZeroDivision) for the division in move_to, where the program continues with an infinite time on `Facility.NewSimpleBuilding`'s numpy distances.
- DetailedSimulation.Hops: at speed 0 a hop along a graph edge returns Err(ZeroDivision), where the program continues with an infinite time; only the fallback hop of length 1 raises in the program.
- DetailedSimulation.HopsOutcome: states the Err(ZeroDivision) of DetailedSimulation.Hops at speed 0, so for a hop along a graph edge it promises an error where the program continues with an infinite time.
- DetailedSimulation.DoorToCenter: at speed 0 it returns Err(ZeroDivision), where the program divides the numpy door-to-room weight and continues with an infinite time.
- NodeSimulation.Hops: at speed 0 a hop along a numpy-weighted edge (a corridor chain or a door, exit or stair link) returns Err(ZeroDivision), where the program continues with an infinite time. For a room target the last hop is the plain-number door-to-centre edge, so the program raises there too and the outcome agrees; for a target that is not a room (an exit reached from another exit, say) the program walks on with an infinite time and then raises KeyError on the room lookup, so the model's error is ZeroDivision where the program's is KeyError.
- NodeSimulation.HopsFail: states the Err(ZeroDivision) of NodeSimulation.Hops at speed 0 on every edge, so it promises an error on numpy-weighted edges where the program continues with an infinite time.
- NodeSimulation.NodeSimulator.WalkRoute: follows NodeSimulation.Hops, so at speed 0 it fails on a numpy-weighted edge where the program continues, and for a target that is not a room it reports ZeroDivision where the program raises KeyError.
- DetailedSimulation.DetailedSimulator.WalkRoute: follows DetailedSimulation.Hops, so it fails at speed 0 on graph edges where the program continues.
- DetailedSimulation.DetailedSimulator.StepToCenter: follows DetailedSimulation.DoorToCenter, so it fails at speed 0 where the program continues.
- Responders.Responder.MoveTo: requires a non-zero speed for the move, so the ZeroDivisionError of a zero walking or stair speed is not modelled there.
- Responders.ResponderTeam.constructor: pads a copy of the initial positions with "E1"; the program extends the caller's list in place, and that aliasing is not modelled.
- Genetic.GeneticOptimizer.constructor: the quick fitness is `Genetic.QuickFitness` over the rooms as they are at construction. The program runs the quick simulation on the shared building and team objects and resets them on every evaluation, so the result is the same, but the mutation of those shared objects is not modelled.
- Facility.NewSimpleBuilding: the building is named "Simple" instead of the title-cased layout name, because string case conversion is not modelled.
- Outcomes.LoadBalance: a zero mean time gives None where numpy gives nan or -inf, and the standard deviation is the parameter `std`.
- Counts such as the number of responders and of rooms are `nat`. Python floats are exact `real`s, with no rounding, overflow or nan. Float infinity is `Common.Ext.Inf`.
- Square roots, `np.std` and `np.linalg.norm` are not computed. Room sizes and corridor lengths are parameters, the Euclidean distance is the parameter `norm` (`Common.Norm`) and the standard deviation is the parameter `std`.
- The iteration order of a Python set of strings depends on the hash seed. It is the parameter `order` (`Sweep.SetOrder`), which is only required to list the same strings without repeats (`Sweep.IsSetOrder`).
- Python's `random` is replaced by streams of raw draws (`Chromosomes.Draws`, `Genetic.Coins`). `Common.Below` maps each draw to an index, and every index is reachable.
- networkx's shortest-path search is the oracle `Networks.PathFinder`. The contract of `Networks.IsShortestPathFinder` says that a missing endpoint is reported as such, that a found path is a walk of least total weight and that no path is reported only when no walk joins the two nodes. Dijkstra itself is not modelled.
- Rooms are values in the rooms dictionary, not shared objects, so aliasing between a room held by a list and the same room in the building is not modelled.
- The warning printed for an unreachable room is not modelled; the skip it accompanies is.
- `BuildingGraph.shortest_paths_from_node` is not modelled: none of the modelled operations uses it.
- File and JSON input and output are not modelled: `from_json`, `to_dict`, saving results, `__repr__`, the visualization package, the example scripts and `src/utils/helpers.py`.
- `SmartOptimizer.print_analysis` only prints, and is not modelled.
- `get_team`, `get_analysis` and `get_fitness_history` return a field unchanged. The fields themselves are modelled.
- `NodeBasedSimulator.run_quick` and `DetailedSimulator.run_quick` construct a simulator and run it; the model has the constructor and `Run`. The coarse `run_quick` is `Simulation.SweepOutcome`.
