# Topology maps in Dafny

A model of the network-topology application, in four parts. Each module follows one
source file or component; `Wrappers`, `Sequences`, `Dicts`, `Lexicographic` and
`DottedText` hold the notions they share.

**SNMP agent, walker and decoder.** `MibAgent` is the simulator's agent: a tree of
bindings sorted by OID, served by binary search, with GET, GETNEXT and GETBULK as in
sections 4.2.1 to 4.2.3 of RFC 3416. `OidWalk` is the collector's client, which walks a
subtree by repeated GETNEXT and a test on dotted texts. `Columns`, `MibTables` and
`LldpTable` write ARP, forwarding and neighbour tables into the tree and read them back
column by column. `Discovery` is the breadth-first search along LLDP neighbours. The main
results: a walk returns exactly the first binding of each OID below its prefix, in order;
tables survive the trip through the tree; GETBULK is iterated GETNEXT; discovery lists
exactly the responding devices that can be reached.

**Config history.** `PathText`, `Redactor` and `RedactExact` mask secrets and delete
volatile fields. `ObservationLog` is the content-addressed, deduplicated log as a state
and its steps; `ConfigStore` is the same log as the object that the writers update;
`TargetedPuller` and `Scanner` are those writers. `CrashResume` treats a baseline that
crashes and is resumed, `SweepProtocol` the life of sweep runs over REST calls, tasks,
failures and restarts, `SweepOutcomes` and `BaselineRuns` what can become of them,
`Pipeline` the way of a payload from response to row, `JobKeys` the keys of the jobs.
`WindowQuery`, `Timeline` and `LongTimeline` read the log back; `DiffEngine`,
`DottedDiff`, `DottedRebuild`, `ArrayDiff`, `TableOrder` and `ComputeDiff` compare two
payloads. Every writer's store part is one atomic step, because the source gives way to
other tasks only while it fetches, so an interleaving of writers is a sequence of steps.
The main results: over every interleaving the deduplicated log shows, for every key and
time, the text last fetched by then; a row is written exactly when the configuration
changed beyond what its area ignores; crashes do not show in the final view; an
organisation never has two active anti-drift runs.

**Relationships.** `Bfs` and `SpanningForest` find which device contains which: a
shortest-path forest per network, rooted at its firewalls, and the orientation of links.

**Small stateful classes.** `RateLimiter` is the token bucket over real time.
`TopologyState` and `MovedRows` are the simulator's state with its cached client counts
and the tables that move with a connection.

Assumptions: the clock is strictly increasing; hashes and canonical texts are injective
functions (SHA-256 and `json.dumps` are not modelled); JSON numbers are compared by their
text; texts that OctetString stores are ASCII; a row of a table is an object. Jobs,
catalog areas and redaction paths are parameters, and what the network answers is a
function that callers pass in.

Where the code does less than its callers may expect, the code is kept as it is, and the
exact condition or a whole family of inputs is given:

- A walk needs the canonical prefix text. "01.3" names the same OID as "1.3", but the
  text test then fails on every OID and the walk returns nothing (`DottedText`).
- A chassis identifier that is no MAC comes back as hexadecimal digits, and so does a text
  that is not printable; of two neighbours on one local port one is lost (`LldpTable`).
- Redaction tells payloads apart by what the deletions leave exactly if every mask that a
  deletion reaches into lies in something another deletion removes. The catalog's areas
  have masks or deletions, never both, which meets that (`Redactor`, `RedactExact`,
  `Pipeline`).
- A diff rebuilds the second object exactly if no secret was rotated. A written diff does so
  exactly if, besides, no changed place has a dot in a key or an empty key above another;
  otherwise two different objects can have one written diff (`DiffEngine`, `DottedDiff`,
  `DottedRebuild`).
- The id key of an unregistered area is guessed from the first row; it is the same for all
  orders of a table exactly if all rows guess the same, and a diff can differ where they do
  not (`TableOrder`).
- In array shape only one table is compared, and emptying the only table of a payload can
  go unreported (`ComputeDiff`).
- Registering an access point keeps counts right exactly if it comes with the right count,
  and a client with an empty MAC matches any MAC (`TopologyState`).
- A sweep that fails while it enumerates, or whose process dies then, leaves a queued run
  that blocks every later sweep of its organisation for good; one that dies later leaves a
  running one that blocks until a restart resumes it. An organisation can be free again
  exactly if it has no run of the first kind (`SweepOutcomes`).
- A start of a baseline launches a task even when a run is active. Two baseline runs can be
  active at once exactly if two are active or being enumerated, which starts made while no
  task works on a baseline never bring about (`BaselineRuns`).
- On startup every running row is resumed as a baseline, an anti-drift run included
  (server/main.py:174-178). Its counters then add up to the total exactly if what had been
  counted and what was left do (`SweepProtocol`).
- A complete run turns failed when the last progress callback raises (`SweepProtocol`); the
  callback that the server passes sends to each listener and lets no exception out.

The timeline reads an absent sub key as "", and the change query does not. That makes no
difference on any history the writers produce, because the sub key is a function of the
entity (`JobKeys`, `Timeline`); on arbitrary rows the two agree exactly if no area has both.
The timeline also looks at the newest 200 rows only: on longer histories it misses exactly
the changes whose row or predecessor is older (`LongTimeline`).

## Model

| member | source | states |
|---|---|---|
| `MibAgent.FindIsFirst` | simulator/agent.py:97-103 | binary search for GET: on a sorted tree the answer is the first binding with exactly the OID, and none only when there is none |
| `MibAgent.NextIsFirst` | simulator/agent.py:105-111 | binary search for GETNEXT: on a sorted tree the answer is the first binding strictly above the OID, and none only when all are at or below it |
| `MibAgent.SNMPAgent.UpdateMibTree` | simulator/agent.py:84-91 | tree and key index are replaced together, so the index always lists the tree's OIDs |
| `MibAgent.SNMPAgent.ProcessGet` | simulator/agent.py:117-131 | one reply per requested OID: its first binding, or noSuchInstance |
| `MibAgent.SNMPAgent.ProcessGetNext` | simulator/agent.py:133-148 | one reply per requested OID: its successor, or endOfMibView with the OID asked for |
| `MibAgent.SNMPAgent.ProcessGetBulk` | simulator/agent.py:150-197 | the nested loops give the response defined through single GETNEXT steps, for any clamped counts |
| `MibAgent.BulkShape` | simulator/agent.py:164-197 | a bulk response has the non-repeaters, then whole rows, never more than N + min(M, 100) * R bindings |
| `MibAgent.BulkNonRepeater` | simulator/agent.py:168-175 | each non-repeater answers one GETNEXT |
| `MibAgent.BulkRepeater` | simulator/agent.py:182-193 | row k of a repeater is GETNEXT applied k + 1 times, or endOfMibView with the last OID reached |
| `MibAgent.RowCountStops` | simulator/agent.py:184-195 | the rows stop after the first one in which every repeater has ended, and not before |
| `MibAgent.EndedStays` | simulator/agent.py:186-193 | once exhausted, a repeater stays at the last OID it reached |
| `Lexicographic.ExtensionsContiguous` | collector/snmp_client.py:226-231 | nothing lies between a prefix and its extensions in OID order, which is why leaving the prefix may end a walk |
| `DottedText.OidRoundTrip` | collector/snmp_client.py:26-35 | writing an OID as dotted text and reading it gives the OID back |
| `DottedText.UnderTextMeansPrefix` | collector/snmp_client.py:215-231 | the string test means prefix on integer sequences (the OID itself, or below it) exactly when the prefix text is the canonical one, and is false of every OID otherwise |
| `OidWalk.SNMPClient.Walk` | collector/snmp_client.py:209-236 | the GETNEXT loop ends and returns exactly the bindings of `Walked`; None where int() raises on the prefix |
| `OidWalk.FirstBelowHolds` | collector/snmp_client.py:209-236 | a walk returns a binding if and only if it is the first of its OID and strictly below the prefix |
| `OidWalk.FirstBelowAscends` | collector/snmp_client.py:209-236 | a walk's results come in strictly ascending OID order |
| `OidWalk.RequestIdsDiffer` | collector/snmp_client.py:55-57 | of any 2^31 requests in a row no two have the same id |
| `Columns.SortMeaning` | simulator/devices/base.py:148-154 | sorting by OID gives an ordered tree with the same bindings, stable among equal OIDs |
| `Columns.CellsExact` | collector/discovery.py:370-394 | walking a column reads every cell below the column's OID once, in index order |
| `Columns.RowsInOrder` | collector/discovery.py:396-403 | the rows of a table are visited once each, in index order |
| `MibTables.BuildArpEntries` | simulator/devices/base.py:261-279 | the loop writes two bindings for each row, and raises exactly when a row's address cannot be encoded |
| `MibTables.WalkArpTable` | collector/discovery.py:365-405 | the column walks, joined by index text, give `ArpTable` of the agent's tree |
| `MibTables.ArpRoundTrip` | collector/discovery.py:365-405 | encoding, sorting, serving and decoding any ARP table with distinct (ifIndex, ip) gives back the same rows, each once, in index order, whatever else the tree holds |
| `MibTables.CanonicalArpFixed` | simulator/devices/base.py:116-118 | a MAC of six lower-case colon pairs comes back as it was written |
| `MibTables.BuildMacFwdEntries` | simulator/devices/base.py:282-301 | the loop writes three bindings for each row, and raises exactly when a MAC cannot be encoded |
| `MibTables.WalkMacTable` | collector/discovery.py:411-449 | the three column walks, joined by index text, give `FdbTable` of the agent's tree |
| `MibTables.FdbRoundTrip` | collector/discovery.py:411-449 | the same round trip for the MAC forwarding table, keyed by MAC |
| `MibTables.MacRoundTrip` | collector/discovery.py:123-128 | writing six octets as a MAC and reading it gives the octets |
| `MibTables.CanonicalFdbFixed` | simulator/devices/base.py:116-134 | a forwarding row with a lower-case colon MAC comes back unchanged |
| `LldpTable.BuildLldpEntries` | simulator/devices/base.py:226-258 | the loop writes three bindings for each neighbour, and raises exactly when one cannot be encoded |
| `LldpTable.WalkLldpNeighbors` | collector/discovery.py:307-359 | the three column walks, joined by index text, give `LldpNeighbors` of the agent's tree |
| `LldpTable.LldpExactly` | collector/discovery.py:307-359 | encoding, sorting, serving and decoding any encodable neighbours gives every one back, each once, if and only if no two are on one local port |
| `LldpTable.TextExactly` | collector/discovery.py:138-150 | a port or system name comes back as written if and only if it is printable |
| `LldpTable.ChassisExactly` | simulator/devices/base.py:245-250 | a chassis identifier comes back as written if and only if it is empty or six lower-case colon pairs |
| `Discovery.DiscoverFromSeed` | collector/discovery.py:185-275 | the search ends (unvisited known devices, then queue length, decrease) and lists each device once, exactly the responding ones reachable from the seed through responding devices, with their facts, edges and non-empty tables, and the primary firewall's own tables; None for an unknown seed |
| `Discovery.VisitFirst` | collector/discovery.py:211-224 | one turn of the loop keeps the search invariant and the termination measure falls |
| `Discovery.QueryDevice` | collector/discovery.py:226-265 | an answering device adds its edges, queues its unvisited known neighbours, and stores its tables when not empty; the primary firewall adds its wireless and route tables |
| `Bfs.SpanningForest` | nr_ingest/create_relationships.py:153-163 | the search from the firewalls gives a shortest-path forest of all that they reach |
| `Bfs.WithinIsWalk` | nr_ingest/create_relationships.py:157-163 | being within k steps of a root means being at the end of a walk of at most k links from one |
| `Bfs.WalkIsWithin` | nr_ingest/create_relationships.py:157-163 | the end of a walk of k links from a root is within k steps of one |
| `Bfs.DepthIsDistance` | nr_ingest/create_relationships.py:157-163 | the depth of a device in the forest is its shortest distance to a firewall |
| `Bfs.BranchExists` | nr_ingest/create_relationships.py:157-163 | every reachable device is at the end of a branch from a firewall |
| `SpanningForest.BuildSpanningTree` | nr_ingest/create_relationships.py:128-165 | the pairs are the union of one shortest-path forest for each network, over the links inside it, rooted at its firewalls |
| `SpanningForest.PairInNetwork` | nr_ingest/create_relationships.py:144-163 | with ids unique across networks every pair is a link inside one network |
| `SpanningForest.SingleParent` | nr_ingest/create_relationships.py:159-163 | with unique ids every child has one parent over all networks |
| `SpanningForest.OneDirection` | nr_ingest/create_relationships.py:159-163 | no pair is there in both directions |
| `SpanningForest.FirewallsOnTop` | nr_ingest/create_relationships.py:154-163 | no firewall is a child |
| `SpanningForest.PartIsForest` | nr_ingest/create_relationships.py:153-163 | with unique ids the pairs of each network cover exactly what its firewalls reach, each device at its shortest distance |
| `SpanningForest.DeviceLinks` | nr_ingest/create_relationships.py:229-250 | the loop over the links gives `DeviceRels` |
| `SpanningForest.RelsDistinct` | nr_ingest/create_relationships.py:241-244 | no two entities are related twice, in either direction |
| `SpanningForest.RelFromLink` | nr_ingest/create_relationships.py:233-250 | every relationship comes from a usable link between its two entities |
| `SpanningForest.LinkHasRel` | nr_ingest/create_relationships.py:233-250 | every usable link has its two entities related |
| `SpanningForest.RelExactly` | nr_ingest/create_relationships.py:229-250 | the relationships are exactly the orientations of the first usable link between each two entities |
| `SpanningForest.ContainsExactly` | nr_ingest/create_relationships.py:231-250 | one entity contains another if and only if they are the entities of a parent and its child in the forest whom the first usable link between the two entities joins; several devices may be one entity |
| `RateLimiter.RateLimiter.Refill` | server/rate_limiter.py:22-26 | tokens become what they were plus rate times the elapsed time, capped, and stay within the bounds |
| `RateLimiter.RateLimiter.Acquire` | server/rate_limiter.py:12-20 | one grant after at most one sleep; tokens stay in [0, capacity] and the grants stay paced |
| `RateLimiter.RateBound` | server/rate_limiter.py:12-26 | any interval holds at most capacity + rate * length grants |
| `TopologyState.TopologyState.AddAp` | simulator/topology_state.py:116-120 | registering an access point keeps the counts right if and only if it comes with the number of clients already on it |
| `TopologyState.TopologyState.AddWirelessClient` | simulator/topology_state.py:132-139 | the client is appended and right counts stay right |
| `TopologyState.TopologyState.MoveWirelessClient` | simulator/topology_state.py:146-165 | the first client the MAC names moves, right counts stay right, and the clamp at zero never fires; otherwise nothing changes |
| `TopologyState.StepAgrees` | simulator/topology_state.py:116-165 | each operation keeps every cached count equal to the number of clients there |
| `TopologyState.RunAgrees` | simulator/topology_state.py:116-165 | the same after any run in which every access point is registered with the number of clients already on it |
| `TopologyState.RegisteredFirstAgrees` | simulator/topology_state.py:116-165 | the same after any run in which every access point is registered with count zero before any client enters it |
| `TopologyState.IsClientMeans` | simulator/topology_state.py:254-258 | a client is taken for the wanted one if the normalised MACs agree, or if its own MAC is empty |
| `TopologyState.TopologyState.MoveConnection` | simulator/topology_state.py:167-241 | exactly the rows on the old port move to the new port's switch, also when both switches are one; neighbour lists and the AP's parent follow; nothing changes when it returns False |
| `TopologyState.ArpConserved` | simulator/topology_state.py:227-232 | moving a connection conserves the ARP rows of the two switches up to port |
| `TopologyState.MacConserved` | simulator/topology_state.py:234-238 | moving a connection conserves the MAC rows of the two switches up to port |
| `MovedRows.MoveRows` | simulator/topology_state.py:227-238 | the loop over a copy, which removes from one table and appends to another (or the same), gives the two tables described |
| `PathText.ParsePath` | server/config_collector/redactor.py:24-60 | the index loop accepts exactly the texts that have steps and returns them |
| `PathText.PathRoundTrip` | server/config_collector/redactor.py:24-60 | writing a path of names and array steps and parsing it gives the path |
| `Redactor.MaskAllInjective` | server/config_collector/redactor.py:78-107 | masking along any list of paths is injective on payloads |
| `Redactor.MaskAllSelected` | server/config_collector/redactor.py:78-107 | along prefix-incomparable paths, every selected position holds the sentinel of the original value |
| `Redactor.MaskAllApart` | server/config_collector/redactor.py:78-107 | a position that no path touches keeps its value |
| `Redactor.MaskAllAbove` | server/config_collector/redactor.py:78-107 | a position above the selected ones keeps its kind, keys and length |
| `Redactor.MaskAnyOrder` | server/config_collector/redactor.py:168-169 | the order of prefix-incomparable paths does not matter |
| `Redactor.DeleteIdempotent` | server/config_collector/redactor.py:110-133 | deleting along a path twice is deleting once |
| `Redactor.DeleteCommutes` | server/config_collector/redactor.py:110-133 | any two deletions commute |
| `Redactor.RedactLaw` | server/config_collector/redactor.py:153-176 | two payloads redact to the same text if and only if they are equal after the deletions, when no deletion reaches into a masked value |
| `Redactor.LawExactly` | server/config_collector/redactor.py:168-172 | that condition is exact: for every mask and deletion the law holds if and only if the deletion is not inside the mask |
| `Redactor.LawBroken` | server/config_collector/redactor.py:168-172 | for every deletion inside a mask, two payloads that break the law |
| `RedactExact.DeletedFirst` | server/config_collector/redactor.py:168-172 | where every mask that a deletion reaches into lies in something another deletion removes, masking and then deleting is deleting and then masking by the masks in no deleted field |
| `RedactExact.RedactExactly` | server/config_collector/redactor.py:153-176 | for all lists of masks and deletions, redacted texts are equal just for payloads equal after the deletions, if and only if every mask that a deletion reaches into lies in something another deletion removes |
| `RedactExact.UnsafeBreaksLaw` | server/config_collector/redactor.py:153-176 | for all other lists, two payloads that redaction confuses or tells apart wrongly |
| `DottedDiff.ObjectDiffText` | server/config_collector/diff_engine.py:65-89 | the recursive loop over sorted keys gives the path diff with dotted keys and the same unchanged count |
| `DiffEngine.EmptyExactlyWhenEqual` | server/config_collector/diff_engine.py:65-89 | no change is listed if and only if the objects are equal |
| `DiffEngine.MirrorImage` | server/config_collector/diff_engine.py:65-89 | the diff in the other direction is the mirror image, change by change, with the same unchanged count |
| `DiffEngine.ApplyRebuilds` | server/config_collector/diff_engine.py:65-89 | applying a diff to its first object gives the second, except that rotated secrets keep their old value |
| `DiffEngine.RebuiltExactly` | server/config_collector/diff_engine.py:79-83 | the second object is rebuilt if and only if no SecretChanged is present |
| `DottedDiff.PathReadsExactly` | server/config_collector/diff_engine.py:65-70 | the dotted text of a place reads back into its path if and only if no key holds a dot and an empty first key stands alone |
| `DottedDiff.DiffReadsExactly` | server/config_collector/diff_engine.py:65-89 | a written diff reads back if and only if every changed place is readable |
| `DottedDiff.DiffReadable` | server/config_collector/diff_engine.py:65-89 | with dot-free keys, and no empty key that is an object on both sides, every changed place is readable |
| `DottedDiff.DottedDiffRebuilds` | server/config_collector/diff_engine.py:65-89 | a diff that reads back rebuilds the second object if and only if no secret was rotated, and all but the secrets otherwise |
| `DottedRebuild.RebuildsExactly` | server/config_collector/diff_engine.py:65-89 | for any two objects, reading the written diff back and applying it to the first gives the second if and only if every changed place is readable and no secret was rotated |
| `DottedDiff.DottedDiffAmbiguous` | server/config_collector/diff_engine.py:65-89 | for all keys p and q and every value, adding it under q inside the object at p, and adding it beside p under the text of that place, give different objects and the same written diff |
| `ArrayDiff.ArrayDiff` | server/config_collector/diff_engine.py:109-144 | both matching modes give `TableDiff`; None where an identity cannot be a dict key |
| `ArrayDiff.ChangesExactly` | server/config_collector/diff_engine.py:132-144 | by identity, a change is reported if and only if its row is only in b, only in a, or shared and different |
| `ArrayDiff.IdentitiesCounted` | server/config_collector/diff_engine.py:132-144 | by identity, changes plus unchanged are as many as the union of the ids |
| `ArrayDiff.PositionsCounted` | server/config_collector/diff_engine.py:115-127 | by position, changes plus unchanged are as many as the longer table has rows |
| `ArrayDiff.RowsByIdMeans` | server/config_collector/diff_engine.py:130-131 | with unique ids the index holds exactly the rows that have one |
| `ArrayDiff.OrderDoesNotMatter` | server/config_collector/diff_engine.py:109-144 | with unique ids and one id key, permuting rows changes only the order of the changes |
| `TableOrder.KeyStableExactly` | server/config_collector/diff_engine.py:99-113 | the id key is the same for every order of a table if and only if all its rows lead to the same one |
| `TableOrder.RegisteredOrderDoesNotMatter` | server/config_collector/diff_engine.py:99-144 | in an area with a registered id key, permuting the rows of either table with unique ids changes only the order of the changes, and not whether matching raises |
| `TableOrder.TableOrderDoesNotMatter` | server/config_collector/diff_engine.py:109-144 | where they do and ids are unique, permuting the rows of either table changes only the order of the changes, and not whether matching raises |
| `TableOrder.GuessChangesDiff` | server/config_collector/diff_engine.py:99-144 | two rows of an unregistered area that guess different keys: removing both is reported as the removal of just the one that comes first |
| `ComputeDiff.NoChangesExactly` | server/config_collector/diff_engine.py:146-172 | nothing is reported if and only if the payloads are equal, or in array shape the one compared table is the same on both sides |
| `ComputeDiff.EmptiedTableMissed` | server/config_collector/diff_engine.py:160-169 | when the only table of a payload is emptied and is not its first key, losing all rows is not reported |
| `ConfigStore.Store.UpsertBlob` | server/config_collector/store.py:19-32 | a blob is inserted if and only if its hash is new; an existing blob never changes |
| `ConfigStore.Store.InsertObservationIfChanged` | server/config_collector/store.py:46-85 | a row is appended unless the source deduplicates and the latest row of the key has the same hash |
| `ConfigStore.Store.StorePulled` | server/config_collector/targeted_puller.py:77-91 | the store part of one pull is one step of the log |
| `ConfigStore.Store.StoreSwept` | server/config_collector/scanner.py:190-213 | the store part of one anti-drift check is one step of the log, labelled from the latest row |
| `ObservationLog.AsOfMeans` | server/config_collector/store.py:97-103 | in time order, the as-of row is the row of the key with the greatest time up to t, and missing only when there is none |
| `ObservationLog.RunKeepsGood` | server/config_collector/store.py:43-85 | over every interleaving: each hash has a blob of that hash, times ascend, baseline and change-log rows differ from their predecessor, confirmations equal it, discrepancies differ |
| `ObservationLog.NothingIsLost` | server/config_collector/store.py:25-32 | over every interleaving no blob changes and no row leaves |
| `ObservationLog.DedupRefines` | server/config_collector/store.py:60-85 | over every interleaving, for every key and time, the deduplicated log shows the hash of the text last fetched by then |
| `ObservationLog.ShowsLastFetched` | server/config_collector/store.py:19-103 | with a collision-free hash a log started empty shows at every time exactly the text last fetched by then |
| `Pipeline.RowExactlyWhenNew` | server/config_collector/targeted_puller.py:67-96 | after any interleaving a baseline or change-log pull writes a row if and only if the payload differs from the one last fetched, secrets included, beyond what the area ignores |
| `Pipeline.ConfirmExactlyWhenKnown` | server/config_collector/scanner.py:190-213 | an anti-drift check always writes a row, and confirms in just the same cases |
| `TargetedPuller.CoalesceJobs` | server/config_collector/targeted_puller.py:26-38 | the loop with its seen set gives `Coalesced` |
| `TargetedPuller.CoalescedMeans` | server/config_collector/targeted_puller.py:26-38 | every entity once, each with its first job |
| `TargetedPuller.PullMany` | server/config_collector/targeted_puller.py:53-98 | the store takes one step for each coalesced job that was fetched, and the summary counts each job once as written, unchanged or failed |
| `Scanner.RunBaseline` | server/config_collector/scanner.py:54-135 | an uninterrupted baseline pulls each job left to do once, in chunks, and its row counts them all; a second one does nothing while one is active |
| `Scanner.PullChunks` | server/config_collector/scanner.py:102-113 | the chunks of 20 add up to all remaining jobs, in the log and in the counters |
| `Scanner.RunAntiDriftSweep` | server/config_collector/scanner.py:138-230 | an uninterrupted sweep, under a given run or a new one, checks each job once, and completed plus failed calls are the total; a new one does nothing while one is active |
| `CrashResume.ResumedIsComplete` | server/config_collector/scanner.py:80-120 | however often a baseline crashes and is resumed, whatever others write meanwhile, a second task of the same run included: once an attempt finishes, the latest row of every job carries the constant upstream's hash |
| `CrashResume.CrashesDoNotShow` | server/config_collector/scanner.py:80-120 | two histories that finish, one of them perhaps uninterrupted, show the same latest hash for every key no other writer touched |
| `CrashResume.DoneWasWritten` | server/config_collector/store.py:260-272 | what a resume skips as done was written under the same run |
| `CrashResume.SteadyLatest` | server/config_collector/store.py:46-85 | after any writes from a constant upstream a key shows its hash exactly if it was written, and is untouched otherwise |
| `CrashResume.OwnMoves` | server/config_collector/scanner.py:102-108 | an attempt cut off after n jobs has pulled just the first n |
| `SweepRuns.ActiveMeans` | server/config_collector/store.py:275-288 | the active run is the most recent queued or running one, and missing only when there is none |
| `SweepProtocol.NeverTwoSweeps` | server/routes/config.py:177-203 | over every interleaving of starts, task steps, failures and restarts an organisation has at most one queued or running anti-drift run |
| `SweepProtocol.StepKeepsInv` | server/routes/config.py:177-203 | every step keeps the invariant: a live task on an anti-drift run works alone, on an active row, and has counted nothing yet |
| `SweepProtocol.CompleteMeansCounted` | server/config_collector/scanner.py:80-120 | a run on an anti-drift row that reaches its end leaves it complete; completed + failed = total if and only if what was counted before and what was left to do make up the total: always for the sweep itself, and for a baseline that resumed the row only then |
| `SweepProtocol.ClosedMoves` | server/config_collector/scanner.py:222-228 | a closed anti-drift row changes if and only if its own task, still reporting a completion, raises; it then turns from complete to failed |
| `SweepProtocol.ClosedStays` | server/config_collector/scanner.py:222-228 | a failed anti-drift run never changes again, and a complete one changes at most to failed |
| `SweepOutcomes.DiedAbandons` | server/config_collector/scanner.py:157-171 | a task that dies leaves its anti-drift run queued with no task if and only if it had not finished enumerating |
| `SweepOutcomes.RestartAbandons` | server/main.py:174-178 | a restart leaves exactly the queued anti-drift runs without a task for good |
| `SweepOutcomes.UntendedBlocks` | server/routes/config.py:190-203 | an active run without a task blocks its organisation: every start only returns it, for good if it is queued, and until a restart that resumes runs if it is running |
| `SweepOutcomes.AbandonedForGood` | server/routes/config.py:190-203 | a queued run without a task stays so through every later step |
| `SweepOutcomes.BlockedExactly` | server/routes/config.py:190-203 | an organisation can still come to have no active anti-drift run if and only if none of its runs is queued without a task |
| `BaselineRuns.OneBaseline` | server/routes/config.py:160-174 | if every start of a baseline happens while no task works on a baseline of the organisation, it never has two active baseline runs |
| `BaselineRuns.DoubleExactly` | server/config_collector/scanner.py:70-88 | without a further start two active baseline runs can be reached if and only if two are each active or being enumerated |
| `BaselineRuns.BaselinesCanDouble` | server/routes/config.py:160-174 | starts alone can lead there: three calls, of which two share a run |
| `SweepProtocol.App.StartSweepCall` | server/routes/config.py:190-203 | the REST call is one step of the protocol: it returns the active run, or creates one with a task |
| `WindowQuery.SnapshotIsAsOf` | server/config_collector/store.py:317-342 | ROW_NUMBER ranking picks for each key the row that is current at the time |
| `WindowQuery.WindowExactly` | server/config_collector/store.py:316-367 | the query returns exactly the keys whose hash as of to_ts exists and differs from that as of from_ts, with both hashes, for times in either order |
| `WindowQuery.WindowRebuilds` | server/config_collector/store.py:316-367 | overwriting the earlier snapshot with the window gives the later one if and only if no key of it is missing from the later |
| `WindowQuery.WindowsRebuildForward` | server/config_collector/store.py:316-367 | for from_ts <= to_ts that is always so |
| `WindowQuery.WindowsCompose` | server/config_collector/store.py:316-367 | adjacent windows compose |
| `Timeline.EntityTimeline` | server/routes/config.py:484-525 | the one pass over the newest 200 rows gives `EntriesOf`, newest first |
| `Timeline.BuildChangeEvents` | nr_ingest/config_ingest.py:254-282 | the predecessor query gives one event for each row whose predecessor has another hash and whose text is stored, after the optional since |
| `JobKeys.CatalogKeyed` | server/config_collector/endpoints_catalog.py:88-132 | the sub key of a catalog or poller job is what follows the colon of an SSID's entity id and absent elsewhere, if and only if the network id holds no colon |
| `JobKeys.RefreshKeyed` | server/config_collector/manual_refresh.py:18-62 | every job of a manual refresh has such a key |
| `JobKeys.WrittenKeyed` | server/config_collector/store.py:73-85 | so every row of the log has, over every interleaving |
| `Timeline.ReadersAgree` | server/routes/config.py:484-503 | for every history that the writers' jobs produce and that fits the limit, the timeline marks exactly the rows the query selects, in order, with the same predecessor hashes |
| `LongTimeline.LongReaders` | server/routes/config.py:484-525 | for a history of any length that the writers' jobs produce, the timeline marks those of the query's changes whose row and predecessor are both among the newest 200, so the two agree if and only if no other row is a change |
| `Timeline.AgreeExactly` | server/routes/config.py:484-503 | on arbitrary rows the two agree whatever the hashes if and only if no area mixes an absent and an empty sub key |
| `Timeline.ChangesChain` | nr_ingest/config_ingest.py:254-282 | each change of a key starts from the hash the last one ended with, and the last ends with the key's latest hash |

## Left out

- BER encoding, UDP, timeouts and lost datagrams: an SNMP exchange is a direct call on the agent's tree, which stays fixed during a walk.
- The decoding of wireless AP, client and route tables (their rows are opaque here), PoE, VLAN and interface tables, and the topology built from a discovery: the same column joins, or plain copying.
- `int()` on text with signs, spaces or underscores: numerals are plain digit strings.
- Texts outside ASCII in octet strings.
- Discovery.DiscoverFromSeed: the tables each device serves are read once, as a function of its port; devices do not change during one discovery.
- Redactor: masking and deletion are functions on JSON values, because `redact` works on its own deep copy; updating in place and aliasing inside one payload are not modelled.
- TopologyState.TopologyState.MoveConnection: ARP and MAC rows are values, so one row object shared by two tables is not modelled.
- JSON numbers that Python holds equal though written differently (1, 1.0 and True), and table rows that are not objects.
- ConfigStore: SQLite itself, commit failures, byte sizes, first-seen and start and completion times, change-event rows; each query is modelled by its meaning on rows in time order.
- Equal `observed_at` readings, for which the source's `ORDER BY` picks a row by insertion or not at all.
- Scanner.RunBaseline: progress callbacks and an exception in the middle of a chunk; crashes and resumes are in `CrashResume`, failures of the run row in `SweepProtocol`.
- CrashResume.ResumedIsComplete: the run's counters after a crash, which the source loses for the chunk in progress.
- Timeline.EntityTimeline: admin addresses joined from change events.
- Timeline.BuildChangeEvents: names, network ids, change ids and the truncated texts of an event.
- WindowQuery.WindowExactly: the order of the rows, the name hint and the displayed time.
- ComputeDiff.NoChangesExactly: payloads whose compared table holds rows that are not objects.
- Change-log polling and manual refresh beyond the pull they end in, templates, coverage and scores, HTTP and WebSocket handling, Meraki and New Relic clients, the user interface.
- Site, VLAN, port and client relationships: one lookup each per row.
