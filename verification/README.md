# Verified model of the fault-tolerant middlebox system

The system lets a slave middlebox take over from a failed master. Every packet carries an id in three vlan tags. A
packet logger keeps the versions of each packet, a determinant logger keeps, per middlebox, the ids processed so far and
the PALs recorded for them, and a cleanup manager compares the logs of a master and its slave: it replays to the slave
what it lacks and removes from all three stores what both have processed. A traffic steering application compiles
policy chains of middleboxes into flow rules and exchanges a middlebox when its master fails.

The modules follow these parts:

| part | files |
|---|---|
| ids and list algorithms of the cleanup manager | `PacketIds`, `CleanupLists` |
| the three servers, updated in place | `DetLog`, `PacketStore`, `PacketLogger`, `CleanupManager` |
| the whole system as a step system, one step per server request; several pairs behind one packet logger | `RecoveryProtocol`, `SharedPacketLogger` |
| replay-and-clear rounds and the stop-master loop | `DrainRound`, `CleanupManager` |
| switch graph, chain compiler, packet journeys, failover | `SwitchGraph`, `GraphObject`, `ChainRoute`, `ChainCompiler`, `PacketJourney`, `ChainRules`, `ChainText`, `ChainService`, `AllChains`, `ChainFailures`, `CaughtPackets`, `TsaServer` |
| union-find | `Powers`, `SetSizes`, `Forest`, `UnionFind` |
| id allocator and tag codec | `Powers`, `SequenceGenerator`, `TagStack` |
| message codecs over byte buffers | `WireTypes`, `ByteBuffers`, `PalsCodec`, `ReplayCodec` |

Code that changes state step by step is modelled by classes and methods with loops over fields and arrays; each such
method is tied to a function of the old state, and the properties are proved of those functions and of the runs built
from them. `dafny verify dfyconfig.toml` checks everything.

What the code does and does not guarantee, in short:

- A base leaves the packet logger only after the slave has logged a version at least as high as the counter of versions
  stored, in every run and every branch. The same is not true of the ids in the master's log: the delete-all branch and
  an empty master snapshot with a later store can both lose one. `RecoveryProtocol` states exactly when, for every run.
- That slave is the one of the pair whose clear took the base. Pairs that see the same packets and share the packet
  logger, as 6 to 7 and 7 to 10 do, can lose a packet the other pair still needs; `SharedPacketLogger` states when.
- The packet logger cuts its sorted versions at the number asked for, not at the version: with version 2 missing, a
  request for version 2 gets the bytes of version 3.
- The replay loop increments an iterator behind an erase, which is undefined at the end of the vector. It cannot happen
  on the lists the loop is given, because the first-version query returns distinct bases.
- A served chain is implemented exactly when no two of its rules share switch and ingress port, it names no middlebox
  twice in a row, and nothing is met behind its last middlebox. A chain that leaves a middlebox twice clashes, and four
  different middleboxes on two switches can be enough for it.
- Behind the last middlebox the strip exposes what a middlebox put below the chain's tag, such as an id tag. A chain
  whose vlan id that is and that goes on from this middlebox then takes the packet along. The very first id of a
  producer does it with the very first vlan id: `CaughtPackets`. Only a chain that names its last middlebox before can
  get through a clash this way.
- Adding a chain under a key that is registered already orphans the rules that still carry its former vlan id, if there
  are any (a chain with only a tagging rule has none); no other command orphans a rule.
- Exchanging a middlebox by text replacement also hits names that contain the old name.
- Uninstalling a chain by its match fields does not look at the ingress port, so it takes away other hosts' untagged
  rules on that switch whose matches include those fields. A failover does the same for every chain it re-installs, and
  reports success.
- `ChainService` gives the exact conditions under which adding, removing and re-installing keep all registered chains
  served: no packet in common with another rule at the sender's port, and no tagging rule hit. `AllChains` gives those
  under which they stay implemented: no clash and no catching besides. A removal never makes one chain catch another.
- Where the code and its comments disagree the code is followed: `MAX_SEQ_NUM` is 2^28, not 2^28 - 1 (the wrap is exact
  all the same), the clear ignores the limit it is passed, the delete-all branch reports 0 deleted packets, and the
  decoder of the replay request subtracts 20 bytes for a header of 21.

Conventions: 64-bit ids are integers below 2^64; `|` on integers is the recursive `BitOr`, shifts and masks are
division and remainder; exceptions of the traffic steering application end a compilation with `ok` false, keeping what
was installed before. A switch that has several matching rules of one priority may use any of them, and never sends a
packet out of the port it came in by.

## Model

| member | source | states |
|---|---|---|
| `CleanupLists.GetUnprocessedPacketIds` | ft_thesis/src/loggers/tcp_servers/cleanupManagerServer.cc:682-755 | The in-place erase loop computes the walk `Unprocessed` for every pair of lists and every set of bases already marked, including the case where it steps past the end of its vector. |
| `CleanupLists.ReplayListIsMissing` | ft_thesis/src/loggers/tcp_servers/cleanupManagerServer.cc:682-755 | On distinct bases and a set that marks none of them the loop never leaves its vector; it returns the master's ids at exactly those positions where the slave does not hold the same id, in order, and adds exactly their bases to the set. |
| `CleanupLists.ReplayListOfPrefix` | ft_thesis/src/loggers/tcp_servers/cleanupManagerServer.cc:682-755 | If the slave's list is a prefix of the master's, the replay list is the missing suffix. |
| `CleanupLists.DuplicateBasesCanOverrun` | ft_thesis/src/loggers/tcp_servers/cleanupManagerServer.cc:705-716 | Without distinct bases the erase followed by an increment can leave the vector: a concrete pair of lists. |
| `CleanupLists.AddPacket` | ft_thesis/src/loggers/tcp_servers/cleanupManagerServer.cc:812-832 | An id is accepted exactly when the limit, compared as a `size_t` so that a negative one is huge, is not reached or its (narrowed) base is already in the set; the three collections change only then. |
| `CleanupLists.SetSlaveOrphanPacketIds` | ft_thesis/src/loggers/tcp_servers/cleanupManagerServer.cc:834-863 | Collects the slave's ids before the wanted one, or nothing at all if the wanted one does not come. |
| `CleanupLists.GetCommonProcessedPacketIds` | ft_thesis/src/loggers/tcp_servers/cleanupManagerServer.cc:758-810 | The loop computes `Collect`, for every limit, negative ones included. |
| `CleanupLists.CollectIsCommon` | ft_thesis/src/loggers/tcp_servers/cleanupManagerServer.cc:758-810 | On generated ids under the limit INT_MAX the two lists are the common prefix (with the master's next id if the slave has it later on) and the slave's ids before that id. |
| `CleanupLists.CollectUnderLimit` | ft_thesis/src/loggers/tcp_servers/cleanupManagerServer.cc:758-832 | The same for any ids and any limit that leaves room for the bases of the common ids. |
| `CleanupLists.CollectWithinLimit` | ft_thesis/src/loggers/tcp_servers/cleanupManagerServer.cc:812-832 | Whatever the limit, the common ids have no more (narrowed) bases than it allows. |
| `CleanupLists.CommonAndOrphansAreCounted` | ft_thesis/src/loggers/tcp_servers/cleanupManagerServer.cc:758-863 | Count equals content: the common ids are a prefix of the master's list, and as many first ids of the slave's list as the two results hold together are the common and orphan ids in some order. |
| `CleanupLists.CommonEmptyIff` | ft_thesis/src/loggers/tcp_servers/cleanupManagerServer.cc:481-484 | The common list is empty exactly when the master's list is, or its first id is nowhere in the slave's. |
| `CleanupLists.GeneratedIdIsAccepted` | ft_thesis/src/loggers/tcp_servers/cleanupManagerServer.cc:812-832 | For generated ids the `set<int>` is exact and the limit INT_MAX is never reached (pigeonhole over 7 * 2^28 bases). |
| `CleanupLists.NarrowingCollides` | ft_thesis/src/loggers/tcp_servers/cleanupManagerServer.cc:767 | Beyond that range bases that differ by 2^32 become one element of the set. |
| `DetLog.DetLoggerServer.ProcessStoreRequest` | ft_thesis/src/loggers/tcp_servers/det_logger_server.cc:125-138 | Appends one id to the middlebox's progress vector and the PALs to those recorded for the id, and the store with its PALs to the middlebox's history; every other middlebox keeps its data; the invariant, which ties records to histories, holds again. |
| `DetLog.DetLoggerServer.UpdatePacketData` | ft_thesis/src/loggers/tcp_servers/det_logger_server.cc:488-515 | PALs are appended to the record of the id, which is created if there is none. |
| `DetLog.DetLoggerServer.AddPacketId` | ft_thesis/src/loggers/tcp_servers/det_logger_server.cc:536-541 | One id is appended and the index goes up by one. |
| `DetLog.DetLoggerServer.GetProcessedPacketsForFirstVersion` | ft_thesis/src/loggers/tcp_servers/det_logger_server.cc:198-221 | The loop over a growing set of bases returns `FirstVersions` of the log. |
| `DetLog.FirstVersionsAreFirstOccurrences` | ft_thesis/src/loggers/tcp_servers/det_logger_server.cc:198-221 | The answer lists, in log order, the first occurrence of each base and nothing else; its bases are distinct. |
| `DetLog.DetLoggerServer.ProcessDeleteFirstPacketsRequest` | ft_thesis/src/loggers/tcp_servers/det_logger_server.cc:276-307 | Removes the first min(n, length) ids and exactly their PALs, and nothing of another middlebox. |
| `DetLog.DetLoggerServer.EraseFirst` | ft_thesis/src/loggers/tcp_servers/det_logger_server.cc:311-351 | The deletion itself, with index, vector and history moving together. |
| `DetLog.DetLoggerServer.DeletePals` | ft_thesis/src/loggers/tcp_servers/det_logger_server.cc:387-405 | Exactly the PALs of the given ids go. |
| `DetLog.StoreKeepsAll` | ft_thesis/src/loggers/tcp_servers/det_logger_server.cc:125-138 | Storing keeps, for every middlebox: index = vector length = stores minus deletes, the vector is what is left of everything stored, every id with PALs still occurs in it, and every record holds the gpals and the spals of all stores of its id since it was last removed, in store order. |
| `DetLog.DropKeepsAll` | ft_thesis/src/loggers/tcp_servers/det_logger_server.cc:311-351 | Deleting the first n ids keeps the same invariant: ids removed lose their records, all others keep theirs. |
| `DetLog.DetLoggerServer.RecordOf` | ft_thesis/src/loggers/tcp_servers/det_logger_server.cc:125-138 | In every state of the server: an id has a record exactly when it was stored since it was last removed, and the record is the concatenation of what was stored with it since. |
| `DetLog.SinceIs` | ft_thesis/src/loggers/tcp_servers/det_logger_server.cc:387-405 | Since it was last removed: the part of the history behind the last deletion that names it. |
| `PacketLogger.PacketLoggerServer.ProcessStoreRequest` | ft_thesis/src/loggers/tcp_servers/packets_logger_server.cc:452-472 | One version, with its offset and all its data, is appended to those of its base, however many there are already; other bases keep theirs. |
| `PacketLogger.PacketLoggerServer.GetPacket` | ft_thesis/src/loggers/tcp_servers/packets_logger_server.cc:349-399 | Writes the overlay of the first min(v, counter) versions in version order over the caller's buffer, reports the largest size among them, and touches nothing when the base is unknown. |
| `PacketLogger.PacketLoggerServer.DeletePacket` | ft_thesis/src/loggers/tcp_servers/packets_logger_server.cc:401-449 | Refuses, changing nothing, exactly when the base's counter is above the id's version number. |
| `PacketLogger.PacketLoggerServer.ProcessDeletePacketsRequest` | ft_thesis/src/loggers/tcp_servers/packets_logger_server.cc:300-330 | Deletes the ids one after the other. |
| `PacketLogger.PacketLoggerServer.StoreAll` | ft_thesis/src/loggers/tcp_servers/packets_logger_server.cc:207-225 | After any list of store requests to an empty logger each base holds the version, offset and data of the requests for it, in order. |
| `PacketLogger.PacketLoggerServer.StoreAndGet` | ft_thesis/src/loggers/tcp_servers/packets_logger_server.cc:349-472 | If versions 1 to n of a packet were sent once each, in any order and mixed with other packets, a request for version v writes at every byte what the highest version up to v sent there, and nothing elsewhere. |
| `PacketStore.DeleteAllRemoves` | ft_thesis/src/loggers/tcp_servers/packets_logger_server.cc:401-449 | A base is gone after a list of deletions exactly when some id of the list has that base and a version no lower than its counter (the number of versions held, modulo 256); what stays is unchanged. |
| `PacketStore.ArrivalOrderDoesNotMatter` | ft_thesis/src/loggers/tcp_servers/packets_logger_server.cc:384-394 | If versions 1..n are stored once each, what a request overlays does not depend on the order they arrived in. |
| `PacketStore.RebuiltByte` | ft_thesis/src/loggers/tcp_servers/packets_logger_server.cc:349-399 | Then every byte of the rebuilt packet is that of the highest version up to the requested one that covers it, or the buffer's own byte where none does. |
| `PacketStore.NoNewerVersionIff` | ft_thesis/src/loggers/tcp_servers/packets_logger_server.cc:375-394 | For any stored versions: a request mixes in no version newer than it asked for exactly when at least as many versions up to it are stored as its number says, or as the counter does. |
| `PacketStore.VersionGapMixesNewer` | ft_thesis/src/loggers/tcp_servers/packets_logger_server.cc:375-394 | It does when versions 1 and 3 were stored and 2 is asked for: the answer holds the bytes of version 3. |
| `PacketStore.ReportedLengthExact` | ft_thesis/src/loggers/tcp_servers/packets_logger_server.cc:393 | The reported length never exceeds what was written, and equals it exactly when a version that reaches the end starts at offset 0. |
| `PacketStore.ZeroOffsetsReportExtent` | ft_thesis/src/loggers/tcp_servers/packets_logger_server.cc:393 | With all offsets 0 the reported length is exactly the extent written. |
| `RecoveryProtocol.StepKeepsInv` | ft_thesis/src/loggers/tcp_servers/cleanupManagerServer.cc:412-527 | Every atomic step (stores at both sides, each query, each delete request) keeps the protocol invariant: a snapshot stays a prefix of its log until the deletion it justifies is sent. |
| `RecoveryProtocol.RunsKeepInv` | ft_thesis/src/loggers/tcp_servers/cleanupManagerServer.cc:412-527 | The invariant holds in every state of every run. |
| `RecoveryProtocol.PacketLeavesOnlyAfterSlave` | ft_thesis/src/loggers/tcp_servers/cleanupManagerServer.cc:452-527 | In every run and in all three branches: when a base leaves the packet logger, the slave has logged an id of that base with a version at least the counter of versions then stored. |
| `RecoveryProtocol.ReplaySendsOnlyMasterIds` | ft_thesis/src/loggers/tcp_servers/cleanupManagerServer.cc:412-449 | In every run only ids that the master logged are ever replayed, and the replay loop never leaves its vector. |
| `RecoveryProtocol.MasterCountRemovesCommon` | ft_thesis/src/loggers/tcp_servers/cleanupManagerServer.cc:489-493 | In every run, however much was stored since the snapshot, the count sent to the master's logger removes exactly the common ids (nonempty master snapshot, regular branch). |
| `RecoveryProtocol.SlaveCountRemovesDeletedIds` | ft_thesis/src/loggers/tcp_servers/cleanupManagerServer.cc:495-510 | In every run the count sent to the slave's logger removes, as a multiset, exactly the ids the next request deletes from the packet logger by id (regular branch). |
| `RecoveryProtocol.MasterDeletionSafeIff` | ft_thesis/src/loggers/tcp_servers/cleanupManagerServer.cc:481-493 | With a nonempty master snapshot the ids taken from the master's logger were all processed by the slave if and only if the clear did not take the delete-all branch. |
| `RecoveryProtocol.EmptySnapshotDeletesFreshIds` | ft_thesis/src/loggers/tcp_servers/cleanupManagerServer.cc:472-475 | With an empty master snapshot the slave's count is sent to the master's logger: it removes ids stored since the snapshot, and removes something exactly when there are any. |
| `RecoveryProtocol.StepLosesIff` | ft_thesis/src/loggers/tcp_servers/cleanupManagerServer.cc:452-527 | The one step that loses a master id is the delete whose count takes it out of the master's log while the slave has not logged it; storing it again at either side is what brings it back. |
| `RecoveryProtocol.LostIff` | ft_thesis/src/loggers/tcp_servers/cleanupManagerServer.cc:452-527 | In every run an id is lost at a moment if and only if some earlier delete took it unprocessed and neither side has stored it since. |
| `RecoveryProtocol.MasterIdsSurviveIff` | ft_thesis/src/loggers/tcp_servers/cleanupManagerServer.cc:452-527 | In every run: at all times every id the master ever logged is in its log or was logged by the slave, if and only if no delete takes an unprocessed one. |
| `RecoveryProtocol.MasterIdsSurvive` | ft_thesis/src/loggers/tcp_servers/cleanupManagerServer.cc:452-527 | In particular the branches the manager can tell are safe: a run whose clears take the regular branch on a nonempty master snapshot, or find nothing stored since an empty one, loses none. |
| `RecoveryProtocol.DeleteAllLosesMasterId` | ft_thesis/src/loggers/tcp_servers/cleanupManagerServer.cc:481-488 | The delete-all branch can lose a master id the slave never had: a reachable state. |
| `RecoveryProtocol.EmptySnapshotLosesMasterId` | ft_thesis/src/loggers/tcp_servers/cleanupManagerServer.cc:472-475 | So can an empty master snapshot followed by a store: a reachable state. |
| `SharedPacketLogger.SharedRunsKeepInv` | ft_thesis/src/loggers/tcp_servers/cleanupManagerServer.cc:372-375 | With any number of pairs behind one packet logger, every pair's invariant holds in every state of every run of all of them together. |
| `SharedPacketLogger.BaseLeavesOnlyAfterItsSlave` | ft_thesis/src/loggers/tcp_servers/cleanupManagerServer.cc:452-527 | In every such run a base leaves the packet logger only after the slave of the pair whose clear took it has logged a version at least its counter. |
| `SharedPacketLogger.NeededIsLostIff` | ft_thesis/src/loggers/tcp_servers/cleanupManagerServer.cc:372-375 | A step takes away a packet that another pair's master has in its log and whose slave has nothing of if and only if the step is the delete request of some other pair and names a version of it no lower than its counter. |
| `SharedPacketLogger.SeparatePairsAreSafe` | ft_thesis/src/loggers/tcp_servers/cleanupManagerServer.cc:372-375 | If each base is logged by one pair only, a base leaves only after the slave of every pair whose master ever logged it has caught up. |
| `SharedPacketLogger.SharedBaseIsLost` | ft_thesis/src/loggers/tcp_servers/cleanupManagerServer.cc:372-375 | It is not so for the pairs 6 to 7 and 7 to 10, whose packets are the same: a reachable state in which the second pair needs a packet that the first pair cleared. |
| `DrainRound.ReplayOfPairs` | ft_thesis/src/loggers/tcp_servers/cleanupManagerServer.cc:412-449 | When the master logged a (v1, v2) pair per base and the slave has whole packets of a prefix, the replay list is the first versions of the rest. |
| `DrainRound.HandledFirsts` | ft_thesis/src/newEntities/mb7.click:18-27 | What the slave logs for a replayed first version is the id and its next version, so handling first versions yields whole pairs. |
| `DrainRound.ClearOfPairs` | ft_thesis/src/loggers/tcp_servers/cleanupManagerServer.cc:452-527 | A clear then takes the slave's prefix off both logs and out of the packet logger, through the regular branch. |
| `DrainRound.RoundOfPairs` | ft_thesis/src/loggers/tcp_servers/cleanupManagerServer.cc:236-251 | A round keeps the pairing and reports packets exactly while the master's log is not empty; whenever it is not, at least one whole packet leaves both logs. |
| `CleanupManager.CleanupManagerServer.Replay` | ft_thesis/src/loggers/tcp_servers/cleanupManagerServer.cc:412-449 | For any set of marked bases: the plan is the erase loop's on the two first-version lists and its length is returned, unless the loop leaves its vector; when no base of the master's log is marked it is the list of missing first versions. A master without a slave gives -1. |
| `CleanupManager.CleanupManagerServer.ClearReplayedPackets` | ft_thesis/src/loggers/tcp_servers/cleanupManagerServer.cc:452-527 | For any logs and any limit the in-place clear over three servers computes `Cleared`. For generated ids, with n and r the lengths of what the logs match in front: n ids leave the master's log and r the slave's, r is returned, and a base leaves the packet logger exactly when one of these r ids names it with a version no lower than its counter; but when nothing matches and the master's log is shorter than twice the slave's, both logs are emptied, no packet goes and 0 is returned. Other middleboxes are left alone. |
| `DrainRound.ClearHasOutcome` | ft_thesis/src/loggers/tcp_servers/cleanupManagerServer.cc:452-527 | That outcome, proved of the clear in all its branches. |
| `DrainRound.MatchesOnce` | ft_thesis/src/loggers/tcp_servers/cleanupManagerServer.cc:758-863 | The two numbers are fixed by the two lists. |
| `DrainRound.ClearIsRun` | ft_thesis/src/loggers/tcp_servers/cleanupManagerServer.cc:452-527 | The protocol's steps of a clear with nothing in between are this clear, for all logs. |
| `DrainRound.RequestsClear` | ft_thesis/src/loggers/tcp_servers/cleanupManagerServer.cc:452-527 | So is delivering its requests one after the other. |
| `DrainRound.ReplayIsRun` | ft_thesis/src/loggers/tcp_servers/cleanupManagerServer.cc:412-449 | The list that the protocol's two queries plan is the list the replay sends, and exactly its ids are recorded as sent. |
| `CleanupManager.CleanupManagerServer.Round` | ft_thesis/src/loggers/tcp_servers/cleanupManagerServer.cc:236-251 | One round with a slave that handles some nonempty prefix of a nonempty replay list before the clear. |
| `CleanupManager.CleanupManagerServer.ReplayAndClearPackets` | ft_thesis/src/loggers/tcp_servers/cleanupManagerServer.cc:236-251 | The same for any middlebox id and any logs; without a slave nothing happens. |
| `CleanupManager.CleanupManagerServer.DrainMaster` | ft_thesis/src/loggers/tcp_servers/cleanupManagerServer.cc:322-328 | The stop-master loop terminates with both logs empty, the packet logger left as one deletion of all the old master's pairs leaves it, so that every packet of it with a counter of at most two is gone, and all other middleboxes' logs unchanged; a master without a slave ends the loop at once. |
| `CleanupManager.CleanupManagerServer.ProcessTsaStopMasterRequest` | ft_thesis/src/loggers/tcp_servers/cleanupManagerServer.cc:303-335 | The request drains the old master and runs one round for the new one on the logs the drain leaves; the old master's logs end empty and its packets gone; a new master of 0 is refused and changes nothing. Either middlebox may be without a slave. |
| `SwitchGraph.IsNeighborExist` | ft_thesis/src/tsa/tsaBE.py:293-302 | With a port: exactly that entry is listed. Without: some entry leads to the switch. |
| `SwitchGraph.GetPortToNeighbor` | ft_thesis/src/tsa/tsaBE.py:658-663 | The first recorded port to the switch, or none. |
| `GraphObject.BuildGraph` | ft_thesis/src/tsa/tsaBE.py:255-289 | The graph object holds exactly the graph of the link list, with no visited bit set: a switch lists a neighbour exactly when a link of the list gives it. |
| `SwitchGraph.BuiltIff` | ft_thesis/src/tsa/tsaBE.py:268-285 | A switch lists a neighbour by a port if and only if some reported link joins them there. |
| `SwitchGraph.BuiltHasNoRepeats` | ft_thesis/src/tsa/tsaBE.py:275-283 | No entry is listed twice. |
| `SwitchGraph.BuiltFirstPort` | ft_thesis/src/tsa/tsaBE.py:268-285 | The port first recorded towards a switch is that of the first reported link between the two. |
| `SwitchGraph.BuiltPathIff` | ft_thesis/src/tsa/tsaBE.py:506-539 | On the graph a path is found if and only if the reported links lead from one switch to the other. |
| `SwitchGraph.BuiltIsWellBuilt` | ft_thesis/src/tsa/tsaBE.py:255-289 | In that graph adjacency is mutual, and the ports first recorded at the two ends of an adjacency belong to one link. |
| `GraphObject.Graph.RemoveOneDirectionLinks` | ft_thesis/src/tsa/tsaBE.py:306-325 | Although it tests the graph it is mutating, the loop keeps exactly the entries whose reverse existed originally, in order. |
| `SwitchGraph.KeptIn` | ft_thesis/src/tsa/tsaBE.py:306-325 | An entry is kept exactly when the neighbour's original list leads back. |
| `SwitchGraph.KeptPicks` | ft_thesis/src/tsa/tsaBE.py:306-325 | The entries kept stand in their original order, once for each position that leads back. |
| `SwitchGraph.PruningBuiltIsIdentity` | ft_thesis/src/tsa/tsaBE.py:306-325 | On a graph built from a link list the pruning changes nothing. |
| `GraphObject.Graph.TurnOffVisitedBit` | ft_thesis/src/tsa/tsaBE.py:511-513 | All visited bits are cleared, no neighbour list changes. |
| `GraphObject.Graph.GetPath` | ft_thesis/src/tsa/tsaBE.py:516-539 | The recursion over visited bits terminates and computes the functional search, result and bits alike, from any state of the bits. |
| `GraphObject.Graph.FindPathBetweenNodes` | ft_thesis/src/tsa/tsaBE.py:506-509 | The path found after clearing the bits. |
| `SwitchGraph.FindPathCorrect` | ft_thesis/src/tsa/tsaBE.py:506-539 | It is a simple path of neighbour links from source to target, and there is none exactly when no path exists. |
| `SwitchGraph.FindPathFirst` | ft_thesis/src/tsa/tsaBE.py:516-539 | Of all simple paths it is the first in the order of the neighbour lists: any other leaves it by a neighbour listed later. |
| `ChainRoute.SegmentHopsAre` | ft_thesis/src/tsa/tsaBE.py:584-608 | The ports of each hop of a segment: those first recorded towards the previous and the next switch, the source's and the middlebox's at the ends. |
| `ChainRoute.SegmentKeysDistinct` | ft_thesis/src/tsa/tsaBE.py:568-654 | Within one segment no two rules share switch and ingress port, because the path is simple. |
| `ChainCompiler.CompiledChain` | ft_thesis/src/tsa/tsaBE.py:542-654 | A chain that compiles gives one rule per hop along an unbroken route from the sender through the middleboxes in order, tagging on the first hop and stripping on the last one of a chain of two or more. |
| `ChainCompiler.CompileOkIff` | ft_thesis/src/tsa/tsaBE.py:542-654 | A chain compiles to its end if and only if its sender and middleboxes are known and there is a way over the switches to each of them; otherwise exactly the segments before the first middlebox without one are installed, tagged and not stripped. |
| `PacketJourney.LastInstalledWins` | ft_thesis/src/tsa/tsaBE.py:685-798 | The last rule installed for a match is the one in force (section 4.6 of the OpenFlow Switch Specification 1.0.0). |
| `ChainRoute.WalkVisitsAllIff` | ft_thesis/src/tsa/tsaBE.py:542-654 | A walk under overwriting rules visits all middleboxes in order exactly when no two hops share switch and ingress port and none sends a packet back where it came from. |
| `PacketJourney.ChainImplementedIff` | ft_thesis/src/tsa/tsaBE.py:542-798 | In the network of the controller's links, for any tables, packet and number of steps: a matching packet from the sender meets the middleboxes in chain order and nothing else if and only if no two rules of the chain share switch and ingress port, none leads back to its ingress port and nothing is met behind the last middlebox, or what is met there makes good what a clash left out; the latter takes a chain that names its last middlebox before. Packets carry stacks of tags, and middleboxes may put tags below the chain's. |
| `PacketJourney.NoHairpinIff` | ft_thesis/src/tsa/tsaBE.py:542-654 | A rule of a compiled chain leads back to its ingress port if and only if the chain names one middlebox twice in a row. |
| `PacketJourney.TravelGoesOn` | ft_thesis/src/tsa/tsaBE.py:542-798 | A packet standing anywhere on the route makes the visits of the walk, and then whatever a packet with its tags of that moment meets from the last middlebox's port on. |
| `PacketJourney.PlainEndMisses` | ft_thesis/src/tsa/tsaBE.py:568-606 | Where middleboxes put no tags on frames, no rule at the last middlebox's port can match there, whatever else is in the tables. |
| `PacketJourney.LeavesIff` | ft_thesis/src/tsa/tsaBE.py:568-606 | A chain has a rule at a middlebox's port if and only if it names that middlebox before its end. |
| `PacketJourney.CleanJourney` | ft_thesis/src/tsa/tsaBE.py:542-798 | Then after each number of hops the packet is where the next rule expects it, with the chain's vlan id outermost on every hop past the first, and with no tag at all behind the last middlebox of two or more if middleboxes add none. |
| `PacketJourney.RepeatedMiddleboxClashes` | ft_thesis/src/tsa/tsaBE.py:542-654 | A chain that leaves one middlebox twice always has two rules that share switch and ingress port. |
| `ChainFailures.DistinctMiddleboxesClash` | ft_thesis/src/tsa/tsaBE.py:542-654 | So does a chain of four different middleboxes that alternates between two switches: it compiles to its end, and two of its rules share switch and ingress port. |
| `TsaServer.Tsa.InstallRulesToFirstMB` | ft_thesis/src/tsa/tsaBE.py:610-654 | The loop installs the rules of the first segment and records its switches; an unknown sender or middlebox or a missing path stops it. |
| `TsaServer.Tsa.InstallPolicyChainBetweenTwoMiddleboxes` | ft_thesis/src/tsa/tsaBE.py:568-606 | The same for a later segment; an unknown source is passed over, an unknown target raises. |
| `TsaServer.Tsa.AddHopRule` | ft_thesis/src/tsa/tsaBE.py:685-798 | One rule and one entry of the full flow. |
| `TsaServer.Tsa.InstallPolicyChainRules` | ft_thesis/src/tsa/tsaBE.py:542-564 | Registers the chain and installs the whole compilation, up to the first exception. |
| `ChainRules.GetFullMatchFields` | ft_thesis/src/tsa/tsaBE.py:667-681 | A name is matched on exactly when a user field sets it: every field sets its own name, ports set nw_proto to 6, and ports and addresses set dl_type to 2048; the last field that sets a name decides its value. |
| `ChainRules.CompileRecords` | ft_thesis/src/tsa/tsaBE.py:542-798 | Whatever part of a chain gets compiled, the full flow records every switch that was given a tagged rule, past its second entry. |
| `AllChains.CompileRecordsHops` | ft_thesis/src/tsa/tsaBE.py:542-798 | The full flow of a complete chain lists the switches of its hops in order, each segment behind the name of where it starts. |
| `ChainRules.RemovedAre` | ft_thesis/src/tsa/tsaBE.py:802-824 | A rule survives an uninstall, unchanged, exactly when no entry of the full flow hits it. |
| `TsaServer.Tsa.UninstallPolicyChainRules` | ft_thesis/src/tsa/tsaBE.py:802-824 | The loop over the full flow performs exactly those removals. |
| `ChainRules.UninstallClears` | ft_thesis/src/tsa/tsaBE.py:802-882 | Afterwards no rule with the chain's vlan id is left on any switch, and every tagged rule of every other vlan id is as it was. |
| `ChainRules.UninstallTakesUntaggedIff` | ft_thesis/src/tsa/tsaBE.py:814-820 | An untagged rule goes exactly when it sits on the sender's switch and includes the chain's fields, whichever host it was for: the ingress port is computed but not passed on. |
| `AllChains.AddThenRemove` | ft_thesis/src/tsa/tsaBE.py:407-430 | Adding a chain and removing it again leaves the tables as they were, except that the untagged rules on the sender's switch that include its fields are gone, if the chain had rules at all. |
| `ChainFailures.RemovalTakesOthersTag` | ft_thesis/src/tsa/tsaBE.py:814-820 | Two hosts on one switch, the fields of one chain among those of the other: removing the first chain takes the other's tagging rule. |
| `ChainRules.InstallKeepsInv` | ft_thesis/src/tsa/tsaBE.py:542-564 | Installing under a vlan id that nobody holds keeps the registry invariant, even when the compilation breaks off. |
| `ChainRules.InstallOwnedIff` | ft_thesis/src/tsa/tsaBE.py:542-564 | Registering a chain under a fresh vlan id leaves no tagged rule without a registered owner if and only if its key was not registered before or no rule is left with the vlan id it had. |
| `ChainFailures.AddingTwiceOrphans` | ft_thesis/src/tsa/tsaBE.py:407-430 | The chain m1,m2 added twice under one key leaves the rule of its first vlan id without an owner. |
| `ChainRules.UninstallOwned` | ft_thesis/src/tsa/tsaBE.py:802-882 | Uninstalling a chain leaves no tagged rule without an owner. |
| `ChainRules.ReinstallIsFreshInstall` | ft_thesis/src/tsa/tsaBE.py:934-963 | Uninstalling and installing again under the same vlan id leaves the tagged rules of a fresh installation. |
| `ChainRules.InvIsForeign` | ft_thesis/src/tsa/tsaBE.py:407-430 | When a running server installs a new chain, what its tables hold cannot catch the chain's packets exactly when every rule at the sender's port that fits the packet is this chain's own match. |
| `TsaServer.Tsa.GetVlanId` | ft_thesis/src/tsa/tsaBE.py:498-502 | Each vlan id is handed out once. |
| `TsaServer.Tsa.AddPolicyChain` | ft_thesis/src/tsa/tsaBE.py:407-430 | A new chain takes a fresh vlan id and, if it installs to its end, the next pcid; empty match fields fail after taking a vlan id and change nothing else; the server invariant is kept, and rules are orphaned exactly when the key was registered and rules with its former vlan id are still there. |
| `TsaServer.Tsa.RemovePolicyChain` | ft_thesis/src/tsa/tsaBE.py:971-981 | Fails exactly for an unregistered key; else the key goes and with it one pcid that stood for it, if any; its vlan id is on no switch, no rule is orphaned, and the invariant is kept. |
| `TsaServer.Tsa.ReplaceMasterMB` | ft_thesis/src/tsa/tsaBE.py:934-963 | An unregistered key fails and changes nothing. Else the chain has the text with the name replaced under its old vlan id, the tables are those after uninstalling it and installing that text, and success is whether it compiles to its end; other chains keep their data, and no rule is orphaned. |
| `TsaServer.Tsa.DoHandleReplacingMasterMB` | ft_thesis/src/tsa/tsaBE.py:476-496 | After failover each chain that named the old middlebox has under its vlan id the rules of a fresh installation, and each other chain has its old data and its old rules under its vlan id; a chain has its tagging rule exactly when `TagLeft` says so for the order of re-installation; success is reported exactly when every re-installation ran to its end, and no rule is orphaned. |
| `TsaServer.UntouchedTagSurvivesIff` | ft_thesis/src/tsa/tsaBE.py:476-496 | After it, the tagging rule of a chain that was not re-installed is there if and only if it was before and no re-installed chain on the same sender switch has fields that its match includes, nor installs a rule for its very match. |
| `TsaServer.TagAfterIsLeft` | ft_thesis/src/tsa/tsaBE.py:476-496 | What a sequence of re-installations leaves of any chain's tagging rule, the re-installed chains' own included: the last installation counts if it put rules in, else the rule from before, provided no chain re-installed after that takes it. |
| `ChainService.ExchangeKeepsTagIff` | ft_thesis/src/tsa/tsaBE.py:934-963 | One re-installation leaves another chain's tagging rule exactly when it neither removes nor replaces it. |
| `ChainService.ServedIsImplementedIff` | ft_thesis/src/tsa/tsaBE.py:542-798 | At any time, whatever other chains are installed: packets of a served chain meet its middleboxes in order and nothing else if and only if its rules share no switch and ingress port, it names no middlebox twice in a row and nothing is met behind the last one, or what is met there makes good a clash. |
| `ChainService.OverlapIsCommonPacket` | ft_thesis/src/tsa/tsaBE.py:667-681 | Two sets of match fields agree on the fields they share exactly when some packet fits both. |
| `ChainService.NewServedIff` | ft_thesis/src/tsa/tsaBE.py:407-430 | A newly added chain is served exactly when it compiles to its end and no other rule at its sender's port has a packet in common with it. |
| `ChainService.InstallServesIff` | ft_thesis/src/tsa/tsaBE.py:542-564 | Installing another chain leaves a chain served exactly when it installs nothing, or the two enter by different ports or have no packet in common. |
| `ChainService.UninstallServesIff` | ft_thesis/src/tsa/tsaBE.py:802-824 | Uninstalling another chain leaves a chain served exactly when the removal by match fields does not hit its tagging rule. |
| `ChainService.ExchangeServesIff` | ft_thesis/src/tsa/tsaBE.py:934-963 | Re-installing another chain leaves a chain served exactly when both conditions hold. |
| `ChainService.AddKeepsAllServedIff` | ft_thesis/src/tsa/tsaBE.py:407-430 | Adding a chain leaves every registered chain served, the new one included, if and only if it compiles to its end, no other rule at its sender's port has a packet in common with it, and no other chain entering by that port has. |
| `ChainService.RemoveKeepsAllServedIff` | ft_thesis/src/tsa/tsaBE.py:971-981 | Removing a chain leaves every other chain served if and only if the removal hits none of their tagging rules. |
| `ChainService.ExchangeKeepsAllServedIff` | ft_thesis/src/tsa/tsaBE.py:934-963 | Re-installing a chain leaves every chain served if and only if it compiles to its end, is alone at its port by then, spares the other tagging rules and has no packet in common with another chain of its port. |
| `AllChains.QuietIff` | ft_thesis/src/tsa/tsaBE.py:568-606 | While all chains are served and own all rules: nothing waits for a chain's packets behind its last middlebox if and only if no registered chain has the exposed tag as its vlan id and names that middlebox before its own end. |
| `AllChains.CaughtGoesOn` | ft_thesis/src/tsa/tsaBE.py:568-606 | A packet that is caught there goes through all that the other chain visits behind that middlebox, and on from the end of that chain. |
| `AllChains.InstallKeepsQuietIff` | ft_thesis/src/tsa/tsaBE.py:542-564 | Putting in rules keeps that place empty if and only if none of them carries the exposed tag at that port. |
| `AllChains.UninstallKeepsQuiet` | ft_thesis/src/tsa/tsaBE.py:802-824 | An uninstall always does. |
| `AllChains.AllImplementedIff` | ft_thesis/src/tsa/tsaBE.py:407-430 | While all registered chains are served, every packet of every chain meets exactly its chain, for however long, if and only if no chain clashes with itself, none names a middlebox twice in a row, and none catches the packets of a chain (itself included) behind its last middlebox. |
| `AllChains.AddKeepsAllImplementedIff` | ft_thesis/src/tsa/tsaBE.py:407-430 | Adding a chain leaves every registered chain served and implemented if and only if it leaves them served, does not clash with itself, and neither catches nor is caught: conditions on its names, its vlan id and the exposed tags. |
| `AllChains.RemoveKeepsAllImplementedIff` | ft_thesis/src/tsa/tsaBE.py:971-981 | Removing a chain does if and only if it hits no other chain's tagging rule. |
| `AllChains.ExchangeKeepsAllImplementedIff` | ft_thesis/src/tsa/tsaBE.py:934-963 | Re-installing a chain does under the conditions of a removal and an addition together. |
| `CaughtPackets.ExposedTagIsCaught` | ft_thesis/src/tsa/tsaBE.py:568-606 | It does happen: with m2,m1 registered first (vlan id 1) everything works; m1,m2 is added, m1 stamps the id tags 1, 1 and 3072, both chains are served and clean, and every packet of the second one meets m1, m2 and m1 again. |
| `CaughtPackets.ClashMadeGood` | ft_thesis/src/tsa/tsaBE.py:568-606 | The other exception happens too: m1,m2,m1,m2 clashes with itself, and all its packets meet it in order because the chain m2,m1,m2 catches them. |
| `CaughtPackets.StampsAreIds` | ft_thesis/src/packetIdEncap/packetIdEncap.cc:247-295 | The stamps in both are those of producer 6: of its first number, and of number 384. |
| `ChainText.ReplaceDistributes` | ft_thesis/src/tsa/tsaBE.py:957 | Replacing in the text of a chain is replacing in each of its names. |
| `ChainText.ReplacePieces` | ft_thesis/src/tsa/tsaBE.py:957 | The text is cut at the leftmost occurrences, none overlapping another, and joined again with the new name. |
| `ChainText.SplitJoins` | ft_thesis/src/tsa/tsaBE.py:482 | The names of a chain hold no comma, and joined by commas they are its text. |
| `ChainText.ReplaceSubstitutesIff` | ft_thesis/src/tsa/tsaBE.py:957 | The text replacement exchanges the middlebox and nothing else if and only if no other name of the chain contains the old name. |
| `ChainText.PrefixNamesAreCaught` | ft_thesis/src/tsa/tsaBE.py:957 | It does not for m1 in a chain with m10. |
| `UnionFind.UnionFind.MakeSet` | ft_thesis/src/tsa/utils.py:26-29 | The element gets a fresh root of rank 0, also if it had a set before: then it leaves that set, whose other elements stay connected as they were. |
| `Forest.RestrictedIsConnected` | ft_thesis/src/tsa/utils.py:26-29 | The unions that remain when an element leaves connect exactly the pairs of other elements that were connected before. |
| `UnionFind.UnionFind.Find` | ft_thesis/src/tsa/utils.py:47-55 | Returns the root, points every node on the way at it, and changes no class, rank or union. |
| `UnionFind.UnionFind.Union` | ft_thesis/src/tsa/utils.py:32-44 | Joins the two classes under the root of higher rank; between equals the first root stays and its rank goes up by one. |
| `UnionFind.SameRootIff` | ft_thesis/src/tsa/utils.py:32-55 | After any run of make_set, union and find: two elements have the same root if and only if the unions performed connect them. |
| `UnionFind.RanksAreLogarithmic` | ft_thesis/src/tsa/utils.py:20-55 | A root of rank r heads at least 2^r made roots, and no element is more than one link further from its root than the logarithm of the number of sets made. |
| `Forest.CompressionIsSafe` | ft_thesis/src/tsa/utils.py:47-55 | Path compression keeps all roots and the rise of ranks along every link. |
| `SequenceGenerator.PushPacketId.GetNexSeqNum` | ft_thesis/src/pushPacketId.cc:41-58 | The loop terminates and call n returns the n-th valid number, for every n, across the wrap at 2^28. |
| `SequenceGenerator.NthIsValid` | ft_thesis/src/pushPacketId.cc:23-37 | The closed form hits only valid 28-bit numbers, and its rank recovers the position. |
| `SequenceGenerator.NthIsComplete` | ft_thesis/src/pushPacketId.cc:23-37 | Every valid number below 2^28 is in the enumeration. |
| `SequenceGenerator.NthSkipsNothing` | ft_thesis/src/packetIdEncap/packetIdEncap.cc:228-244 | Within a period the numbers rise, and no valid number lies between two consecutive ones. |
| `SequenceGenerator.NthRepeatsIff` | ft_thesis/src/packetIdEncap/packetIdEncap.cc:228-244 | Two calls return the same number exactly when they are whole periods of 268304384 calls apart. |
| `SequenceGenerator.ValidNumbersCounted` | ft_thesis/src/ft_thesis.cc:35-37 | 268304384 of the 28-bit numbers are valid. |
| `SequenceGenerator.IdIsConcatenation` | ft_thesis/src/packetIdEncap/packetIdEncap.cc:247-295 | For producers 1..6 the id is producer * 2^33 + number * 2^5 + 1, and all three tags hold usable vlan ids. |
| `SequenceGenerator.BasesRepeatIff` | ft_thesis/src/packetIdEncap/packetIdEncap.cc:281-295 | Two packets get the same base exactly when the same producer numbered them whole periods apart; every base is below 7 * 2^28. |
| `SequenceGenerator.PushPacketId.CreateId` | ft_thesis/src/pushPacketId.cc:97-111 | The id of call n is that of the n-th number. |
| `TagStack.Packet.PushVlanLayer` | ft_thesis/src/packetIdEncap/packetIdEncap.cc:297-328 | Four bytes pushed in front and a memmove of 16: bytes 16 to 19 of the frame are 81 00 and the tag in network order, and no other byte changes, whether or not the headroom had to be grown; vlan id 0 is not pushed. |
| `TagStack.Encapsulate` | ft_thesis/src/packetIdEncap/packetIdEncap.cc:452-470 | The frame is stamped with the tags of the next number, innermost first, and the annotation holds the id. |
| `TagStack.Packet.ExtractVlanByLevel` | ft_thesis/src/preparePacket/preparePacket.cc:177-204 | The two bytes behind 81 00 at byte 12 + 4 * level; 0 for a level above 3 or where these do not stand. |
| `TagStack.Packet.SetIdFromWire` | ft_thesis/src/preparePacket/preparePacket.cc:241-257 | The annotation becomes the id on the wire, 0 when a tag is missing or zero. |
| `TagStack.StampThenRead` | ft_thesis/src/preparePacket/preparePacket.cc:241-257 | For every frame of at least 16 bytes: stamping inserts twelve bytes behind the first sixteen, and reading at level offset 1 gives the id back. |
| `TagStack.OtherOffsetsReadNothing` | ft_thesis/src/preparePacket/preparePacket.cc:241-257 | At offset 2 and up the stamp reads as 0, at offset 0 too unless the frame brought its own tag. |
| `TagStack.Packet.IncreaseVersionNumber` | ft_thesis/src/increaseVersionNumber/increaseVersionNumber.cc:270-297 | Adds one, modulo 2^16, to bytes 18 and 19 if 81 00 stands before them, changing no other byte, and one to the annotation in any case. |
| `TagStack.BumpsAgreeIff` | ft_thesis/src/increaseVersionNumber/increaseVersionNumber.cc:284-297 | After k bumps of a stamped frame the id on the wire is the one the annotation has counted to, with the original base, if and only if k <= 30; no other byte changes. |
| `TagStack.WireAgreesIff` | ft_thesis/src/increaseVersionNumber/increaseVersionNumber.cc:284-297 | For any k and the annotation alone: the two ids agree exactly while the tag at byte 16 has not wrapped and what it carries beyond its low twelve bits meets only zeros in the middle tag. |
| `TagStack.VlanIdsStayUsable` | ft_thesis/src/increaseVersionNumber/increaseVersionNumber.cc:284-297 | All three vlan ids stay within 1..4094 through version 30; version 31 makes the outer one reserved exactly when the low seven bits of the number are all ones. |
| `PalsCodec.PALSManager.Serialize` | ft_thesis/src/loggers/common/pal_api/pals_manager.hh:187-200 | The pointer-advancing writes over the buffer give the layout: middlebox, packet and number of gpals at bytes 0, 2 and 10, gpals in slots of 52 bytes, number of spals and spals in slots of 8, words lowest byte first; the announced length is 14 + 52 g + 8 s. |
| `PalsCodec.PALSManager.Deserialize` | ft_thesis/src/loggers/common/pal_api/pals_manager.hh:261-272 | Reads any buffer that holds PALs in that layout as those PALs; list slots past the announced counts keep what they held. |
| `PalsCodec.RoundTrip` | ft_thesis/src/loggers/common/pal_api/pals_manager.hh:187-350 | Whatever the buffer held before, deserializing what was serialized gives the same middlebox, packet and PALs. |
| `PalsCodec.SerializedIsLaidOut` | ft_thesis/src/loggers/common/pal_api/pals_manager.hh:187-350 | The layout of what is written, byte by byte. |
| `PalsCodec.WritesStayInside` | ft_thesis/src/loggers/common/pal_api/pals_manager.hh:187-343 | Nothing is written past the announced length, nor into the last two bytes of an spal's slot. |
| `PalsCodec.SendPals` | ft_thesis/src/loggers/common/pal_api/pals_manager.hh:81-109 | PALs added one by one to a manager, written to a buffer and taken over by another manager arrive as they were. |
| `ReplayCodec.SerializeReplayPacketsByIds` | ft_thesis/src/loggers/tcp_clients/packets_logger_client.cc:51-79 | The request as written over a buffer: middlebox and port in bytes 0 to 3, the address's length in byte 4 and the address behind it, and from byte 21 on the ids of 8 bytes each, lowest byte first. |
| `ReplayCodec.DeserializeClientReplayRequest` | ft_thesis/src/loggers/tcp_servers/packets_logger_server.cc:119-161 | The request as read from those bytes of a buffer of any content and any announced length, shorter than a header too; an address longer than its field is reported as an overrun. |
| `ReplayCodec.RoundTripIff` | ft_thesis/src/loggers/tcp_servers/packets_logger_server.cc:119-161 | A request survives the trip if and only if its address is padded with zeros, whatever the buffer held. |
| `ReplayCodec.CountIsExact` | ft_thesis/src/loggers/tcp_servers/packets_logger_server.cc:141-142 | The number of ids comes out right for every list, although the decoder takes the header for a byte too short. |
| `ReplayCodec.ReadsBeyondIff` | ft_thesis/src/loggers/tcp_servers/packets_logger_server.cc:141-142 | For an arbitrary length the decoder reads beyond the message exactly when the message is shorter than a header or ends one byte short of a whole id. |
| `ReplayCodec.QuotientIsCount` | ft_thesis/src/loggers/tcp_servers/packets_logger_server.cc:141-142 | Dividing an `int` by a `size_t` gives the number of ids, and a negative one for a message shorter than the part subtracted. |
| `ReplayCodec.WritesStayInside` | ft_thesis/src/loggers/tcp_clients/packets_logger_client.cc:51-79 | Nothing is written past the announced length. |
| `ReplayCodec.IdsRoundTrip` | ft_thesis/src/loggers/tcp_clients/packets_logger_client.cc:81-94 | The id list of a delete request is read back as it was written. |
| `ReplayCodec.SendDeletePackets` | ft_thesis/src/loggers/tcp_servers/packets_logger_server.cc:163-192 | A delete request written by the client and read by the packet logger arrives with its ids. |

## Left out

- Sockets, `epoll`/`select` loops, threads, the digits that frame a message, and the reaping of orphan threads: a server request is one atomic step.
- Mutexes, spin locks and the freeing of memory.
- REST calls, JSON, command parsing by regular expressions, configuration files and logging; rule installations are assumed to succeed at the switch, and match fields to be sorted already and to name neither `in_port` nor `dl_vlan`.
- The slave pipeline behind the replay connection is an assumption of the stop-master loop: it handles a nonempty prefix of a nonempty replay list before the clear, possibly more before the next round, and logs an id and its next version for each packet it gets.
- CleanupManager.CleanupManagerServer.DrainMaster: assumes the old master stores nothing any more, as the loop need not end otherwise, and that its log holds a (v1, v2) pair per base of which the slave has a whole-packet prefix.
- SharedPacketLogger.SharedRunsKeepInv: the manager works on one pair at a time, as its single thread does; a middlebox that is slave of one pair and master of another has one log in each role.
- RecoveryProtocol.MasterCountRemovesCommon: says nothing of the delete-all branch and of an empty master snapshot, where it is false; `MasterDeletionSafeIff` and `EmptySnapshotDeletesFreshIds` give the exact conditions.
- RecoveryProtocol.PacketLeavesOnlyAfterSlave: assumes ids from the generator and one manager round at a time; the counter it compares with is the source's, which starts again at 0 after 256 versions of one base.
- PacketLogger.PacketLoggerServer.GetPacket: requires a buffer that the versions it overlays fit into; the order `std::sort` gives to equal versions is unspecified, and an insertion sort stands for it.
- PalsCodec.PALSManager.Serialize: lists of more than 10 PALs overrun their arrays and are excluded, and so are response buffers too small for an answer.
- PalsCodec.PALSManager.Deserialize: counts above 10, which overrun the arrays, are excluded.
- ReplayCodec.DeserializeClientReplayRequest: stops at an address longer than its field, where the original writes past the end of it.
- TagStack.Packet.PushVlanLayer: frames shorter than 16 bytes, of which the `memmove` takes bytes that are not theirs, are excluded.
- TagStack.BumpsAgreeIff: level offset 1 only; at offset 0 the bump edits another tag than the outer one read.
- TsaServer.Tsa.AddPolicyChain: vlan ids grow without a check against 4095, as in the source.
- PacketJourney.ChainImplementedIff: assumes that each port has one thing plugged in, that the reported links are cables, and that a middlebox sends every packet back where it came from and leaves the outermost tag alone. What a middlebox does to the tags depends on the tags only: a plant stands for one stamp, and the theorems hold for each.
- ChainService.ServedIsImplementedIff: the same assumptions; a chain is served while its rules are in the tables and no other rule at the sender's port can catch its packets, since the standard leaves open which of several matching rules acts.
- AllChains.AllImplementedIff: for tables in which every tagged rule has a registered owner, and for chains that do not clash or name their last middlebox once; for others `ChainService.ServedIsImplementedIff` has the exact condition, and `CaughtPackets.ClashMadeGood` shows that it differs.
- The loop that sends the packets of a replay request from the packet logger to the slave, apart from the rebuilding of each packet.
- The graph's `edges` dictionary, which is only printed, and the rest of the `Graph` class in `tsa/utils.py`.
- `unregisterMiddlebox`, which calls `remove` on a string and so fails for every chain it matches.
- PAL lookup by middlebox and packet id and the conversion of packet data to a PAL message in the determinant logger.
- The mode flags and PAL logic of PreparePacket, DistributePacketRecords, header-length computation, Click scheduling, the topology script, the timers and the test clients.
