# Jool, modelled and proved

Jool translates between IPv6 and IPv4 inside the Linux kernel, as a stateful NAT64 or a stateless SIIT. This project
models the parts of it that keep state or compute addresses and checksums, and proves what they promise.

The NAT64 engine is modelled twice. `Nat64` gives each operation as a function of the whole state: BIB entries and
sessions are named by ids, and each field of an entry is a map from ids. `Nat64Engine` performs the same operations on a
class, in place; every method is proved equal to its function and to keep the invariants with the references it leaves
its caller. The invariants (`Nat64Inv`) say what holds at every
point of an operation, given the references running code holds; `Nat64Tables`, `Nat64Steps`, `Nat64Packets`,
`Nat64Timers`, `Nat64Requests`, `Nat64Ranges` and `Nat64Flush` carry them through each operation; `Nat64Runs` carries
them through every run. `Nat64Outcomes`, `Nat64Evolution`, `Nat64Live` and `Nat64Facts` say what single steps do, what
never changes and when timers are in time.

Each packet, timer and request is one atomic step, and time is a natural number that a step may advance. What the rest
of the system answers while a packet is handled (pools, configuration, port allocation, address translation, memory) is
an input of the step, so the theorems hold for every answer. Two fields are history the code does not have: the flags a
TCP session has seen, and the packets that entered and left the queue.

Beside the engine: `PortRanges`, `Pool4Table` and `Palloc` (the IPv4 pool and the port allocator, section 3.3.3 of
RFC 6056), `OrderedTree` and `TableWalk` (tree search and iteration from an offset), `Trie`, `TrieContinuations`,
`TrieParents`, `Eam` and `EamRuns` (the radix trie and explicit address mappings, RFC 7757), `Rfc6052` (embedded
addresses) and `Checksum` (incremental updates, section 3 of RFC 1624).

Where the code does not do what one would expect of it, the model does what the code does, with one exception: `Trie`
writes through the parent pointer of a node where that is meant to go. In mod/common/rtrie.c `swap_nodes` (192-208)
leaves the children pointing at the freed node, and `__rtrie_rm` (474-492) leaves the inode that replaces a node without
a parent, so a later step can write to the root instead. `TrieParents` models nodes with the parent field as it is set
and read, and says exactly when the two agree.

A property the code does not have is stated with the exact condition under which it holds, and an example shows that it
can fail:

- A key added to the empty slot beside an only child that lies inside it hides that child, or hides itself after a later
  removal (`Trie.LookupAfterAddIff`, `TrieContinuations.AdditionIsRightForGoodIff`, `Trie.ShadowExample`,
  `Trie.CrowdedRightExample`); a forced mapping can then be stored twice (`Eam.RequestsKeepTriesInStepIff`,
  `EamRuns.StoredTwiceExample`).
- A trie in which a node was replaced can lose keys in a later removal (`TrieParents.ParentsStayRightIff`,
  `TrieParents.LostKeysExample`).
- Flushing the BIB drops the fake user of a static entry but leaves it marked static, which matters when a stored SYN
  still uses it (`Nat64Flush.RmPool4Iff`, `Nat64Facts.FlushExample`).
- Lowering a timeout does not touch the pending timer of an empty list, so the next session of that list can outlive its
  timeout (`Nat64Live.StepKeepsLiveIff`, `Nat64Facts.LateTimerExample`).
- Lowering the maximum of stored SYNs can leave more of them stored (`Nat64Evolution.QueueStaysBoundedIff`,
  `Nat64Facts.ResizeExample`).
- The overlap check of explicit mappings looks at the base address only (`Eam.OverlapCheckIff`, `Eam.OverlapExample`).
- pool4 accepts port 0 for TCP and UDP as an empty range, and bounds k+1, k escape its overflow check
  (`Pool4Table.AddMeaning`, `Pool4Table.AddPortZeroExample`, `Pool4Table.AddKeepsCountIff`, `Pool4Table.AddOverflows`).
- A removal from pool4 with inverted bounds can add ports or never end (`PortRanges.HoleIff`, `PortRanges.EndsIff`,
  `PortRanges.InvertedHoleAdds`, `PortRanges.InvertedHoleSpins`).
- Range deletions start at the address as given, so a prefix with a suffix misses what lies before it
  (`Nat64Facts.RangeDeletionIsExactIff`, `Nat64Facts.RangeDeletionExample`).
- One family of ICMP messages is accepted before translation and not after, and UDP datagrams can get a checksum field
  that IPv6 forbids (`Checksum.Icmp64KeepsResidue`, `Checksum.Icmp64RejectedExample`, `Checksum.Udp46ZeroField`,
  `Checksum.Udp46ZeroFieldExample`).

## Model

| member | source | states |
|---|---|---|
| `Nat64Runs.StepKeepsIff` | mod/stateful/filtering_and_updating.c:688-773 | one packet, timer or request keeps every invariant of the engine if and only if it is not a pool4 removal over a static entry that a stored SYN uses; so too what is promised of when timers are due, as long as no timeout changes |
| `Nat64Runs.RunIsGood` | mod/stateful/filtering_and_updating.c:688-773 | after any sequence of such steps all invariants hold |
| `Nat64Runs.ReachableIsGood` | mod/stateful/filtering_and_updating.c:51-72 | every state a run from the initial one leads to satisfies them |
| `Nat64Runs.BindingsAreOneToOne` | mod/stateful/bib/table.c:151-179 | in every reachable state no two BIB entries of a protocol share an IPv6 or an IPv4 transport address, and a stored session has a BIB entry with remote6 = ipv6 and local4 = ipv4 |
| `Nat64Runs.ReferencesAreConserved` | mod/stateful/session/entry.c:52-96 | in every reachable state a BIB entry is allocated exactly while its count is positive, and the count is its sessions plus one if static; a session is referenced once, by the table or by the queue |
| `Nat64Runs.StatesMatchLists` | mod/stateful/filtering_and_updating.c:517-656 | the established list holds exactly ESTABLISHED, V4_FIN_RCV, V6_FIN_RCV; the transitory one exactly V6_INIT, V4_INIT, TRANS, V4_FIN_V6_FIN_RCV; CLOSED is never stored; past the INIT states both SYNs were seen, in the last FIN state both FINs |
| `Nat64Runs.TimersArePending` | mod/stateful/session/table.c:49-83 | every list is sorted by update time; a non-empty one has a pending timer; the lists without a timeout function are empty and have no timer |
| `Nat64Live.StepKeepsLiveIff` | mod/stateful/session/table.c:49-83 | from a state in which the timer of every non-empty list is due by the later of its first expiry and now + MIN_TIMER_SLEEP, a step leads to another such state if and only if it puts no session on an empty list whose pending timer is later than that session can wait; new timeouts never break it at once |
| `Nat64Live.JoinsIff` | mod/stateful/session/table.c:69-128 | an empty list gets a session exactly from a packet that opens one there, a TCP packet that moves its session there, or, for the transitory list, a timer that finds an expired established session |
| `Nat64Live.TimersAreLive` | mod/stateful/session/table.c:49-83 | over any run from the start all timers are in time at every moment if and only if no step makes a session join an empty list with a late timer |
| `Nat64Live.ConfigureLive` | mod/stateful/session/table.c:799-805 | right after any change of timeouts the timer of every non-empty list is due in time |
| `Nat64Runs.FlowsAreSymmetric` | mod/stateful/compute_outgoing_tuple.c:4-65 | translating a tuple and then the reverse of the result gives the reverse of the tuple, in both directions |
| `Nat64Runs.StoredSynsAreAccountedFor` | mod/stateful/session/pkt_queue.c:142-226 | entered = still queued + cancelled + answered, as multisets of packets; list, tree and count agree in both directions; a timer is due when the first one expires; no queued four-tuple is in the table |
| `Nat64Evolution.QueueStaysBoundedIff` | mod/stateful/session/pkt_queue.c:142-195 | the queue stays empty or below its maximum through every step but a change of that maximum, and through that one exactly if it is empty or shorter than the new maximum |
| `Nat64Facts.ResizeExample` | mod/common/nl_handler.c:928-932 | a stored SYN and a maximum lowered to one: the queue is at its maximum |
| `Nat64Evolution.BindingsNeverChange` | mod/stateful/filtering_and_updating.c:121-231 | over any run, a BIB entry that survives keeps its two addresses and a session that survives keeps its four and its entry |
| `Nat64Runs.DeleteBlock6Good` | mod/stateful/session/table.c:738-774 | deleting an IPv6 prefix removes exactly the sessions whose local address is in it, from its address on, and keeps the invariants |
| `Nat64Outcomes.Packet6Outcome` | mod/stateful/filtering_and_updating.c:688-773 | an IPv6 packet not let through leaves the session tables as they were; one let through without a session opens exactly one, with its own addresses, the mask of its source and the translated destination, in the state and on the list of its protocol |
| `Nat64Outcomes.Packet4Outcome` | mod/stateful/filtering_and_updating.c:409-466 | the same for IPv4; a stored SYN enters the queue once and opens no session |
| `Nat64Outcomes.TranslatableIff6` | mod/stateful/compute_outgoing_tuple.c:4-65 | after Continue, ICMP errors apart, computing the outgoing tuple succeeds exactly unless the packet is TCP without SYN and without session; its source is the mask the packet source is bound to, and the destination of a new session is the translated one |
| `Nat64Outcomes.TranslatableIff4` | mod/stateful/compute_outgoing_tuple.c:4-65 | the same for IPv4: the destination is the IPv6 address bound to it |
| `Nat64Outcomes.Opens6Iff` | mod/stateful/filtering_and_updating.c:238-401 | an IPv6 packet opens a session exactly if it passes the checks before the tables, has none, has a mask or gets a free one, its destination translates, memory suffices and no session has its IPv4 addresses |
| `Nat64Outcomes.Opens4Iff` | mod/stateful/filtering_and_updating.c:303-466 | an IPv4 packet does exactly if its destination is bound, filtering lets it through, its source translates, memory suffices and no session has its IPv6 addresses |
| `Nat64Outcomes.FreeMaskIsBound` | mod/stateful/filtering_and_updating.c:121-176 | an unbound source is bound to exactly the address the allocator chose when that is free, and a taken one is refused without a trace |
| `Nat64Outcomes.TcpFoundOutcome` | mod/stateful/filtering_and_updating.c:664-682 | a packet of a known connection moves its state as the machine says, puts it at the end of the list its fate names with its clock restarted, and changes no index |
| `Nat64Outcomes.MachineByTarget` | mod/stateful/filtering_and_updating.c:517-656 | for each state, exactly which packets lead to it, and for each clock, exactly which packets restart it (section 3.5.2.2 of RFC 6146) |
| `Nat64Packets.MachineAgrees` | mod/stateful/filtering_and_updating.c:628-656 | every transition lands on the list its state belongs on, no packet closes or probes a session |
| `Nat64Packets.From6Good` | mod/stateful/filtering_and_updating.c:688-773 | handling an IPv6 packet keeps all invariants whatever the pools, the port allocator and the memory answer |
| `Nat64Packets.From4Good` | mod/stateful/filtering_and_updating.c:688-773 | the same for an IPv4 packet |
| `Nat64Packets.GetOrCreateBib6Good` | mod/stateful/filtering_and_updating.c:147-176 | the caller ends up holding one counted reference to an entry of the packet source, or the BIB is as it was |
| `Nat64Facts.AllowIsTheScan` | mod/stateful/session/table.c:486-498 | address-dependent filtering admits a packet exactly when some session has local4 = destination and the same remote address, any port |
| `Nat64Inv.BibAddKeeps` | mod/stateful/bib/table.c:151-179 | an accepted entry is in both indexes; a refused one leaves the BIB equal to what it was, also when the second index refuses |
| `Nat64Inv.BibReturnKeeps` | mod/stateful/bib/db.c:143-160 | giving back a reference keeps the count equal to the references, and frees the entry only when no session and no fake user is left |
| `Nat64Inv.SessionAllocKeeps` | mod/stateful/session/entry.c:27-68 | a new or cloned session takes exactly one reference to its BIB entry |
| `Nat64Inv.SessionReturnKeeps` | mod/stateful/session/entry.c:75-96 | the last reference to a session gives back exactly the one its BIB entry counts for it |
| `Nat64Tables.TableRmKeeps` | mod/stateful/session/table.c:15-28 | a removed session leaves both indexes and its list, and the table reference passes to the caller |
| `Nat64Tables.MoveKeeps` | mod/stateful/session/table.c:85-128 | moving a session to the tail of a list keeps lists sorted, duplicate free and in agreement with the sessions |
| `Nat64Tables.SessionAddKeeps` | mod/stateful/session/table.c:521-553 | an insertion cancels the stored SYN of the same four-tuple first, and enters both indexes or neither |
| `Nat64Tables.QueueAddKeeps` | mod/stateful/session/pkt_queue.c:142-195 | storing a SYN keeps list, tree, count, order and timer of the queue in agreement |
| `Nat64Tables.QueueRemoveKeeps` | mod/stateful/session/pkt_queue.c:203-226 | cancelling takes the node of the four-tuple out and returns its session once |
| `Nat64Timers.CleanIsExact` | mod/stateful/session/table.c:235-267 | after the timer handler no expired session is on its list, no unexpired one was touched, expired established ones are on the transitory list in state TRANS and each was probed once, the other expired ones no longer exist |
| `Nat64Timers.BreakIsSound` | mod/stateful/session/table.c:249-260 | on a sorted list nothing expired follows the first unexpired session |
| `Nat64Timers.CleanGood` | mod/stateful/session/table.c:235-267 | the handler, clones and probes included, keeps all invariants |
| `Nat64Timers.PostFateSame` | mod/stateful/session/table.c:217-227 | returning removed sessions and probing clones does not touch the table; each clone is probed once |
| `Nat64Requests.QueueCleanIsExact` | mod/stateful/session/pkt_queue.c:53-82 | exactly the SYNs that have waited long enough leave the queue, answered |
| `Nat64Facts.LateTimerExample` | mod/stateful/session/table.c:49-83 | a session, a flush and a lower timeout leave all timers in time; the packet that arrives next opens a session that waits for the old timer |
| `Nat64Requests.AddStaticGood` | mod/stateful/bib/static_routes.c:36-81 | a route is added exactly when it is in pool4, memory allows and neither address is bound; then it is in both indexes and static; otherwise nothing changes |
| `Nat64Facts.DeleteRouteMeaning` | mod/stateful/bib/static_routes.c:83-134 | afterwards the entry is not static, has no session in the table, and exists only while stored SYNs refer to it |
| `Nat64Requests.DeleteSessionsGood` | mod/stateful/session/table.c:30-44 | exactly the selected sessions leave the table, each giving back one reference |
| `Nat64Ranges.RangeIdsAre` | mod/stateful/session/table.c:671-704 | the walk over the IPv4 index selects exactly the sessions of the range from the prefix address on, each once, despite its early end |
| `Nat64Ranges.BibIdsAre` | mod/stateful/session/table.c:636-662 | the walk for a BIB entry selects exactly the sessions with its IPv4 transport address |
| `Nat64Ranges.Block6IdsAre` | mod/stateful/session/table.c:709-774 | the walk over the IPv6 index selects exactly the sessions of the prefix from its address on |
| `Nat64Ranges.DeleteRangeGood` | mod/stateful/session/db.c:126-148 | deleting a range, or everything, in the three tables removes exactly the covered sessions and keeps the invariants |
| `Nat64Facts.RangeDeletionIsExactIff` | mod/stateful/session/table.c:684-704 | every matching session goes if and only if none lies below the prefix address; a prefix without suffix never has one there |
| `Nat64Facts.RangeDeletionExample` | mod/stateful/session/table.c:684-704 | a packet, then the block of addresses 4 to 7 leaves pool4 under the name of address 5: the session at address 4 stays |
| `Nat64Flush.BibFlushIff` | mod/stateful/bib/table.c:275-290 | flushing BIB entries keeps the reference counts right if and only if no static entry visited is still in use |
| `Nat64Flush.RmPool4Iff` | mod/common/nl_handler.c:307-346 | removing addresses from pool4 keeps all invariants if and only if no stored SYN belongs to a static entry in the range |
| `Nat64Facts.FlushLosesAReference` | mod/stateful/bib/table.c:275-290 | otherwise the entry stays marked static while the reference that goes with it is gone |
| `Nat64Facts.FlushExample` | mod/stateful/bib/table.c:275-290 | a static route, a SYN stored on it and a flush break the count |
| `Nat64Engine.Engine.constructor` | mod/stateful/filtering_and_updating.c:51-72 | the empty engine satisfies the invariants |
| `Nat64Engine.Engine.From6` | mod/stateful/filtering_and_updating.c:688-773 | the method, performed step by step, has the outcome the packet theorems are about and keeps the invariants |
| `Nat64Engine.Engine.From4` | mod/stateful/filtering_and_updating.c:688-773 | the same for IPv4 packets |
| `Nat64Engine.Engine.CleanerTimer` | mod/stateful/session/table.c:235-267 | the loop with its early end and deferred returns cleans exactly the expired sessions and keeps the invariants |
| `Nat64Engine.Engine.QueueCleanerTimer` | mod/stateful/session/pkt_queue.c:53-82 | the loop leaves exactly the unexpired SYNs queued and keeps the invariants |
| `Nat64Engine.Engine.BibReturn` | mod/stateful/bib/db.c:143-160 | whatever references are held, one to the entry among them, the invariants hold again without it: freed, and out of both indexes, exactly when the count reaches zero |
| `Nat64Engine.Engine.BibAdd` | mod/stateful/bib/table.c:151-179 | a refusal by the second index ends, after the rollback, in exactly the old BIB; an accepted dynamic entry is one more reference held by the caller |
| `Nat64Engine.Engine.SessionAlloc` | mod/stateful/session/entry.c:27-68 | the invariants hold again with one more reference, to the new session, held by the caller; the entry of the session counts it |
| `Nat64Engine.Engine.SessionReturn` | mod/stateful/session/entry.c:75-96 | the invariants hold again with one reference to the session less, through the cascade of releases |
| `Nat64Engine.Engine.ReturnAll` | mod/stateful/session/table.c:30-44 | the loop gives back one reference for each listed session, whatever the list, and the invariants hold with the rest |
| `Nat64Engine.Engine.ForceReschedule` | mod/stateful/session/table.c:49-67 | the timer of a non-empty list is due in time for every session on it, no sooner than now + MIN_TIMER_SLEEP; only the first session is looked at |
| `Nat64Engine.Engine.TableRm` | mod/stateful/session/table.c:15-28 | the invariants hold again with the table reference to the session held by the caller |
| `Nat64Engine.Engine.DecideFate` | mod/stateful/session/table.c:85-128 | for every fate that fits the state just written, the invariants hold again with the references of the two pending lists held by the caller |
| `Nat64Engine.Engine.PostFate` | mod/stateful/session/table.c:217-227 | the two loops give back every pending reference exactly once, and the invariants hold without them |
| `Nat64Engine.Engine.SessionAdd` | mod/stateful/session/table.c:521-553 | for a new session the caller holds, the invariants hold again whether it got in or was rolled back; the caller still holds it |
| `Nat64Engine.Engine.QueueAdd` | mod/stateful/session/pkt_queue.c:142-195 | for a new session the caller holds, the invariants hold again; a refusal changes nothing |
| `Nat64Engine.Engine.QueueRemove` | mod/stateful/session/pkt_queue.c:203-226 | afterwards no SYN of the four-tuple is stored, and the invariants hold with the same references held |
| `Nat64Engine.Engine.GetOrCreateBib6` | mod/stateful/filtering_and_updating.c:147-176 | the caller holds one counted reference to an entry of the packet source, or nothing more than before |
| `Nat64Engine.Engine.GetOrCreateSession` | mod/stateful/filtering_and_updating.c:238-261 | the caller holds one reference to a session that is in the table, or nothing more than before |
| `Nat64Engine.Engine.Ipv6Simple` | mod/stateful/filtering_and_updating.c:272-297 | every exit has given back the references it took: the invariants hold with exactly those the caller held |
| `Nat64Engine.Engine.Ipv4Simple` | mod/stateful/filtering_and_updating.c:303-365 | every exit, filtering included, has given back the references it took |
| `Nat64Engine.Engine.ClosedSyn6` | mod/stateful/filtering_and_updating.c:372-401 | every exit of the goto ladder has given back the references it took |
| `Nat64Engine.Engine.ClosedSyn4` | mod/stateful/filtering_and_updating.c:409-466 | stored, inserted or dropped, every exit has given back the references it took |
| `Nat64Engine.Engine.TcpFound` | mod/stateful/filtering_and_updating.c:664-682 | the state, the list, the probes and the return leave the invariants with exactly the references the caller held |
| `Nat64Engine.Engine.DeleteSessions` | mod/stateful/session/table.c:591-612 | removing while walking and returning afterwards gives the deletion the range theorems are about |
| `Nat64Engine.Engine.AddStaticRoute` | mod/stateful/bib/static_routes.c:36-81 | adds or changes nothing, and keeps the invariants |
| `Nat64Engine.Engine.DeleteStaticRoute` | mod/stateful/bib/static_routes.c:83-134 | the whole deletion, with the walk that selects the sessions of the entry, is the step of the run theorems and keeps the invariants |
| `Nat64Engine.Engine.SessionsOf` | mod/stateful/session/table.c:636-662 | the two loops over the ordered index select what the walk selects |
| `Nat64Engine.Engine.SetTimeouts` | mod/stateful/session/table.c:799-805 | all six timers are set again and the invariants are kept |
| `TableWalk.Foreach` | mod/stateful/session/table.c:591-612 | iteration from the start, from an offset or from after it, found or not, visits exactly the keys from there on, in order, until the callback stops it |
| `TableWalk.TreeIsOrdering` | mod/stateful/session/table.c:591-612 | the order in which iteration sees the entries of a tree is decided by their keys, not by its shape |
| `TableWalk.FromIsTheRest` | mod/stateful/bib/table.c:202-251 | the keys seen from an offset are exactly those after it, and the offset itself if it is included |
| `TableWalk.ResumeShowsTheRest` | mod/stateful/session/table.c:614-620 | a walk resumed after the last key shown sees the same rest, whatever has changed up to that key |
| `TableWalk.WalkTakesAll` | mod/stateful/session/table.c:591-612 | if the callback, once it stops, would stop for every later key, the early end loses nothing |
| `TableWalk.RangeWalk` | mod/stateful/session/table.c:671-704 | for every prefix, the keys taken are exactly the matching ones from its address on |
| `TableWalk.BibWalk` | mod/stateful/session/table.c:636-662 | the keys taken are exactly those of the given local address |
| `TableWalk.Lookup` | mod/stateful/session/table.c:446-484 | the tree search finds a key exactly when it is there |
| `TableWalk.Allowed` | mod/stateful/session/table.c:399-410 | the search that ignores the remote port finds one exactly when a scan would |
| `OrderedTree.Find` | include/nat64/mod/common/rbtree.h:22-43 | the search finds a match if and only if a scan would, also with a comparison coarser than the order of the tree |
| `OrderedTree.AddInserts` | include/nat64/mod/common/rbtree.h:51-79 | insertion refuses a key that is there and otherwise adds exactly it, in order |
| `OrderedTree.FindStartingPoint` | mod/stateful/session/table.c:558-589 | the node iteration starts at is the first one at (or after) the offset, found or not |
| `PortRanges.AddPortsIsUnion` | mod/stateful/pool4/table.c:65-107 | adding a range is set union on ports |
| `PortRanges.AddPortsCanonical` | mod/stateful/pool4/table.c:65-107 | ranges stay non-empty, disjoint and non-adjacent |
| `PortRanges.AddPortsLoop` | mod/stateful/pool4/table.c:65-107 | the loop that unlinks and fuses computes that |
| `PortRanges.RmRange` | mod/stateful/pool4/table.c:236-296 | with ordered bounds, set difference on every list, canonical or not; on a canonical list, and bounds for which the code ends, the result is the canonical set difference if and only if the bounds are ordered or no stored range is struck |
| `PortRanges.HoleIff` | mod/stateful/pool4/table.c:236-296 | the walk, which appends to the list it walks, ends in the canonical set difference if and only if the bounds are ordered or no stored range begins before the lower and ends after the upper bound |
| `PortRanges.EndsIff` | mod/stateful/pool4/table.c:236-296 | it never ends exactly if the bounds are inverted by two or more and such a range is stored other than last |
| `PortRanges.InvertedHoleAdds` | mod/stateful/pool4/table.c:236-296 | the hole 8-2 in 1-3 adds ports 4 to 7 |
| `PortRanges.InvertedHoleSpins` | mod/stateful/pool4/table.c:236-296 | the hole 8-5 in 1-7, 100-200 never ends |
| `Pool4Table.AddMeaning` | mod/stateful/pool4/table.c:170-234 | an accepted addition is set union with the requested addresses and ports (0 excepted for TCP and UDP) and keeps the canonical form; port 0 alone of TCP or UDP adds nothing, and keeps the form exactly if every address already owns port 0 or 1 |
| `Pool4Table.AddNoPortsValidIff` | mod/stateful/pool4/table.c:170-234 | adding an empty range leaves a valid table exactly if every address already owns port 0 or 1 |
| `Pool4Table.AddPortZeroExample` | mod/stateful/pool4/table.c:170-234 | port 0 of a new address makes a row that owns nothing |
| `Pool4Table.AddKeepsCountIff` | mod/stateful/pool4/table.c:145-165 | an accepted addition keeps the number of transport addresses within 32 bits if and only if the bounds are not k+1 and k, or there is room for the requested ones not listed yet |
| `Pool4Table.AddEachTotal` | mod/stateful/pool4/table.c:109-143 | the count grows by exactly the number of requested transport addresses the table did not list |
| `Pool4Table.AddOverflows` | mod/stateful/pool4/table.c:145-165 | for every such pair of bounds some full table accepts the addition |
| `Pool4Table.AddSampleMeaning` | mod/stateful/pool4/table.c:109-143 | adding one sample is set union and keeps addresses distinct |
| `Pool4Table.Table.CountPorts` | mod/stateful/pool4/table.c:43-56 | the number of transport addresses modulo 2^32 |
| `Pool4Table.Table.AddRange` | mod/stateful/pool4/table.c:170-234 | overflow check, normalisation and the loop over the prefix |
| `Pool4Table.Table.Rm` | mod/stateful/pool4/table.c:316-331 | with ordered bounds, set difference on every table; a valid one stays valid and loses exactly those ports if and only if the bounds are ordered or no range of the addresses is struck, and else exactly the struck rows lose the form |
| `Pool4Table.AddKeepsSound` | mod/stateful/pool4/table.c:170-234 | whatever is added to whatever table, there is one row for each address, none is without ranges, and no range counts more ports than it has |
| `Pool4Table.Table.Holds` | mod/stateful/pool4/table.c:453-472 | finds an address exactly when the table has it |
| `Pool4Table.Table.ForeachTaddr4` | mod/stateful/pool4/table.c:389-448 | visits the flattened table rotated by the offset modulo its size, up to the address the callback stops at |
| `Pool4Table.RotationVisitsAllOnce` | mod/stateful/pool4/table.c:389-448 | such a rotation contains every transport address of the table exactly once |
| `Palloc.FindTable` | mod/stateful/pool4/db.c:181-205 | searching one hash slot finds the table of a mark and protocol exactly when there is one |
| `Palloc.DbContains` | mod/stateful/pool4/db.c:298-330 | accepts an address exactly when some table of the protocol has it |
| `Palloc.Allocate` | mod/stateful/bib/port_allocator.c:108-165 | takes the first free candidate, in order |
| `Palloc.CandidatesAreTheTableIff` | mod/stateful/bib/port_allocator.c:125-165 | the candidates are exactly the addresses of the table, unless its count is a positive multiple of 2^32, and then there are none; in a canonical table each comes once |
| `Palloc.AllocateFor` | mod/stateful/bib/port_allocator.c:125-165 | success gives an address of the right table that is free and accepted by pool4; with a table present it fails exactly if every address in it is taken or its 32-bit count is zero |
| `Trie.KeyMatch` | mod/common/rtrie.c:67-97 | the two loops give the length of the longest common prefix |
| `Trie.ClosestPair` | mod/common/rtrie.c:246-326 | of three keys apart, one pair is strictly closest, so the inconsistent case cannot happen |
| `Trie.Find` | mod/common/rtrie.c:142-174 | the walk gives the last stored key on its path |
| `Trie.LookupIsLongestPrefixMatch` | mod/common/rtrie.c:424-439 | on a valid trie that is the longest stored prefix of the query, or none |
| `Trie.AddMeaning` | mod/common/rtrie.c:328-408 | an addition fails exactly for a stored key, otherwise stores exactly one more, and leaves a valid trie if and only if the key does not crowd an only child |
| `Trie.LookupAfterAddIff` | mod/common/rtrie.c:354-361 | after an addition every lookup still finds the longest match if and only if the new key does not shadow a longer one |
| `Trie.RmMeaning` | mod/common/rtrie.c:463-531 | with parent pointers right: a removal fails exactly for a missing key, otherwise removes exactly that key and keeps the trie valid |
| `Trie.RmUndoesAdd` | mod/common/rtrie.c:463-531 | removing a key just added restores what was stored, even if it crowded |
| `Trie.LookupAfterRun` | mod/common/rtrie.c:424-439 | with parent pointers right: after any additions and removals, none crowding, lookup is a linear scan for the longest match |
| `Trie.RunRefinesMap` | mod/common/rtrie.c:328-408 | with parent pointers right: any such run keeps the trie in agreement with a map |
| `TrieParents.StepRightIff` | mod/common/rtrie.c:179-531 | with the parent pointers as written: if all are right, a step is the intended one, and all are right afterwards if and only if it neither swaps a black node for a new one nor removes a node with two children below the root |
| `TrieParents.ParentsStayRightIff` | mod/common/rtrie.c:179-531 | over any run the parent pointers stay right if and only if no step does either, and then the run is the intended one |
| `TrieParents.StepIntendedIff` | mod/common/rtrie.c:179-190 | whatever the parent pointers, a step stores what it should if and only if it reads no wrong one |
| `TrieParents.NullParentLoses` | mod/common/rtrie.c:179-190 | a step that reads NULL below the root makes a subtree the whole trie and loses a stored key |
| `TrieParents.StepSane` | mod/common/rtrie.c:192-208 | a wrong parent pointer is always NULL or points at a freed node |
| `TrieParents.LookupAsWritten` | mod/common/rtrie.c:424-439 | after any run without crowding and without such a replacement, lookup on the trie as written is a linear scan |
| `TrieParents.DisjointLookup` | mod/common/rtrie.c:424-439 | which covers every run whose keys are added apart from those stored |
| `TrieParents.LostKeysExample` | mod/common/rtrie.c:474-492 | seven steps, none crowding, after which two keys that were never removed are gone |
| `TrieContinuations.AdditionIsRightForGoodIff` | mod/common/rtrie.c:354-361 | an addition leaves every lookup right, after whatever follows without crowding, if and only if it does not crowd |
| `Trie.ApartNeverCrowds` | mod/common/rtrie.c:354-361 | a key apart from all stored ones never crowds |
| `Trie.ShadowExample` | mod/common/rtrie.c:354-361 | five additions after which a stored key is not found |
| `Trie.CrowdedRightExample` | mod/common/rtrie.c:463-531 | a crowding that shows only after a removal |
| `Eam.AddEntryMeaning` | mod/stateless/eam.c:142-172 | an entry is stored in both tries or in none; refused exactly if invalid, covered (unless forced) or stored; the tries stay fit for lookups if and only if it does not crowd |
| `Eam.RmEntryMeaning` | mod/stateless/eam.c:223-252 | with parent pointers right: exactly the entry both given prefixes name leaves both tries; failure means there is none |
| `Eam.RequestsKeepTriesInStepIff` | mod/stateless/eam.c:142-252 | through a sequence of requests both tries stay valid and hold the same entries, as many as the count, if and only if no accepted entry crowds |
| `EamRuns.StoredTwiceExample` | mod/stateless/eam.c:142-172 | six forced insertions, all accepted, the last of a stored prefix: an entry is left in the IPv4 trie alone |
| `EamRuns.DisjointTablesAsWritten` | mod/stateless/eam.c:142-252 | tables of disjoint prefixes never take the branches of the trie that spoil parent pointers: after any requests the tries as written are those of the model |
| `Eam.OverlapCheckIff` | mod/stateless/eam.c:62-98 | the overlap check shows a prefix to be disjoint from all stored ones if and only if none lies inside it |
| `Eam.OverlapExample` | mod/stateless/eam.c:62-98 | a prefix that passes although it contains a stored one |
| `Eam.DisjointStays` | mod/stateless/eam.c:142-172 | tables of disjoint prefixes stay consistent and disjoint when a disjoint entry is added |
| `Eam.RoundTrip46` | mod/stateless/eam.c:267-315 | in tables with disjoint IPv6 prefixes every covered IPv4 address comes back from its translation |
| `Eam.RoundTrip64Iff` | mod/stateless/eam.c:267-315 | an IPv6 address comes back if and only if the bits after the embedded ones are zero |
| `Eam.Xlat6to4` | mod/stateless/eam.c:267-290 | translates exactly the covered addresses, bit by bit |
| `Eam.Xlat4to6` | mod/stateless/eam.c:292-315 | the same towards IPv6 |
| `Eam.CopyBits` | mod/stateless/eam.c:280-285 | the loop writes exactly the suffix bits |
| `Eam.Eamt.Insert` | mod/stateless/eam.c:142-172 | in both tries or, after the rollback, in none; refused exactly if invalid, covered (unless forced) or stored; in step afterwards exactly if it does not crowd |
| `Eam.Eamt.Remove` | mod/stateless/eam.c:223-252 | exactly the named entry leaves both tries, which stay in step; failure changes nothing |
| `Rfc6052.RoundTrip46` | mod/common/rfc6052.c:121-143 | for every valid pool, overlapping prefixes included, the IPv4 address comes back; the address made lies in the first prefix, octet 8 is zero up to /64 and the octet of the prefix at /96 |
| `Rfc6052.RoundTrip64Iff` | mod/common/rfc6052.c:121-143 | an IPv6 address comes back if and only if it is in the first prefix and its spare bits are zero |
| `Rfc6052.EmbedMeaning` | mod/common/rfc6052.c:59-119 | an embedded address is in the prefix, has zero spare bits, and yields the IPv4 address |
| `Rfc6052.EmbedUnique` | mod/common/rfc6052.c:59-119 | and is the only such address |
| `Rfc6052.Pool6.Add` | mod/common/pool6.c:229-274 | accepts exactly a valid, new prefix (the only one in SIIT) and appends it |
| `Rfc6052.Pool6.Lookup` | mod/common/pool6.c:165-195 | the loop finds the first prefix that contains the address |
| `Checksum.Translate64KeepsResidue` | mod/common/rfc6145/6to4.c:730-758 | TCP and UDP, IPv6 to IPv4: the translated segment verifies under the new pseudo-header exactly when the original did, and is as far from intact, whatever addresses, ports and payload; a UDP field is never zero |
| `Checksum.Translate46KeepsResidue` | mod/common/rfc6145/4to6.c:691-710 | the same, IPv4 to IPv6 |
| `Checksum.Udp46ZeroField` | mod/common/rfc6145/4to6.c:828-864 | an intact datagram gets the illegal zero checksum field exactly when the rest of it sums to a multiple of 0xFFFF |
| `Checksum.Udp46ZeroFieldExample` | mod/common/rfc6145/4to6.c:828-864 | a ten-octet datagram from 203.0.113.5 to 192.0.2.1 for which that happens |
| `Checksum.HandleZeroCsumVerifies` | mod/common/rfc6145/4to6.c:763-794 | a checksum computed from scratch verifies |
| `Checksum.PartialTranslatesPseudoHeader` | mod/common/rfc6145/6to4.c:760-774 | the partial update turns the sum of one pseudo-header into that of the other |
| `Checksum.Icmp64KeepsResidue` | mod/common/rfc6145/6to4.c:546-578 | ICMP echo to IPv4: the residue is kept and the verdict too, except for one family of all-zero messages |
| `Checksum.Icmp64RejectedExample` | mod/common/rfc6145/6to4.c:546-578 | an intact echo reply from 2001:db8::8 to 64:ff9b::203.0.113.5 comes out rejected |
| `Checksum.Icmp46KeepsResidue` | mod/common/rfc6145/4to6.c:529-551 | ICMP echo to IPv6: the residue is kept, and the verdict except for an all-zero message |
| `Checksum.VerifiesIff` | mod/common/rfc6145/6to4.c:597-618 | a receiver accepts exactly the non-zero multiples of 0xFFFF (section 1 of RFC 1071) |

## Left out

- Netlink messages, the userspace tool, statistics, logging, the error pool and the benchmarks.
- Routing, sending, socket buffers and header translation other than checksums; a probe or an ICMP error is recorded as sent.
- Locks, RCU and interleavings inside an operation: `bibdb_return` drops its count outside the table lock, so a finer
  interleaving would need a different argument.
- Colours and rotations of red-black trees; an index is a map, and `OrderedTree` shows what searching and inserting in a
  tree do to it. Erasing a node is taken as removing its key.
- The list through which a flush reaches every node of a trie, and allocation failures inside trie and pool4 operations.
- The table counters that only serve statistics (`count` of BIB and session tables).
- The pool4 database with no tables at all, where addresses come from the network interfaces.
- The hash function of the port allocator and the hash of marks: arbitrary functions here.
- pool6 removal, ICMP type tables, fragment reassembly, RFC 6791 addresses and hairpinning.
- Wrap-around of jiffies, and the conversion of milliseconds to ticks (1000 per second here).
- Destruction of the databases when the module is unloaded.
- PortRanges.RmRange: requires the bounds and the list to be such that the code ends, by `PortRanges.EndsIff`, because a
  method must; what inverted bounds do is said of canonical lists only.
- Pool4Table.Table.Rm: requires the same of the rows it visits.
- Trie.RmMeaning: the write through the parent pointer goes where it is meant to; `TrieParents.StepIntendedIff` says
  exactly when it does.
- Trie.AddMeaning: the same, for the one branch that writes through it, which puts the new node in place of a black one.
- Trie.RunRefinesMap: the same; `TrieParents.ParentsStayRightIff` says exactly when all pointers stay right, and
  `TrieContinuations.AdditionIsRightForGoodIff` why crowding is excluded.
- Trie.LookupAfterRun: the same; `TrieParents.LookupAsWritten` is the statement for the trie as written.
- Eam.AddEntryMeaning: the same; `EamRuns.DisjointTablesAsWritten` covers tables of disjoint prefixes as written.
- Eam.RmEntryMeaning: the same; and for prefix lengths within the address, as the userspace tool sends them.
- Eam.RequestsKeepTriesInStepIff: the same.
- Eam.RoundTrip46: for tables with disjoint IPv6 prefixes; where prefixes overlap the longest match may be another entry.
