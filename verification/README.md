# Verified models of the LazyCtrl Open vSwitch core

This project models the parts of LazyCtrl's Open vSwitch fork whose correctness rests on an
argument across several functions or over whole runs, and proves that argument in Dafny.
`dafny verify dfyconfig.toml` checks all of it.

One module stands for one component:

- `Pidfile`, `PidfileRuns`: processes racing for a pidfile with link, unlink and record locks, as a
  transition system over inodes, names, lock owners and program counters. Any number of
  processes, any interleaving, crashes and exit hooks included.
- `Capwap`: fragmentation, and reassembly of fragments that arrive in any order.
- `FlowMatch`, `Classifier`, `ClassifierQuery`, `ClassifierCursor`: the tuple-space flow
  classifier against a linear scan over its rules. A flow is a sequence of bits and a mask
  says which of them count.
- `FlowCodec`: the Netlink encoding of kernel flow keys. What a list of attributes denotes
  is defined on its own; decoder and encoder are proved against it.
- `FlowTable`: the kernel flow table with two link sets, and rehashing under readers.
- `BondRebalance`, `BondLink`, `Hrw`: load rebalancing, the link state machine and
  highest-random-weight selection. Loads are natural numbers and the ratio test is exact.
- `Actions`, `LoopSuppress`: the action interpreter against a simple one, and the guard
  against forwarding loops.
- `Tunnel`, `Brcompat`: the tunnel port table with its counters, and request and reply
  matching between kernel and userspace.
- `Csum`, `Bloom`: the Internet checksum (RFC 1071 section 1, RFC 1624 section 3), and the
  group Bloom-filter table.

Where the code updates objects in place the model is a class; where it loops the model is a
method with a loop; concurrent protocols are transition systems. Hash functions, random
numbers, clocks, carrier state, header editing and the content of fresh memory are
parameters, so every result holds for all of them.

Several properties one might expect turn out to need a condition. Each condition is proved,
and so is that it cannot be dropped, by an if-and-only-if or by a case that fails without it:

- Pidfile exclusion fails when a pid is reused while a dead daemon's temporary file is still
  linked as the pidfile: the newcomer opens its own file, and closing it drops its lock. From
  the same start a stale-file unlink can hit the file of a live process.
- A CAPWAP payload with a fragment shorter than 14 bytes never gets through, because the
  receiver wants an Ethernet header behind every fragment header.
- Counter-gated tunnel lookup equals the plain search exactly for remote addresses that are
  not multicast. A nonzero local address is not needed.
- Changing a tunnel's options makes the counters drift exactly when the old and the new key
  collide in the hash and differ in class.
- An incrementally updated checksum is right exactly when the new data is not all zero.
- Adding a Bloom filter keeps ids distinct exactly when the id is new or the table is full.
  Updating a full table under a new id reports success and stores nothing, where the comment
  promises that a new filter was added.
- A copied Bloom filter whose length is not a multiple of 8 loses the bits of its last byte.

## Model

| member | source | states |
|---|---|---|
| `Pidfile.InvKept` | lcm/openvswitch-lc/lib/daemon.c:168-238 | every step of every process without --overwrite-pidfile (create, write, lock, link, the check of a name already taken, unlink, exit hooks, death) keeps the invariant, provided it is not a process opening its own file |
| `Pidfile.RunKeepsInv` | lcm/openvswitch-lc/lib/daemon.c:168-238 | the invariant holds after every clean run, for any number of processes and any interleaving |
| `Pidfile.MutualExclusion` | lcm/openvswitch-lc/lib/daemon.c:168-238 | in every clean run at most one live process has completed make_pidfile, and the name then leads to its file, which it has locked and which holds its pid |
| `Pidfile.StaleUnlinkSparesTheLiving` | lcm/openvswitch-lc/lib/daemon.c:625-667 | in every run in which no process starts over a leftover file that is the pidfile, a process about to unlink a stale pidfile removes the binding to the very file it checked, and no live process, at any point of its life, made that file |
| `Pidfile.StaleUnlinkSparesOwners` | lcm/openvswitch-lc/lib/daemon.c:625-667 | the same in every clean run for processes that have locked their own file |
| `Pidfile.FreshRunKeeps` | lcm/openvswitch-lc/lib/daemon.c:168-238 | in such runs a live process whose file is the pidfile holds the lock on it, and no process opens its own file |
| `PidfileRuns.LeftoverBreaksUnlink` | lcm/openvswitch-lc/lib/daemon.c:177-183 | from any state in which a process is about to start over a leftover file that is the pidfile, a newcomer can get to unlink it while the process is alive: the condition is needed at exactly that step |
| `Pidfile.HookUnlinksOwnName` | lcm/openvswitch-lc/lib/daemon.c:218-219 | the exit hook unbinds the pidfile name, which was the process's own binding, and changes nothing else |
| `Pidfile.ExitArmsHook` | lcm/openvswitch-lc/lib/daemon.c:218-219 | a process that exits after registering the hook will run it |
| `Pidfile.HooksLeaveNothing` | lcm/openvswitch-lc/lib/daemon.c:176-227 | a process that exits after binding the pidfile, and whose hooks have run, leaves neither the pidfile nor a temporary name that leads to its file, whatever others did meanwhile |
| `PidfileRuns.NewcomerSucceeds` | lcm/openvswitch-lc/lib/daemon.c:168-238 | from any state of a clean run in which nobody has the pidfile locked, a newcomer can get to running with the name bound to its file |
| `PidfileRuns.NewcomerRefused` | lcm/openvswitch-lc/lib/daemon.c:610-667 | while another process has the pidfile locked, the check of a newcomer ends in giving up, with name and lock untouched |
| `Pidfile.FreshStartsAreClean` | lcm/openvswitch-lc/lib/daemon.c:177-183 | runs in which no process starts over a leftover temporary file that is still linked as the pidfile are clean |
| `PidfileRuns.OwnFileBreaksExclusion` | lcm/openvswitch-lc/lib/daemon.c:610-667 | from any state of a clean run in which a process is about to open its own file, that process and any newcomer can both end up running: the condition of MutualExclusion is needed at exactly that step |
| `PidfileRuns.ExclusionFailsOnPidReuse` | lcm/openvswitch-lc/lib/daemon.c:168-238 | a concrete run, with a reused pid, in which two daemons run at once |
| `Capwap.FragmentPacket` | lcm/openvswitch-lc/datapath/vport-capwap.c:480-565 | fails exactly when fewer than 8 payload bytes fit, else cuts the payload as Split does, and every frame fits the limit |
| `Capwap.FragQueue.FindPosition` | lcm/openvswitch-lc/datapath/vport-capwap.c:706-712 | the insertion point is the one Position defines |
| `Capwap.FragQueue.AdmitFragment` | lcm/openvswitch-lc/datapath/vport-capwap.c:677-704 | the length and last-marker checks, as Admit defines them, with the state they leave |
| `Capwap.FragQueue.Enqueue` | lcm/openvswitch-lc/datapath/vport-capwap.c:664-757 | the whole new queue state and the payload returned, as Receive defines them |
| `Capwap.Defragmenter.Defrag` | lcm/openvswitch-lc/datapath/vport-capwap.c:759-791 | the fragment goes to the queue of its datagram, a new one if the last one completed, and no other queue changes |
| `Capwap.FullMeansTiled` | lcm/openvswitch-lc/datapath/vport-capwap.c:597-662 | disjoint fragments below len whose sizes add up to len tile it without a gap |
| `Capwap.ReceiveSafe` | lcm/openvswitch-lc/datapath/vport-capwap.c:664-757 | any fragment at all keeps the queue sorted, disjoint, within len and counted by meat; a payload is produced only when the fragments tile it |
| `Capwap.MisalignedRefused` | lcm/openvswitch-lc/datapath/vport-capwap.c:673-692 | a fragment without data, or one not marked last that ends off a multiple of 8, changes nothing |
| `Capwap.ContradictionRefused` | lcm/openvswitch-lc/datapath/vport-capwap.c:679-704 | a second last fragment, a last one that ends too early and one beyond the end change nothing |
| `Capwap.OverlapRefused` | lcm/openvswitch-lc/datapath/vport-capwap.c:706-728 | a fragment that overlaps one already held is not stored |
| `Capwap.ReassemblySafe` | lcm/openvswitch-lc/datapath/vport-capwap.c:664-791 | the same over every series of arrivals of a datagram, overlapping, repeated or contradictory, through every queue they go to |
| `Capwap.SplitCuts` | lcm/openvswitch-lc/datapath/vport-capwap.c:500-561 | the fragments are consecutive pieces of the payload, all but the last a multiple of 8 bytes, only the last one marked |
| `Capwap.SplitIsGreedy` | lcm/openvswitch-lc/datapath/vport-capwap.c:500-561 | every fragment but the last is as long as fits |
| `Capwap.RoundTrip` | lcm/openvswitch-lc/datapath/vport-capwap.c:480-565 | fragments of any payload of 1 to 65535 bytes, in any order and with any repeats: the payload comes out at exactly the arrivals that complete the set, counted from the arrival that last completed it |
| `Capwap.FirstCompletion` | lcm/openvswitch-lc/datapath/vport-capwap.c:597-662 | nothing comes out while a fragment is missing, and the last missing one brings out the payload |
| `Capwap.OffsetsFit` | lcm/openvswitch-lc/datapath/vport-capwap.c:546 | every offset up to 65535 bytes fits the 16-bit field and is a multiple of 8 |
| `Capwap.SizesOf` | lcm/openvswitch-lc/datapath/vport-capwap.c:500-561 | every fragment is long enough for the receiver exactly when a condition on payload length and room holds |
| `Capwap.EndToEnd` | lcm/openvswitch-lc/datapath/vport-capwap.c:278-299 | through the receiver's 14-byte check the round trip holds if and only if no fragment is shorter than that; otherwise nothing is ever returned |
| `Capwap.ShortTailIsLost` | lcm/openvswitch-lc/datapath/vport-capwap.c:278-299 | a payload of 1401 bytes over a link with room for 1400 never comes out |
| `FlowMatch.EqualExceptIsZeroed` | lcm/openvswitch-lc/lib/classifier.c:1287-1331 | comparing two flows under a mask is comparing them after zeroing the wildcarded bits |
| `FlowMatch.MatchesIsZeroed` | lcm/openvswitch-lc/lib/classifier.c:1171-1194 | a rule matches a flow exactly when the flow zeroed by the rule's mask is the rule's own flow |
| `FlowMatch.OverlapIsSharedPacket` | lcm/openvswitch-lc/lib/classifier.c:972-999 | the overlap test is true exactly when some flow matches both rules |
| `FlowMatch.LooseMatchIsContainment` | lcm/openvswitch-lc/lib/classifier.c:1034-1040 | the loose match is true exactly when every flow the rule matches is matched by the criteria |
| `Classifier.FindEqual` | lcm/openvswitch-lc/lib/classifier.c:1196-1207 | the list with the rule's masked value, if there is one |
| `Classifier.InsertedValid` | lcm/openvswitch-lc/lib/classifier.c:1209-1247 | inserting into a list keeps priorities strictly descending |
| `Classifier.InsertedRules` | lcm/openvswitch-lc/lib/classifier.c:1209-1247 | the new list holds the rule and the old rules except the one displaced |
| `Classifier.InsertRule` | lcm/openvswitch-lc/lib/classifier.c:1209-1247 | the table stays valid and holds the rule and the old rules except an identical one, which is returned |
| `Classifier.RemoveRule` | lcm/openvswitch-lc/lib/classifier.c:902-920 | the table stays valid apart from possibly being empty and loses exactly that rule |
| `Classifier.FlowClassifier.FindTable` | lcm/openvswitch-lc/lib/classifier.c:1135-1147 | the table with a given mask, if there is one |
| `Classifier.FlowClassifier.Replace` | lcm/openvswitch-lc/lib/classifier.c:868-885 | the classifier stays valid (masks distinct, no empty table, n_rules exact) and its rules change by the one added and the one displaced |
| `Classifier.FlowClassifier.Remove` | lcm/openvswitch-lc/lib/classifier.c:902-927 | the classifier stays valid and loses exactly the rule; an emptied table goes |
| `ClassifierQuery.FindMatch` | lcm/openvswitch-lc/lib/classifier.c:1171-1194 | the highest-priority rule of one table that matches the flow |
| `ClassifierQuery.Lookup` | lcm/openvswitch-lc/lib/classifier.c:932-946 | a matching rule of maximum priority over all tables, none exactly when no rule matches |
| `ClassifierQuery.LookupAfter` | lcm/openvswitch-lc/lib/classifier.c:868-946 | after any run of replaces and removes, lookup agrees with a linear scan over the rules installed, and n_rules is their number |
| `ClassifierQuery.FindRuleExactly` | lcm/openvswitch-lc/lib/classifier.c:951-970 | the rule with the same mask, value and priority, none exactly when there is none |
| `ClassifierQuery.RuleOverlaps` | lcm/openvswitch-lc/lib/classifier.c:975-999 | true exactly when some rule of the same priority shares a packet with the target |
| `ClassifierCursor.CursorFirst` | lcm/openvswitch-lc/lib/classifier.c:1084-1098 | the first rule of the selection, in walk order |
| `ClassifierCursor.CursorNext` | lcm/openvswitch-lc/lib/classifier.c:1102-1133 | the next rule of the selection after a given position |
| `ClassifierCursor.FlatOnce` | lcm/openvswitch-lc/lib/classifier.c:1051-1064 | the walk order over lists, heads and tables contains each rule exactly once |
| `ClassifierCursor.Walk` | lcm/openvswitch-lc/lib/classifier.c:1034-1133 | first and then next until the end visits every rule that matches the criteria exactly once and no other, and terminates |
| `FlowCodec.NetAttrsInjective` | lcm/openvswitch-lc/datapath/flow.c:1271-1389 | different packet headers have different attributes |
| `FlowCodec.DenotesOne` | lcm/openvswitch-lc/datapath/flow.c:1026-1183 | an attribute list denotes at most one key |
| `FlowCodec.ParseNlattrs` | lcm/openvswitch-lc/datapath/flow.c:990-1017 | fails on a repeated or malformed attribute, else gives all attributes present |
| `FlowCodec.ParseRecords` | lcm/openvswitch-lc/datapath/flow.c:990-1017 | what parsing records is exactly the attributes of the list |
| `FlowCodec.DenotedIsTrue` | lcm/openvswitch-lc/datapath/flow.c:1026-1183 | every attribute of a list that stands for a key, nested ones included, is true of the key field by field: addresses, ports, kinds and codes, ARP, neighbour discovery, VLAN, Ethernet and metadata |
| `FlowCodec.DenotedIsTold` | lcm/openvswitch-lc/datapath/flow.c:1236-1399 | such a list has every attribute that the key calls for |
| `FlowCodec.KeyLenIsLayout` | lcm/openvswitch-lc/datapath/flow.h:43-93 | the key length reaches to the end of the last member in use, by the sizes of the members |
| `FlowCodec.Ipv4FromNlattrs` | lcm/openvswitch-lc/datapath/flow.c:1111-1133 | accepts exactly the attributes of an IPv4 header and gives it with its key length |
| `FlowCodec.Ipv6FromNlattrs` | lcm/openvswitch-lc/datapath/flow.c:1134-1159 | the same for IPv6, neighbour discovery included |
| `FlowCodec.NetFromNlattrs` | lcm/openvswitch-lc/datapath/flow.c:1102-1183 | the same for every ethertype |
| `FlowCodec.FromNlattrs` | lcm/openvswitch-lc/datapath/flow.c:1026-1183 | accepts exactly the lists that denote a key, VLAN nesting and truncated 802.1Q included, and gives that key and its length; every attribute of an accepted list is true of the key and none it calls for is missing |
| `FlowCodec.NetToNlattrs` | lcm/openvswitch-lc/datapath/flow.c:1271-1389 | the list written parses to the attributes of the header |
| `FlowCodec.MetadataToNlattrs` | lcm/openvswitch-lc/datapath/flow.c:1241-1258 | the metadata attributes written parse back to the metadata |
| `FlowCodec.VlanToNlattrs` | lcm/openvswitch-lc/datapath/flow.c:1260-1269 | the VLAN attributes written denote the tag and the header inside it |
| `FlowCodec.ToNlattrs` | lcm/openvswitch-lc/datapath/flow.c:1236-1399 | the list written denotes the key, says only what is true of it and leaves nothing out |
| `FlowCodec.EncodeDecode` | lcm/openvswitch-lc/datapath/flow.c:1236-1399 | encoding a decodable key and decoding it gives the same key and key length |
| `FlowCodec.DecodeEncodeDecode` | lcm/openvswitch-lc/datapath/flow.c:1026-1399 | a list that decodes gives the same key and length after encoding and decoding again |
| `FlowTable.Table.Insert` | lcm/openvswitch-lc/datapath/flow.c:841-854 | the flow is first in its bucket, nothing else moves, its other link is untouched, and between the two writes readers still get the old answers |
| `FlowTable.Table.Remove` | lcm/openvswitch-lc/datapath/flow.c:856-861 | the flow leaves its bucket, the count drops by one, other links are untouched and the removed flow keeps its own |
| `FlowTable.Table.Lookup` | lcm/openvswitch-lc/datapath/flow.c:803-839 | the first flow of the bucket with that hash and key, which is what following heads and links as values gives; none exactly when no flow of the table has them |
| `FlowTable.Answers` | lcm/openvswitch-lc/datapath/flow.c:803-839 | a reader who sees the heads and links of some buckets gets the answers of these buckets |
| `FlowTable.TablesAgree` | lcm/openvswitch-lc/datapath/flow.c:390-411 | tables with the same flows under distinct keys answer every lookup alike, whatever their sizes, seeds and link sets |
| `FlowTable.CopyLink` | lcm/openvswitch-lc/datapath/flow.c:368-388 | after the first write of a copy every lookup in the old table gives the answer it gave before |
| `FlowTable.CopyPublish` | lcm/openvswitch-lc/datapath/flow.c:368-388 | the same after the second write, and the new table has gained that flow |
| `FlowTable.CopyOne` | lcm/openvswitch-lc/datapath/flow.c:368-388 | each single copy leaves every head, link and answer a reader of the old table uses as it was |
| `FlowTable.CopyFlows` | lcm/openvswitch-lc/datapath/flow.c:368-388 | the new table has exactly the old flows and the old count, readers of the old table see no change, and keep_flows is set |
| `FlowTable.Rehash` | lcm/openvswitch-lc/datapath/flow.c:390-411 | the same for a new table on the other link set, of any size and seed |
| `FlowTable.Destroy` | lcm/openvswitch-lc/datapath/flow.c:299-324 | frees every flow of the table exactly once, or none when keep_flows is set |
| `BondRebalance.InsertBal` | lcm/openvswitch-lc/lib/bond.c:779-790 | the slave goes before the first one with less load, and descending order is kept |
| `BondRebalance.FirstPlaced` | lcm/openvswitch-lc/lib/bond.c:794-799 | re-inserting the front slave leaves a list that is sorted once the last slave is taken out, although it is not sorted before that |
| `BondRebalance.Resort` | lcm/openvswitch-lc/lib/bond.c:794-799 | both re-insertions together sort the list again |
| `BondRebalance.ChooseEntry` | lcm/openvswitch-lc/lib/bond.c:745-775 | the first listed entry whose move lowers the load ratio by more than 0.1, none if there is none or the slave lists fewer than two |
| `BondRebalance.WorthInIntegers` | lcm/openvswitch-lc/lib/bond.c:765-771 | the ratio test as an inequality between integers, without ratios |
| `BondRebalance.WorthGrows` | lcm/openvswitch-lc/lib/bond.c:758-771 | a slave without load takes anything, one with load never takes zero bytes, and what is worth moving stays so when it grows |
| `BondRebalance.ShiftLowersRatio` | lcm/openvswitch-lc/lib/bond.c:739-771 | every shift in a log of decisions moves load and lowers the ratio of the two loads by more than a tenth, if there is one |
| `BondRebalance.LoadsAddUp` | lcm/openvswitch-lc/lib/bond.c:817-828 | the slaves' loads together are the bytes of all assigned entries |
| `BondRebalance.Shifted` | lcm/openvswitch-lc/lib/bond.c:712-737 | a shift keeps every slave's load equal to the sum of its entries and the total unchanged, and does not underflow |
| `BondRebalance.NoEntryMovesTwice` | lcm/openvswitch-lc/lib/bond.c:859-867 | in every log of decisions no entry moves twice |
| `BondRebalance.DropStays` | lcm/openvswitch-lc/lib/bond.c:872-876 | a slave taken out of the list keeps its load and its list to the end, so the gap and the want of a useful move that made it go are true of it then |
| `BondRebalance.MakesDecision` | lcm/openvswitch-lc/lib/bond.c:843-877 | a round of the loop takes the most and the least loaded slave considered, over both thresholds apart by the sums of their entries, and does what choose_entry_to_migrate calls for |
| `BondRebalance.Bond.Collect` | lcm/openvswitch-lc/lib/bond.c:817-828 | loads are the sums of the entries and lists are the entries that carried traffic |
| `BondRebalance.Bond.SortSlaves` | lcm/openvswitch-lc/lib/bond.c:830-839 | exactly the enabled slaves, in descending order of load |
| `BondRebalance.Bond.MigrateAndSort` | lcm/openvswitch-lc/lib/bond.c:858-871 | exactly one entry changes owner and leaves its list, accounts, total and order are kept, and the slaves in the list stay the same |
| `BondRebalance.Bond.Spread` | lcm/openvswitch-lc/lib/bond.c:843-877 | the loop terminates; it made a log of decisions each of which is the right one in the state the earlier ones lead to, replaying the log gives the final assignment, lists and slaves considered, these slaves are within the threshold of each other, and accounts, order and total are kept |
| `BondRebalance.Bond.Decay` | lcm/openvswitch-lc/lib/bond.c:879-887 | every entry is halved and forgotten at zero |
| `BondRebalance.Bond.Rebalance` | lcm/openvswitch-lc/lib/bond.c:805-888 | nothing happens when not due; otherwise the entries end up as replaying such a log from the entries with traffic and all enabled slaves says, then halved |
| `BondLink.PendingSince` | lcm/openvswitch-lc/lib/bond.c:1308-1341 | a pending timer was started by a run since which every run saw the same link state and nothing was forced |
| `BondLink.Debounced` | lcm/openvswitch-lc/lib/bond.c:1308-1341 | over any history of runs, link changes and forced enables, a run changes a slave only if the link was in the new state at every run since one at least the delay ago |
| `BondLink.Fires` | lcm/openvswitch-lc/lib/bond.c:1308-1341 | conversely, a link that stays in one state for the delay gets the slave into that state |
| `BondLink.DelaysByName` | lcm/openvswitch-lc/lib/bond.c:1324-1325 | without LACP a slave goes up only after the up delay and down only after the down delay |
| `BondLink.FiresByName` | lcm/openvswitch-lc/lib/bond.c:1324-1325 | a link up for the up delay brings the slave up and one down for the down delay brings it down; with LACP there is no delay |
| `BondLink.Updated` | lcm/openvswitch-lc/lib/bond.c:1308-1341 | after an update the timer is pending exactly when the wanted state differs from the actual one |
| `BondLink.Bond.ChooseSlave` | lcm/openvswitch-lc/lib/bond.c:1453-1476 | an enabled slave if any, else the eligible pending one that is due first, none exactly when there is none |
| `BondLink.Bond.ChooseActive` | lcm/openvswitch-lc/lib/bond.c:1478-1505 | the active slave is enabled, at most one slave is forced, and only when none was enabled |
| `BondLink.Bond.LinkStatusUpdate` | lcm/openvswitch-lc/lib/bond.c:1308-1341 | the slave changes as Updated says and no other does |
| `BondLink.Bond.Run` | lcm/openvswitch-lc/lib/bond.c:408-452 | after every run timers are pending exactly where wanted and actual state differ, the active slave is enabled, there is one if any slave is enabled, and a slave departs from its own update only by being made active |
| `BondLink.Drive` | lcm/openvswitch-lc/lib/bond.c:307-452 | any run of calls on a bond leaves each slave it keeps as a history leaves it in which every run of the bond stands where it was made |
| `BondLink.RunDebounced` | lcm/openvswitch-lc/lib/bond.c:408-452 | after any run of calls on a bond a further run changes a slave only after its delay with the link steady, or by electing it when no slave would be enabled |
| `BondLink.Bond.Register` | lcm/openvswitch-lc/lib/bond.c:307-335 | the slave is known afterwards, disabled or enabled by its carrier, and no other changes |
| `BondLink.Bond.Unregister` | lcm/openvswitch-lc/lib/bond.c:356-391 | no entry, active slave or table slot refers to the slave afterwards, and other entries are kept |
| `BondLink.Bond.ChooseOutput` | lcm/openvswitch-lc/lib/bond.c:1407-1451 | none exactly when LACP blocks the bond or no slave is enabled, else an enabled registered slave: the active one, the highest-weight one in stable mode or without rebalancing, or that of the entry, which keeps a usable slave and else gets the random one or the active one |
| `BondLink.StableDisable` | lcm/openvswitch-lc/lib/bond.c:1378-1405 | disabling a slave moves only flows that went out through it |
| `BondLink.StableEnable` | lcm/openvswitch-lc/lib/bond.c:1378-1405 | enabling a slave moves flows only onto it |
| `Hrw.ChooseStable` | lcm/openvswitch-lc/lib/bond.c:1384-1405 | the first enabled slave with the largest hash |
| `Hrw.MinimalDisruption` | lcm/openvswitch-lc/lib/bond.c:1378-1405 | when candidates are only added, a choice that was available before was made before, even with hash ties |
| `Hrw.DisableOne` | lcm/openvswitch-lc/lib/bond.c:1378-1405 | disabling one slave moves only flows that used it |
| `Hrw.EnableOne` | lcm/openvswitch-lc/lib/bond.c:1378-1405 | enabling one slave moves flows only onto it |
| `Hrw.ExecuteHrw` | lcm/openvswitch-lc/lib/bundle.c:54-77 | the port of the first usable slave with the largest hash |
| `Hrw.ExecuteAb` | lcm/openvswitch-lc/lib/bundle.c:38-52 | the first usable slave, which is the choice between equal hashes |
| `Hrw.PortChange` | lcm/openvswitch-lc/lib/bundle.c:38-77 | a port going up or down moves only flows onto or off that port, even if it is listed several times |
| `Actions.ValidateActions` | lcm/openvswitch-lc/datapath/datapath.c:1035-1119 | accepts exactly the lists whose actions are all legal and whose samples nest less than three levels deep in all |
| `Actions.SampleInPlace` | lcm/openvswitch-lc/datapath/actions.c:325-348 | a sample acts as its list put in its place when the draw is below the probability and as nothing otherwise |
| `Actions.OutputSeesEarlierEdits` | lcm/openvswitch-lc/datapath/actions.c:427-503 | an output sends the packet as the actions before it left it, whatever follows |
| `Actions.Executor.DoSample` | lcm/openvswitch-lc/datapath/actions.c:325-348 | a sample has the effect of the simple interpreter on the same packet and does not consume the buffer |
| `Actions.Executor.DoExecuteActions` | lcm/openvswitch-lc/datapath/actions.c:427-503 | on every legal list the held-back output gives the same packet, the same ordered trace of sent packets and upcalls and the same success as sending a copy at each output, after failures and inside nested samples too; on success the buffer is consumed once, or never if it is kept |
| `LoopSuppress.Cpu.Carry` | lcm/openvswitch-lc/datapath/actions.c:427-503 | exactly the flows of a list are entered, in order, from the depth of that list |
| `LoopSuppress.Cpu.Execute` | lcm/openvswitch-lc/datapath/actions.c:516-560 | for every topology the call terminates, count is the depth and is restored, no list starts deeper than 5 or while a loop is flagged, back at depth 0 nothing is flagged, the call fails exactly when a loop is flagged, and a list that may start does |
| `Tunnel.UngatedIsBest` | lcm/openvswitch-lc/datapath/tunnel.c:304-368 | the search finds the one port of highest rank among those that accept the packet (remote end over group, exact key over any, named local address over any), none exactly when no port accepts it |
| `Tunnel.RequestAccepts` | lcm/openvswitch-lc/datapath/tunnel.c:1396-1433 | which packets a port made by a request accepts, in terms of the request |
| `Tunnel.GateOpen` | lcm/openvswitch-lc/datapath/tunnel.c:205-224 | the counter of a key's own class never hides a port with that key |
| `Tunnel.GatesTransparent` | lcm/openvswitch-lc/datapath/tunnel.c:304-368 | with right counters and a remote address that is not multicast, the counter tests do not change the result |
| `Tunnel.GatesHideMulticastRemote` | lcm/openvswitch-lc/datapath/tunnel.c:304-368 | for every multicast remote address some table has a port that only the search without the tests finds |
| `Tunnel.CountedReplace` | lcm/openvswitch-lc/datapath/tunnel.c:1541-1544 | counters left alone stay right exactly when the port's class does not change |
| `Tunnel.Table.Lookup` | lcm/openvswitch-lc/datapath/tunnel.c:281-302 | the port with that key, none exactly when there is none |
| `Tunnel.Table.AddPort` | lcm/openvswitch-lc/datapath/tunnel.c:236-251 | table and counters stay right with the port added |
| `Tunnel.Table.MovePort` | lcm/openvswitch-lc/datapath/tunnel.c:253-266 | table and counters stay right with the port's configuration replaced |
| `Tunnel.Table.RemovePort` | lcm/openvswitch-lc/datapath/tunnel.c:268-279 | table and counters stay right with the port removed, and no counter underflows |
| `Tunnel.Table.SetConfig` | lcm/openvswitch-lc/datapath/tunnel.c:1375-1457 | refuses exactly ill-formed requests (missing attributes, a local address for a multicast tunnel, ECN bits, a header that does not fit, no multicast route) and keys another port has, else gives the configuration asked for |
| `Tunnel.Table.Create` | lcm/openvswitch-lc/datapath/tunnel.c:1459-1515 | accepts exactly well-formed requests for a key no port has; then there is one port more, else nothing changes; keys stay unique and counters right |
| `Tunnel.Table.SetOptions` | lcm/openvswitch-lc/datapath/tunnel.c:1517-1553 | accepts exactly well-formed requests for a key no other port has; keys stay unique; the counters are right afterwards if and only if it is not an accepted change between keys of equal hash and different class |
| `Tunnel.Table.FindPort` | lcm/openvswitch-lc/datapath/tunnel.c:304-368 | the result of the search with the counter tests; with right counters and a remote address that is not multicast it is the accepting port of highest rank, none exactly when no port accepts the packet |
| `Tunnel.FindAfter` | lcm/openvswitch-lc/datapath/tunnel.c:205-368 | after any run of port creations, changes and removals without a hash collision between classes, a lookup finds the best port among those installed |
| `Tunnel.CountersDrift` | lcm/openvswitch-lc/datapath/tunnel.c:1541-1544 | a table, a hash and two requests after which the counters are wrong |
| `Brcompat.StepKeepsInv` | lcm/openvswitch-lc/datapath/brcompat_main.c:425-519 | every step of every caller and every answer keeps the invariant |
| `Brcompat.ReplyMatchesRequest` | lcm/openvswitch-lc/datapath/brcompat_main.c:468-519 | in every run what a call returns is a reply, and to its own request |
| `Brcompat.OneAtATime` | lcm/openvswitch-lc/datapath/brcompat_main.c:476-517 | at most one caller is between taking and releasing the mutex |
| `Brcompat.MutexReleased` | lcm/openvswitch-lc/datapath/brcompat_main.c:506-517 | the mutex is held by exactly the caller between taking and releasing it, so every return has released it |
| `Brcompat.StaleAnswersIgnored` | lcm/openvswitch-lc/datapath/brcompat_main.c:436-449 | late, early and repeated answers change nothing for a caller that is numbered, waiting for another number, or woken |
| `Brcompat.CallSucceeds` | lcm/openvswitch-lc/datapath/brcompat_main.c:468-513 | in any state of a run with no call in progress, a caller whose request is answered in time returns that answer and leaves the mutex free |
| `Brcompat.AnswerWakes` | lcm/openvswitch-lc/datapath/brcompat_main.c:436-449 | the answer to the current request is stored and wakes the caller |
| `Csum.Finish` | lcm/openvswitch-lc/lib/csum.c:79-86 | terminates with the complement of the ones-complement fold |
| `Csum.Continue` | lcm/openvswitch-lc/lib/csum.c:58-70 | the sum of the words and an odd last byte, with every wrap-around of the accumulator accounted for |
| `Csum.Checksum` | lcm/openvswitch-lc/lib/csum.c:29-33 | the complement of the folded sum for all data whose sum fits 32 bits |
| `Csum.SumOfParts` | lcm/openvswitch-lc/lib/csum.c:53-70 | summing an even-length part and then the rest is summing the whole |
| `Csum.OddByteIsPadded` | lcm/openvswitch-lc/lib/csum.c:66-68 | an odd last byte counts as if a zero byte followed it |
| `Csum.Add32IsFourBytes` | lcm/openvswitch-lc/lib/csum.c:47-51 | adding a 32-bit value adds what its four bytes add |
| `Csum.Recalc16` | lcm/openvswitch-lc/lib/csum.c:91-104 | the value Recalculated16 defines, from the loop of Finish |
| `Csum.Recalc16Right` | lcm/openvswitch-lc/lib/csum.c:91-104 | the updated checksum is the checksum of the changed data if and only if that data is not all zero |
| `Csum.Recalc32Right` | lcm/openvswitch-lc/lib/csum.c:108-113 | the same for a 32-bit field |
| `Csum.ReceiverAccepts` | lcm/openvswitch-lc/lib/csum.c:29-33 | data with its own checksum in place has checksum zero, and no other value than it and its twin modulo 65535 does that |
| `Bloom.Filter.Add` | lcm/openvswitch-lc/lib/bf.c:139-155 | exactly the bits of the host are set and no other bit changes |
| `Bloom.FreshIsEmpty` | lcm/openvswitch-lc/lib/bf.c:64-112 | a new filter of whole bytes holds no host |
| `Bloom.Filter.Check` | lcm/openvswitch-lc/lib/bf.c:163-187 | true exactly when all bits of the host are set |
| `Bloom.CopyHolds` | lcm/openvswitch-lc/lib/bf-gdt.c:220-232 | a copied filter holds a host of the original exactly when the bits in an incomplete last byte were set before |
| `Bloom.DistinctKept` | lcm/openvswitch-lc/lib/bf-gdt.c:78-128 | each operation keeps ids distinct, except that adding does so exactly when the table is full or the id is new |
| `Bloom.RunDistinct` | lcm/openvswitch-lc/lib/bf-gdt.c:78-250 | over any run in which filters are added under new ids only, ids stay distinct and there are at most 64 filters |
| `Bloom.SameIdTwice` | lcm/openvswitch-lc/lib/bf-gdt.c:78-98 | adding one id twice gives two filters with that id |
| `Bloom.FullTableDropsUpdate` | lcm/openvswitch-lc/lib/bf-gdt.c:181-250 | an update under a new id leaves a full table as it is |
| `Bloom.TailIsLost` | lcm/openvswitch-lc/lib/bf-gdt.c:137-154 | for every length that is not a multiple of 8 some host is held by a filter and not by its copy |
| `Bloom.UpdateTracks` | lcm/openvswitch-lc/lib/bf-gdt.c:181-250 | an update hands over every host of the filter if the receiver has the id or has room |
| `Bloom.RunTracks` | lcm/openvswitch-lc/lib/bf-gdt.c:78-250 | a host stays findable over any run of operations that does not delete or overwrite its filter |
| `Bloom.NoFalseNegative` | lcm/openvswitch-lc/lib/bf-gdt.c:181-322 | any host added to a sender's filter is found at the receiver after the update and any such run, under the sender's port if the filter is new there |
| `Bloom.Table.AddFilter` | lcm/openvswitch-lc/lib/bf-gdt.c:78-98 | an empty filter is added at the end, or nothing when 64 are there |
| `Bloom.Table.DelFilter` | lcm/openvswitch-lc/lib/bf-gdt.c:106-128 | the first filter with the id goes and the last one takes its place |
| `Bloom.DeletedExactly` | lcm/openvswitch-lc/lib/bf-gdt.c:106-128 | deletion takes away exactly the first filter with the id, or nothing |
| `Bloom.DeletedIsGone` | lcm/openvswitch-lc/lib/bf-gdt.c:106-128 | with distinct ids no filter has the id afterwards |
| `Bloom.Table.FindFilter` | lcm/openvswitch-lc/lib/bf-gdt.c:163-173 | the first filter with the id, none exactly when there is none |
| `Bloom.Table.InsertFilter` | lcm/openvswitch-lc/lib/bf-gdt.c:137-154 | a copy is added at the end, or nothing when 64 are there |
| `Bloom.Table.UpdateFilter` | lcm/openvswitch-lc/lib/bf-gdt.c:181-250 | overwrites or adds, and tells which; with no room it adds nothing and still answers 2 |
| `Bloom.Table.AddItem` | lcm/openvswitch-lc/lib/bf-gdt.c:286-299 | the host goes into the first filter with the id, nothing changes when there is none |
| `Bloom.Table.Check` | lcm/openvswitch-lc/lib/bf-gdt.c:307-322 | a filter of the table that holds the host, none exactly when no filter does |

## Left out

- Pidfile: `--overwrite-pidfile`, reading the pid of a lock holder in another process, and file-system errors other than those that end the attempt.
- Capwap: the header and wireless-information codec, the reassembly timeout and the eviction of queues; only the constants of the header enter.
- FlowCodec: key extraction from packets, attribute lengths, a full output buffer, and the bound on the encoded size.
- FlowTable: iteration by position, and readers that still walk the table before the last one when a second rehash reuses its links.
- FlowTable.Table.Remove: the flow whose link leads to the removed one is an argument, where the code follows a back pointer of the removed flow; the back pointers are not modelled.
- FlowTable.Table.Lookup: hash and key are given; extracting the masked key is not modelled.
- BondRebalance: 64-bit overflow of byte counts and rounding of the ratio test, which is over exact reals; tags and logging.
- BondLink: tags, statistics of the fake interface, learning packets and the manual commands. The time is the same throughout one run, and the slave table is walked in order of registration.
- Actions: ownership of the buffer when an action fails, failing clones, attribute lengths, and the checks on what a set action may set, which are a parameter. Re-entry through a port is in LoopSuppress.
- Tunnel: how a multicast route or the header length is found (whether it is found is part of a request), options that are not part of the key, and the header cache.
- Brcompat: wrap-around of the 32-bit sequence number, and parsing of messages.
- Csum: big-endian hosts.
- Bloom: the two hash functions and the release of memory. Removing a host from a filter does not exist in the code.
- Classifier: the hash maps are sequences of tables and of lists; which bucket a node is in does not matter to any result.
- Netlink handlers, vport plumbing, the userspace datapath interface, the Space-Saving sketches, AES and the Python daemons: thin wrappers, or easier than what is here.
