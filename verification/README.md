# Verified model of the SAI common utilities

This project models the in-memory tables of `opx-sai-common-utils`, the helper library of a switch
abstraction layer, and proves what those tables keep. Each table that the library changes in place is
a class or an array whose methods are proved against a function on values; the properties of whole
runs are lemmas about those functions.

| file | subject |
|---|---|
| `PortBreakout.dfy`, `BreakoutRuns.dfy` | breakout of port groups, hardware lane lists |
| `SaiMap.dfy` | the keyed list store |
| `BridgeDb.dfy`, `BridgeRuns.dfy`, `BridgeHistory.dfy` | bridge port cache, reverse index bridge to ports, reference counts, sub-ports; what a run leaves in the records and lists |
| `IdGen.dfy` | object-id allocator |
| `AttrValidate.dfy` | attribute lists against a vendor table |
| `PortPool.dfy`, `PortPoolSimple.dfy` | port-pool nodes in two trees and one list per port, and the one plain list they refine |
| `WredQueues.dfy` | the two walks that collect WRED queues |
| `ObjectId.dfy` | object-id packing and layout, local port translation |
| `IpPrefix.dfy` | prefix membership |
| `SaiTypes.dfy`, `Bits.dfy`, `Collections.dfy` | status codes, bitwise "and" on naturals, finite sets |

## Conventions

- A red-black tree is a finite map, or, where it is walked, an array of records in key order. A linked
  list is a sequence. Every locked operation is one step.
- Object ids are natural numbers, except in `ObjectId.dfy`, which works on 64-bit words. 32-bit and
  64-bit wrap-around is written out where it can happen (`refCount`, `curId`, serial lane numbers).
- A capability mask is the set of the positions of its one bits. A filter mask is a record of its bits.
- Status codes are a datatype; an indexed attribute status is a fault with a position. The numeric
  range reserved for a fault is a parameter, since the status header is not part of this model. So are
  the enumeration values of object types and port types, and which breakout mode has value 0.
- A cached bridge port is read through a pointer into the table and changed there; the model names the
  table entry by its id.
- A caller's buffer is an array with a separate count. Null output pointers are not modelled; a null
  attribute list and a null record are.
- The helper methods `AttrValidate.CheckAttribute`, `AttrValidate.CheckList`,
  `AttrValidate.CountMandatory`, `WredQueues.WalkProfile` and the three `PortBreakout.To...Lane`
  methods are loops or branches of one function of the library, cut out so that each has a contract.

## Where the code differs from its documentation

- `sai_port_fabric_id_get` reads the port-type bits: `ObjectId.FabricReadsBackIffType`,
  `ObjectId.FabricMisread`.
- `sai_port_is_breakout_mode_supported` searches slots that were never filled:
  `PortBreakout.ModeAnswerExact` states exactly when its answer is right, `PortBreakout.UnsupportedModeListed`
  is a port it is wrong about.
- `sai_port_update_valdity_on_create` returns a failure on every path, and in the two-lane mode it can
  leave no port of the group valid: `BreakoutRuns.CreateValidatesOnePort`,
  `BreakoutRuns.CreateValidatesNone`.
- `dn_sai_check_duplicate_attr` is documented to return a status; it returns a boolean.
- The create check counts mandatory attributes, so a repeated one can stand in for a missing one, or get
  a complete list rejected: `AttrValidate.DuplicatesFoolTheCounters`, `AttrValidate.RepeatIsRejected`.
  `AttrValidate.ValidateRight` states exactly which lists it is right about.
- The allocator promises a free id, but before its counter has wrapped it does not ask whether an id is
  in use: `IdGen.ReuseWithoutCleanStart`. `IdGen.SafeExact` states exactly which starts are safe.
- The sub-port duplicate check reads through a one-element buffer, so a key that already lists two
  ports counts as free: `BridgeRuns.DuplicateCheckExact`, `BridgeRuns.TwoEntriesCountAsFree`.
- The two-lane mode marks only the third record of a group as the second port, whatever the group's
  size: `BreakoutRuns.PartitionExact`, `BreakoutRuns.EightPortsInTwoLaneMode`.
- A cache write inserts into the index without asking, an attribute update leaves the index alone, and a
  member's removal drops the count without asking: `BridgeRuns.OverwriteListsTwice`,
  `BridgeRuns.AttributeAloneMisplaces`, `BridgeRuns.AbsentMemberUnderflows`.

## Model

| member | source | states |
|---|---|---|
| `BreakoutRuns.LanesPartitionedInEveryRun` | src/port/sai_port_utils.c:587-809 | over any run of updates on disjoint groups, of any sizes, whose claimed mode is the reported one: the lane lists of each group's valid ports, in table order, are the group's original physical ids, each once; one mode is reported throughout the group; records of groups not named are unchanged |
| `BreakoutRuns.PartitionExact` | src/port/sai_port_utils.c:778-805 | in a group in a proper mode, the lanes are partitioned among the valid ports if and only if the mode is not the two-lane mode or the group has two or four ports |
| `BreakoutRuns.EightPortsInTwoLaneMode` | src/port/sai_port_utils.c:778-805 | a group of eight ports in the two-lane mode whose lanes are not partitioned |
| `BreakoutRuns.NoSharedLane` | src/port/sai_port_utils.c:587-698 | two different valid ports, of the same or of different groups, never list the same physical lane |
| `BreakoutRuns.RunWrites` | src/port/sai_port_utils.c:700-809 | what any run of updates leaves in each record of each group: the speeds are those of the last update in whose mode the record was in use; validity, media and the control port's lane bitmap are those of the last mode of the group; where there was none, as at the start |
| `BreakoutRuns.UpdateWrites` | src/port/sai_port_utils.c:725-805 | one update, field by field: ports in use get the new speed, others keep theirs; subsidiary ports are valid exactly when in use and get the control port's media, or none in the one-lane mode; the control port keeps validity and media and gets the bitmap 0x1, 0x5 or 0xF |
| `BreakoutRuns.UpdateLeavesAlone` | src/port/sai_port_utils.c:700-809 | records outside the group, ids, supported capabilities, and enabled capabilities not about breakout are never touched |
| `BreakoutRuns.BitmapLanes` | inc/opx/sai_port_common.h:189-191 | bit j of the bitmap is set if and only if j is one of the four lanes and a multiple of the mode's port count; the ports in use are the multiples of its lane count |
| `BreakoutRuns.ReportedMode` | src/port/sai_port_utils.c:462-478 | capability bit 2 reports the two-lane mode before bit 3 the four-lane mode; the lane counts are 2, 1 and 4, or the port's own without breakout |
| `BreakoutRuns.ModeBits` | inc/opx/sai_port_common.h:339-348 | the modes have bits 1, 2 and 3, and each bit leads back to its mode |
| `BreakoutRuns.PortCountModes` | inc/opx/sai_port_utils.h:436-453 | the counts 1, 2 and 4 lead to the mode with that many ports, any other to none |
| `BreakoutRuns.SerialLanes` | src/port/sai_port_utils.c:602-628 | without breakout support each lane is the 32-bit successor of the one before, starting at the port's physical id |
| `BreakoutRuns.ExactlyNewMode` | src/port/sai_port_utils.c:240-259 | for any claimed and any new mode, exactly the new mode's bit is enabled afterwards if and only if it is supported and no other bit than those of the claimed and the new mode was enabled |
| `BreakoutRuns.UpdateTracksMode` | src/port/sai_port_utils.c:700-809 | an update with the right claimed mode and a supported new mode leaves every port of the group in the new mode: bits, breakout flag and validity |
| `BreakoutRuns.GetterReturnsMode` | src/port/sai_port_utils.c:462-478 | the getter reports the group's mode at each of its ports |
| `BreakoutRuns.AnyRunKeepsSupported` | src/port/sai_port_utils.c:240-259 | in every run of updates whatever, enabled capabilities stay within supported ones |
| `BreakoutRuns.LaneBudget` | inc/opx/sai_port_utils.h:406-453 | in a four-lane group, the number of valid ports is the mode's port count, the ones in the control port's bitmap are its lane count, their product is 4, and the port count leads back to the mode |
| `BreakoutRuns.BreakoutAndBack` | src/port/sai_port_utils.c:725-806 | breaking out of a clean one-lane mode and back in restores the enabled capabilities and the validity of every record |
| `BreakoutRuns.CreateValidatesOnePort` | src/port/sai_port_utils.c:811-859 | after a breakout, creating a port makes it the only valid port of its group exactly when it carries lanes in the new mode; otherwise none is valid |
| `BreakoutRuns.CreateValidatesNone` | src/port/sai_port_utils.c:836-855 | creating the second of four ports after a breakout into the two-lane mode leaves none of them valid |
| `BreakoutRuns.CreateLeavesAlone` | src/port/sai_port_utils.c:811-859 | a create changes nothing but the validity, and that only of records of the group in use in a broken-out mode, where it becomes whether the record is the port created |
| `PortBreakout.BreakoutModeUpdate` | src/port/sai_port_utils.c:700-809 | the in-place walk turns the table into the updated table, record by record |
| `PortBreakout.CapabilityEnableUpdate` | src/port/sai_port_utils.c:240-259 | one record changes, by the supported part of the mask only |
| `PortBreakout.IsBreakoutModeSupported` | src/port/sai_port_utils.c:481-585 | the search over three slots finds a mode if and only if its bit is supported, or it has value 0 and not all three modes are supported |
| `PortBreakout.ModeAnswerExact` | src/port/sai_port_utils.c:481-585 | the answer equals the mode's bit if and only if the mode has not value 0 or its bit is set |
| `PortBreakout.UnsupportedModeListed` | src/port/sai_port_utils.c:499-508 | a port without capabilities is said to support the mode with value 0 |
| `PortBreakout.HwLaneListGet` | src/port/sai_port_utils.c:587-632 | the lanes are the physical ids of the following records, or consecutive 32-bit numbers without breakout support; failure exactly when the table ends first |
| `PortBreakout.PortAttrHwLaneListGet` | src/port/sai_port_utils.c:635-698 | the buffer gets the whole list or stays as it was; overflow reports the size needed; every other failure, including a walk that leaves the table, has its own status and leaves the count alone |
| `PortBreakout.UpdateValidityOnCreate` | src/port/sai_port_utils.c:811-858 | the resulting validity of every record, also when the table ends inside the group |
| `SaiMap.Store.Insert` | src/sai_map_utl.cpp:105-137 | the values are appended under the key, in order; nothing else changes |
| `SaiMap.Store.DeleteElements` | src/sai_map_utl.cpp:160-195 | the list becomes the fold of "remove first match"; other keys are untouched and an emptied key stays |
| `SaiMap.Store.Get` | src/sai_map_utl.cpp:197-239 | the whole list or nothing is copied; overflow reports the size; the rest of the buffer is unchanged |
| `SaiMap.Store.GetElementAtIndex` | src/sai_map_utl.cpp:241-276 | the element at the index, with the two error cases told apart |
| `SaiMap.RemoveEachBag` | src/sai_map_utl.cpp:62-83 | for any filter, deletion is multiset difference on what the filter compares |
| `SaiMap.DeleteIsDifference` | src/sai_map_utl.cpp:160-195 | with both value filters, deletion is multiset difference of the elements |
| `SaiMap.DeleteByOneValue` | src/sai_map_utl.cpp:62-83 | with one value filter, deletion is multiset difference of that value, whatever the other |
| `SaiMap.DeleteUnfiltered` | src/sai_map_utl.cpp:62-83 | without a value filter as many elements go as values are given, from the front |
| `SaiMap.SurvivorsKeepOrder` | src/sai_map_utl.cpp:172-185 | the survivors are read off the old list at increasing positions |
| `SaiMap.InsertDeleteBag` | src/sai_map_utl.cpp:105-195 | inserting values and deleting them again restores the multiset |
| `SaiMap.InsertDeleteRestores` | src/sai_map_utl.cpp:105-195 | it restores the very sequence if and only if all entries from the first match on equal the element |
| `SaiMap.DeleteTakesTheOlder` | src/sai_map_utl.cpp:172-185 | a list in which an older match goes instead of the element inserted |
| `BridgeRuns.EveryRun` | src/bridge/sai_bridge_db.cpp:126-188 | in every state reached from empty tables: each bridge lists exactly its cached ports, each once; each cached port's reference count is the number of its members; no key holds an empty list; the duplicate check answers whether the key is present |
| `BridgeHistory.ReadsBackInEveryRun` | src/bridge/sai_bridge_db.cpp:126-214 | after any run, what is read under an id is the record last created under it, with the changes since by the moves, attributes and members that name it, or nothing if it was deleted |
| `BridgeHistory.ListsInEveryRun` | src/bridge/sai_bridge_utils.c:77-1347 | after any run, the list of every bridge, LAG, tunnel, bridge port and sub-port key is, in order, what its operations put in and did not take out again |
| `BridgeHistory.WriteReadsBack` | src/bridge/sai_bridge_db.cpp:126-162 | a cache write caches the very record, and every other id as before |
| `BridgeHistory.DeleteTakesOut` | src/bridge/sai_bridge_db.cpp:164-188 | a cache delete takes the id out, and caches every other id as before |
| `BridgeHistory.AttrReadsBack` | src/bridge/sai_bridge_utils.c:1043-1083 | the field an attribute names reads back and all others stay |
| `BridgeHistory.KeysApart` | src/bridge/sai_bridge_utils.c:77-1347 | no two of the lists share a key |
| `BridgeRuns.WriteKeepsAgreement` | src/bridge/sai_bridge_db.cpp:126-162 | a cache write keeps the index exact if and only if the id is new and is the id in the record |
| `BridgeRuns.DeleteKeepsAgreement` | src/bridge/sai_bridge_db.cpp:164-188 | a cache delete always keeps the index exact |
| `BridgeRuns.AttrKeepsAgreement` | src/bridge/sai_bridge_utils.c:1043-1083 | an attribute update alone keeps the index exact if and only if it does not change the bridge |
| `BridgeRuns.MoveKeepsAgreement` | src/bridge/sai_bridge_utils.c:77-126 | map remove, map insert and attribute update together move a port and keep the index exact |
| `BridgeRuns.DeleteUndoesCreate` | src/bridge/sai_bridge_db.cpp:126-188 | deleting a port undoes its creation, down to the order of the lists |
| `BridgeRuns.AddMemberKeepsCount` | src/bridge/sai_bridge_utils.c:943-956 | adding a member keeps the count exact if and only if the 32-bit counter does not wrap |
| `BridgeRuns.RemoveMemberKeepsCount` | src/bridge/sai_bridge_utils.c:433-466 | removing one keeps the count exact if and only if the member is listed, and then the count does not underflow |
| `BridgeRuns.WriteKeepsCount` | src/bridge/sai_bridge_db.cpp:126-162 | a cache write keeps the counts exact if and only if the record brings the number of members |
| `BridgeRuns.OverwriteListsTwice` | src/bridge/sai_bridge_db.cpp:137-150 | a port written twice, after which the index is wrong |
| `BridgeRuns.AttributeAloneMisplaces` | src/bridge/sai_bridge_utils.c:1074-1076 | a bridge changed by the attribute alone, after which the index is wrong |
| `BridgeRuns.AbsentMemberUnderflows` | src/bridge/sai_bridge_utils.c:433-466 | removing a member that was never added wraps the count of a fresh port around |
| `BridgeRuns.DuplicateCheckExact` | src/bridge/sai_bridge_utils.c:193-282 | after any run of plain inserts and removals, the check answers whether the key is present if and only if at most one bridge port was inserted for it since its last removal, and that one is not null |
| `BridgeRuns.RunListsPending` | src/bridge/sai_bridge_utils.c:193-282 | after such a run a key lists, in order, what was inserted since its last removal, and is present if and only if that is something |
| `BridgeRuns.TwoEntriesCountAsFree` | src/bridge/sai_bridge_utils.c:217-266 | a state with two entries under a key, where the check answers no |
| `BridgeRuns.InsertKeepsUnique` | src/bridge/sai_bridge_utils.c:193-215 | a plain insert keeps one port per key if and only if the key is new and the port is not null |
| `BridgeRuns.AddSubPortKeepsUnique` | src/bridge/sai_bridge_utils.c:193-266 | an insert guarded by the check keeps one port per key if and only if the key was taken or the port is not null |
| `BridgeRuns.TunnelConnectivity` | src/bridge/sai_bridge_utils.c:1212-1262 | under agreement, the answer is whether the tunnel's list and the bridge's list share a bridge port |
| `BridgeDb.Database.IsBridgeConnectedToTunnel` | src/bridge/sai_bridge_utils.c:1212-1262 | true if and only if some port in the tunnel's list is cached with the bridge |
| `BridgeDb.Database.PortCacheWrite` | src/bridge/sai_bridge_db.cpp:126-162 | index insert under the record's own ids, then the table entry |
| `BridgeDb.Database.PortCacheDelete` | src/bridge/sai_bridge_db.cpp:164-188 | index remove under the cached bridge, then the table entry; an unknown id changes nothing |
| `BridgeDb.Database.BridgeMapRemove` | src/bridge/sai_bridge_utils.c:98-126 | the first entry for the port goes, and a list left empty goes with its key |
| `BridgeDb.Database.MemberMapInsert` | src/bridge/sai_bridge_utils.c:406-431 | list insert and increment; an uncached port gets the entry but no count |
| `BridgeDb.Database.MemberMapRemove` | src/bridge/sai_bridge_utils.c:433-466 | list remove and unsigned decrement, whether or not the member was listed |
| `BridgeDb.Database.UpdateAttrInCache` | src/bridge/sai_bridge_utils.c:1043-1083 | one field of one record changes, or none and an error |
| `BridgeDb.Database.IsSubPortDuplicate` | src/bridge/sai_bridge_utils.c:217-266 | true if and only if the key lists exactly one port and it is not null |
| `BridgeDb.Database.BridgeMapPortListGet` | src/bridge/sai_bridge_utils.c:128-170 | the ids of the list in order, or an overflow that changes nothing; a missing key is an empty list |
| `IdGen.NeverReusesLiveId` | src/sai_gen_utils.c:309-332 | in every run of allocations and frees of a fresh allocator, under any mask, no live id is handed out, and failure happens if and only if as many ids are live as the period |
| `IdGen.AllocateExact` | src/sai_gen_utils.c:311-331 | once wrapped, for any mask and any ids in use: failure if and only if the whole block of ids is in use, else the cyclically first free id |
| `IdGen.AllocateFullMask` | src/sai_gen_utils.c:311-331 | for a mask of n ones the block is all of 0..mask and the search starts after the last id |
| `IdGen.AllocateAfterFailure` | src/sai_gen_utils.c:317-329 | after a failure and any frees, the next allocation hands out the first free id counted from two successors after the old counter |
| `IdGen.FreedIdComesBack` | src/sai_gen_utils.c:317-329 | if a single id of the block was freed since the failure, the next allocation hands out that one |
| `IdGen.CycleForm` | src/sai_gen_utils.c:311-325 | masked increments leave the bits above the mask's trailing ones alone and count modulo two to the number of trailing ones |
| `IdGen.CycleLength` | src/sai_gen_utils.c:324-330 | within one period no id repeats and then the first one returns, so the search ends after at most that many probes |
| `Bits.AndBit` | src/sai_gen_utils.c:313 | the "and" of the model is bitwise: each bit of the result is set when it is set in both words |
| `IdGen.IdGen.GetNextFreeId` | src/sai_gen_utils.c:309-332 | the loop terminates for every mask, asks at most as many times as the period, exactly as many when it fails, and computes one allocation step |
| `IdGen.SafeExact` | src/sai_gen_utils.c:309-332 | from any record and any live ids, under any mask: no run of allocations and frees ever hands out a live id if and only if the counter has wrapped, or wraps at once, or has no live id between itself and the end of the first period, where it must be |
| `IdGen.ClearAheadOfCounter` | src/sai_gen_utils.c:311-319 | for a counter inside the first period the condition reads: wrapped, or no live id after the counter |
| `IdGen.ReuseWithoutCleanStart` | src/sai_gen_utils.c:311-319 | started with an id live ahead of the counter, the allocator does hand it out |
| `AttrValidate.ValidateExact` | src/sai_gen_utils.c:80-177 | what is accepted, for any list, with or without duplicates: every attribute has an entry that is implemented, supported and flagged valid for create, set or get as the operation is, the list fits the table, and it repeats as many mandatory attributes as it leaves out (create) or is not empty (others) |
| `AttrValidate.FaultReported` | src/sai_gen_utils.c:125-170 | otherwise the answer is the fault of the first attribute that is not usable, with its position, or the plain parameter error when that position has no code |
| `AttrValidate.OtherAnswers` | src/sai_gen_utils.c:94-114 | the answers for null, empty and overlong lists and for counters that differ |
| `AttrValidate.FaultMeans` | src/sai_gen_utils.c:128-166 | the fault found is unknown, not implemented, not supported or invalid exactly when the entry with the id is so, in terms of its flags |
| `AttrValidate.ValidateRight` | src/sai_gen_utils.c:80-177 | validation is right about a list if and only if, its attributes being usable: a complete list repeats no mandatory attribute and fits the table, an incomplete one does not fit it or does not repeat as many as it leaves out, and a list for another operation fits it or is empty |
| `AttrValidate.ValidateWithoutDuplicates` | src/sai_gen_utils.c:80-177 | without duplicates: success if and only if every attribute is usable and no mandatory one is missing (create) or the list is not empty (others); the length guard rejects no good list |
| `AttrValidate.CountersBalance` | src/sai_gen_utils.c:116-147 | for every list, given plus missing equals total plus repeated |
| `AttrValidate.CountersAgree` | src/sai_gen_utils.c:172-174 | comparing the counters answers whether the list is complete if and only if a complete list repeats no mandatory attribute, and an incomplete one not as many as it leaves out |
| `AttrValidate.LengthGuard` | src/sai_gen_utils.c:112-114 | distinct known attributes are no more than the table has entries |
| `AttrValidate.AttributeValidate` | src/sai_gen_utils.c:80-177 | the loops report the first fault with its position, then the counters |
| `AttrValidate.CheckAttribute` | src/sai_gen_utils.c:128-166 | the first table entry with the id decides, in the order implemented, supported, valid |
| `AttrValidate.CheckDuplicateAttr` | src/sai_gen_utils.c:289-307 | true if and only if two ids are equal; the index is the right one of the first such pair |
| `AttrValidate.FindAttrInAttrList` | src/sai_gen_utils.c:266-287 | the first position with the id, or not found |
| `AttrValidate.DuplicatesFoolTheCounters` | src/sai_gen_utils.c:172-174 | a list with a duplicate that passes although a mandatory attribute is missing |
| `AttrValidate.RepeatIsRejected` | src/sai_gen_utils.c:172-174 | a complete list that is rejected because it repeats a mandatory attribute |
| `PortPool.EveryRun` | src/qos/sai_qos_port_util.c:62-176 | the triple index is valid in every reachable state, and no removal there takes the half-removed way out |
| `PortPoolSimple.RunRefines` | src/qos/sai_qos_port_util.c:33-176 | the two trees and the lists refine one plain list of nodes: after any run they show exactly the nodes added and not removed since, port by port in order of addition, and every operation answers what it answers on the plain list |
| `PortPool.ValidMeans` | src/qos/sai_qos_port_util.c:33-60 | a valid index holds the same nodes in all three structures, with ids and pairs in bijection |
| `PortPool.AddKeepsValid` | src/qos/sai_qos_port_util.c:62-110 | success if and only if the port has a QoS node and both keys are new; a failed add changes nothing |
| `PortPool.RemoveKeepsValid` | src/qos/sai_qos_port_util.c:135-176 | a removal fails only for an unknown id; the exit at lines 163-166 is never taken |
| `PortPool.RemoveTakesOut` | src/qos/sai_qos_port_util.c:135-176 | a removal takes out the id, the pair and the list entry of exactly its node |
| `PortPool.AddPutsIn` | src/qos/sai_qos_port_util.c:62-110 | an addition puts exactly its node in, last in its port's list |
| `PortPool.RemoveUndoesAdd` | src/qos/sai_qos_port_util.c:62-176 | removing a node undoes its addition, down to the order of the port's list |
| `PortPool.PortPoolTables.AddPortPoolNode` | src/qos/sai_qos_port_util.c:62-110 | the insertions with the rollback of the first one put a new node in all three structures or in none |
| `PortPool.PortPoolTables.RemovePortPoolNode` | src/qos/sai_qos_port_util.c:135-176 | the removal with all its exits, from any state |
| `WredQueues.WalksAgree` | src/qos/sai_qos_port_util.c:178-219 | with consistent links, the pool walk restricted to a front-end port selects the queues of the port walk, and for other ports none; neither repeats a queue |
| `WredQueues.PoolSelectionExact` | src/qos/sai_qos_buffer_util.c:487-522 | the pool walk selects exactly the unicast queues of front-end ports whose profile draws on the pool, each once |
| `WredQueues.PortSelectionExact` | src/qos/sai_qos_port_util.c:191-211 | the port walk selects exactly the port's unicast queues whose profile draws on the pool, each once |
| `WredQueues.PoolSelectionOrder` | src/qos/sai_qos_buffer_util.c:501-516 | the pool walk lists its queues profile by profile and each profile's queues in the order of its list |
| `WredQueues.PortSelectionOrder` | src/qos/sai_qos_port_util.c:194-211 | the port walk lists its queues in the order of the port's list |
| `WredQueues.PortPoolGetWredQueueIds` | src/qos/sai_qos_port_util.c:178-219 | exactly the first min(n, total) selected queues and that count, for a buffer of n > 0, or of 0 when nothing is selected |
| `WredQueues.BufferPoolGetWredQueueIds` | src/qos/sai_qos_buffer_util.c:487-522 | the nested walk writes exactly the first min(n, total) of flatten-then-filter and that count |
| `WredQueues.BufferPoolGetFirstQueueId` | src/qos/sai_qos_buffer_util.c:424-453 | on an egress pool, the head of the unfiltered flattening; success if and only if that is not empty |
| `ObjectId.PortIdCollision` | inc/opx/sai_port_common.h:444-455 | two port ids are equal if and only if numbers agree and types and fabrics agree on 4 and 8 bits |
| `ObjectId.PortIdInjective` | inc/opx/sai_port_common.h:444-455 | in-range triples have different ids |
| `ObjectId.PortIdReadsBack` | inc/opx/sai_port_common.h:465-481 | number and port type read back exactly |
| `ObjectId.FabricReadsBackIffType` | inc/opx/sai_port_common.h:489-493 | the fabric getter is right if and only if the fabric id equals the low four bits of the port type |
| `ObjectId.FabricMisread` | inc/opx/sai_port_common.h:489-493 | fabric 0 of a port of type 1 is read as 1 |
| `ObjectId.UoidReadsBack` | inc/opx/sai_oid_utils.h:72-92 | a 48-bit id reads back |
| `ObjectId.ObjTypeReadsBack` | inc/opx/sai_oid_utils.h:113-121 | a valid object type reads back, any other as the null type |
| `ObjectId.UoidRebuilds` | inc/opx/sai_oid_utils.h:72-92 | an id is rebuilt from its fields if and only if its reserved bits are clear |
| `ObjectId.UoidLayout` | inc/opx/sai_oid_utils.h:72-82 | an object id is the type times two to the 48 plus the id |
| `ObjectId.PortIdLayout` | inc/opx/sai_port_common.h:428-455 | a port id is object type, port type, fabric and number at bits 48, 40, 32 and 0 |
| `ObjectId.PortIdIsPort` | inc/opx/sai_port_common.h:444-455 | a port id carries the object type of ports |
| `ObjectId.ValidTypes` | inc/opx/sai_oid_utils.h:100-104 | the valid types are those from the port type up to the end mark |
| `ObjectId.PortRoundTrip` | src/port/sai_port_utils.c:154-180 | a cached port survives translation to its local number and back if and only if that number is not the CPU port's |
| `ObjectId.LocalRoundTrip` | src/port/sai_port_utils.c:182-201 | a local number survives translation to a port id and back if and only if it is the CPU port's or a cached port's |
| `ObjectId.SaiToLocalExact` | src/port/sai_port_utils.c:154-180 | exactly the CPU port's id and those of cached ports are translated, to the numbers they carry |
| `ObjectId.LocalToSaiFields` | src/port/sai_port_utils.c:182-201 | a local number becomes a port id of the switch with that number, of the CPU type for the CPU port and of the logical type for any other |
| `IpPrefix.IsIpAddrInPrefix` | src/routing/sai_l3_util.c:657-686 | the byte loop equals comparison of the two 128-bit numbers under the mask |
| `IpPrefix.ContiguousMatch` | src/routing/sai_l3_util.c:657-686 | for a mask of n leading ones: agreement on the first n bits |
| `IpPrefix.PrefixByBytes` | src/routing/sai_l3_util.c:664-681 | for an IPv6 mask of length n written in bytes: the first n/8 bytes agree, and the first n%8 bits of the next |
| `IpPrefix.MaskIsContiguous` | src/routing/sai_l3_util.c:664-681 | such a mask is, as a 128-bit number, n ones followed by zeros |
| `IpPrefix.OtherFamilyMatchesNone` | src/routing/sai_l3_util.c:682-686 | a prefix of neither family has no members |
| `IpPrefix.NestedOrDisjoint` | src/routing/sai_l3_util.c:657-686 | two prefixes of one family are nested or disjoint |

## Left out

- Mutexes, exceptions, allocation failures, logging and dump code; of the failures of the trees only a key that is already present or absent.
- `sai_map_get_elements`, which copies matched values back into the caller's list; the listing of all bridges and all bridge ports, whose order is that of a hash table; the reference count of bridges.
- BridgeDb.Database.MemberMapInsert: the three pairs of wrappers for VLAN members, STP ports and L2MC members differ only in the key type and are one method each with the kind as a parameter.
- BridgeRuns.EveryRun: the creation and moving of bridge ports happens in callers outside this library; a run assumes that they create new ids with count zero, detach members that are listed, delete ports at count zero, and move a port by the three calls in the order given.
- PortBreakout.BreakoutModeUpdate: requires that the group lies inside the table, because the library dereferences the next record unchecked.
- PortBreakout.HwLaneListGet: the look-up of the port's own record by its id, which starts the walk, is taken to find that record.
- PortPool.PortPoolTables.AddPortPoolNode: the WRED fields of a node are not modelled, and the node is allocated before the port is looked up.
- PortPool.EveryRun: QoS port nodes are created and removed elsewhere; a run lets a port node go only when its list is empty.
- WredQueues.PortPoolGetWredQueueIds: a buffer of size zero is allowed only when nothing is selected, because otherwise the library writes the first selected queue before it looks at the size.
- IpPrefix.IsIpAddrInPrefix: the two members of the address union are separate fields; a 32-bit address is the number its four bytes write in network order.
- AttrValidate.AttributeValidate: the numeric status arithmetic is reduced to a position and a bound on it.
- Port speeds beyond the fields that an update copies, forwarding modes, application nodes, admin states, attribute switch tables and string conversions: facts about single cases.
- ACL, FDB, LAG, VLAN, L2MC, multicast, tunnel and routing tables other than the prefix test.
