# Verified model of opx-nas-common

Dafny models of the parts of the NAS common library that keep state in more than one
place, with proofs that the places agree.

**Commit to several NPUs** (`NdiHardware`, `CommitModel`, `CommitTheory`, `CommitTheorems`,
`CommitTrace`, `MissingHandles`, `BaseObj`). A base object is created, modified or deleted
on a set of NPUs, one push at a time. A push takes effect, is skipped, or throws without effect; which of
these is up to an arbitrary script. `CommitModel` says what a commit computes as a plan of
steps run forward and, after a throw, backward over the tracked steps. `BaseObj` holds the
classes and the loops and proves them equal to `CommitModel`. The theory rests on one
invariant, `InEffect`: the hardware is everyone else's objects plus the old object, changed
by exactly a given set of steps. It pins every slot (an NPU and a handle) and every
attribute value, so it gives all-or-nothing, best-effort rollback and skipped pushes alike.

A push that needs the object's handle on an NPU looks it up with `at`, and a missing one
throws `std::out_of_range`, which no `catch (base_exception&)` stops. The model has this
third way for a run to end: no rollback follows, and the caller sees `OutOfRange`. Objects
with and without all their handles are committed alike; `MissingHandles` says where handles
go missing and what that breaks.

**The object store** (`StoreModel`, `StoreRules`, `Drafts`, `Replies`, `UtSwitch`). The unit
test's derived object and switch: clients build or copy objects, edit them, commit them, and
keep what succeeded, and the switch is given NPUs meanwhile. `Drafts` says what edits make
of an object, that a commit which does not succeed leaves it to be committed again, and that
committing it again then works. `Replies` says what a request stores and leaves alone, and
that its status is what the hardware saw. Over every run of requests in which no push is
skipped and no undo is lost, whichever pushes fail, the hardware equals the store;
`ServeSyncIff` and `SyncedThroughoutIff` say exactly when it does otherwise.

**The interface database** (`IfModel`, `IfTheory`, `IfDatabase`, `IfUtils`). Records found
through keys that depend on the interface type and on whether a port is mapped. `IfModel`
is the database as a plain set of records searched by scanning; `IfDatabase` keeps
pointers and an index, and its methods are proved to do what the plain database does. The
index combines `if_mappings` and `if_name_map`: an entry's key carries the query it belongs
to. The C union is a variant for each interface type. Pointers to records are explicit
addresses, so an update through one entry is seen through all.

**The ID generator** (`IdGenerator`), **the object ID table in a CPS object** (`AttrTree`,
`ObjIdTable`) and **the switch profile** (`SwitchProfile`): allocation from a bitmap with a
rotating cursor, a serializer and its inverse, and the boot merge and get-next walks.

`Ordering` gives the order in which a `std::set` of integers is walked; `Integers` and
`Options` are shared vocabulary.

Integer types defined outside the repository are taken as: NPU ids, interface indexes and
tap ids signed 32-bit, VRF and port ids unsigned 32-bit, VLAN ids unsigned 16-bit. A tap
id is widened with its sign, so tap -1 gives the reserved invalid key.

What turned out not to hold without a condition:

- The erase of the walkable interface index on deregister looks at the caller's VRF id, not
  the record's (`src/hal_if_mapping.cpp:301`). `DeregisterKeepsExactIff` gives the exact
  condition and `WrongVrfHidesAnInterface` a run that breaks it.
- A LAG outside the default VRF cannot be found from its interface index, and one whose id
  is the reserved key not even from its id (`LagRoundTripIff`, with a run for each in
  `LagRoundTripFails`).
- An empty object ID table leaves nothing to read back (`RoundTrip`).
- A get-next walk by name never ends exactly when two slots share a name
  (`WalkNeverEndsIff`; `WalkGoesAround` is a walk over three groups), and the walk over the
  key-values of the NPU profile exactly when a key is empty (`PairWalkNeverEndsIff`).
- A create with `rolling_back` set reports success whatever its pushes do. It leaves a handle
  on every NPU exactly when all of its pushes are done (`RollingBackCreateReachesAllIff`).
- A commit that meets a missing handle ends there, and nothing is taken back
  (`EscapedCommitTrace`). So a delete or modify of such an object is not all or nothing:
  `HalfDeleted` is a create and a delete, and `HalfModified` a modify, after which the
  object is gone from one of its NPUs and as it was on another. `DeleteIsAllOrNothingIff`,
  `DeleteIsWholeIff` and `ModifyIsAllOrNothingIff` give the exact conditions on the object
  beforehand, and `NeverDeleted` says that no run of commits mends it or deletes it. In runs of requests without
  `rolling_back` and without skips no handle goes missing, whatever fails (`RunKeepsSettled`).
- Adding an NPU to the switch does not reach the objects that follow the switch.
  `FollowThroughoutIff` says exactly for which runs they have all its NPUs all along, and
  `FollowerIsLeftBehind` is a run for which one does not. `ModifyCatchesUpIff` says exactly
  which modifies bring such an object onto all of the switch.

## Model

| member | source | states |
|---|---|---|
| BaseObjects.NpuSet.Compare | src/nas_base_utils.cpp:76-94 | splits two NPU sets into the NPUs only here, only there and in both, adding each to its output set |
| BaseObjects.BaseObj.AddNpu | src/nas_base_obj.cpp:32-53 | refuses an NPU outside the switch; an addition with reset replaces the set if none was added since the last commit (Drafts.AdditionsGive for whole runs of them) |
| BaseObjects.BaseObj.CommitCreate | src/nas_base_obj.cpp:55-73 | the loops over NPUs with tracking and rollback do what the create plan does; the flags are cleared on success only (Drafts.FailureKeepsDraft) |
| BaseObjects.BaseObj.CommitModify | src/nas_base_obj.cpp:75-97 | likewise for the modify plan, on any two objects, with all their handles or not; on success the dirty attributes are returned, otherwise the draft keeps them (Drafts.FailureKeepsDraft) |
| BaseObjects.BaseObj.CommitDelete | src/nas_base_obj.cpp:99-109 | likewise for the delete plan of any object (Drafts.TurnedDownIff for when it is turned down) |
| BaseObjects.BaseModifyObjNdi | src/nas_base_ndi_utl.cpp:91-119 | create, delete and attribute phases, and on a throw the rollback of whatever was tracked; a missing handle leaves at once |
| BaseObjects.RollbackModifyObjNdi | src/nas_base_ndi_utl.cpp:316-363 | the tracker is drained newest first and failing undo pushes are swallowed; a missing handle ends it |
| CommitTheory.PushKeeps | inc/opx/nas_base_obj.h:178-208 | one push puts its step in effect if it was done and changes nothing otherwise |
| CommitTheory.PushInverseKeeps | src/nas_base_ndi_utl.cpp:240-280 | one undo push takes its step out of effect if it was done and changes nothing otherwise |
| CommitTheory.ForwardKeeps | src/nas_base_ndi_utl.cpp:121-238 | after any forward run exactly the done steps are in effect; with rolling back nothing is thrown |
| CommitTheory.BackwardKeeps | src/nas_base_ndi_utl.cpp:282-363 | after any rollback exactly the steps whose undo was lost stay in effect, and every handle it needs is there |
| CommitTheory.ModifyPlanHolds | src/nas_base_ndi_utl.cpp:99-111 | the modify plan lists every create, delete and dirty attribute push it needs exactly once |
| CommitTheory.ModifyPlanInOrder | src/nas_base_ndi_utl.cpp:99-111 | creates come before deletes and deletes before attributes, attributes in order and each over its NPUs in order |
| CommitTheory.CreateAndDeleteAreModifies | src/nas_base_ndi_utl.cpp:57-89 | a create is a modify from no NPUs and a delete a modify to no NPUs |
| CommitTheory.OldInPlaceIff | src/nas_base_ndi_utl.cpp:114-118 | the old object is in place exactly when no step in effect matters |
| CommitTheory.NewInPlaceIff | src/nas_base_ndi_utl.cpp:99-111 | the new object is on all its NPUs exactly when every planned step that matters is in effect and no NPU that keeps it lacks a handle |
| CommitTheorems.ModifyCommit | src/nas_base_ndi_utl.cpp:91-119 | the outcome of a modify for every script, from an object with or without all its handles, and exactly when the new or the old object is in place; changed handles are fresh |
| CommitTheorems.ModifyIsAllOrNothing | src/nas_base_ndi_utl.cpp:91-119 | with no skip and no lost undo, a modify leaves the new object everywhere or the old one everywhere, and nothing else changed |
| CommitTheorems.RollbackIsConfined | src/nas_base_ndi_utl.cpp:240-363 | after a modify that did not succeed the hardware differs only on the object's own slots, on NPUs and attributes whose own undo was lost or was never attempted |
| CommitTheorems.CreateCommit | src/nas_base_ndi_utl.cpp:57-75 | a create installs the object exactly when no NPU is missed, and a failed one leaves no trace exactly when no undo is lost |
| CommitTheorems.DeleteCommit | src/nas_base_ndi_utl.cpp:77-89 | a delete removes the object exactly when no NPU that has it is missed, and one that does not succeed leaves it in place exactly when nothing it did stays in effect |
| CommitTheorems.CreateThenRollingBackDelete | src/nas_base_ndi_utl.cpp:158-193 | a full create followed by a full rolling-back delete restores the hardware |
| CommitTrace.FailedCommitTrace | src/nas_base_ndi_utl.cpp:121-363 | the calls of a failed commit: a prefix of the plan, then the inverses of its done calls newest first, a create being undone by the handle it returned |
| CommitTrace.EscapedCommitTrace | src/nas_base_ndi_utl.cpp:158-193 | a commit that comes to a missing handle has made the calls of the plan before that step and takes none of them back |
| CommitTrace.ForwardEscapesIff | src/nas_base_ndi_utl.cpp:121-238 | a commit's steps are broken off by a lookup exactly when one of them, not skipped, needs a handle that is not there and no step before it ended them |
| CommitTrace.RollbackEscapesIff | src/nas_base_ndi_utl.cpp:240-363 | a rollback is broken off exactly when one of its undo pushes, not skipped, looks up a handle that is not there |
| CommitTrace.RollingBackTrace | src/nas_base_ndi_utl.cpp:130-237 | with rolling back every step is attempted once, in order, up to a missing handle if there is one, and nothing is undone |
| CommitTrace.LogTells | src/nas_base_ndi_utl.cpp:121-363 | the calls added to the log tell whether a commit failed, whether a successful one missed a step, and whether a failed one lost an undo |
| MissingHandles.RollingBackCreateReachesAllIff | src/nas_base_ndi_utl.cpp:57-156 | a rolling-back create of a new object always succeeds, and leaves a handle on each of its NPUs exactly when all its pushes are done |
| MissingHandles.HalfDeleted | src/nas_base_ndi_utl.cpp:77-193 | on three NPUs with the second create push failing: the delete that follows makes one call, ends in an exception, and the object is gone from the first NPU and still on the third |
| MissingHandles.DeleteIsAllOrNothingIff | src/nas_base_ndi_utl.cpp:77-89 | without skips and lost undos, what a delete reports is so for every script if and only if no handle is missing or the least NPU's is |
| MissingHandles.DeleteIsWholeIff | src/nas_base_ndi_utl.cpp:158-193 | whatever it reports, the object is gone or where it was for every script if and only if that holds or every NPU that has it comes before every one that does not |
| MissingHandles.ModifyIsAllOrNothingIff | src/nas_base_ndi_utl.cpp:91-119 | the like for a modify: no handle is looked up in vain and none is missing where the object stays, or nothing that shows is done before the first missing one is looked up |
| MissingHandles.HalfModified | src/nas_base_ndi_utl.cpp:91-119 | that object modified to stay on its third NPU only: one call, an exception, the object gone from the first NPU and the third as it was |
| MissingHandles.NeverDeleted | src/nas_base_obj.cpp:55-109 | once an NPU of a created object has no handle, no run of creates, modifies and deletes without skips, with or without rolling back, gives it one, takes the object off that NPU or deletes it |
| StoreModel.ServeSyncIff | src/nas_base_ndi_utl.cpp:57-119 | from hardware equal to the store, one request leaves it so if and only if its commit, after a success, did every planned step that matters, and otherwise lost no undo that matters; no handle is missing |
| StoreModel.SyncedThroughoutIff | src/nas_base_obj.cpp:55-109 | over every run the hardware equals the store all along if and only if every request is of that kind |
| StoreModel.ServeKeepsSync | src/unit_test/nas_base_ut_simple_derived_obj.cpp:36-52 | in particular one request in which nothing is skipped and no undo is lost, whichever push fails |
| StoreModel.RunKeepsSync | src/nas_base_obj.cpp:55-109 | and every run of such requests |
| StoreModel.RunFromEmpty | src/unit_test/nas_base_obj_ut_simple.cpp:123-248 | after a run of such requests from an empty store, the switch growing meanwhile: an object has a handle on each of its NPUs and is there with its values, and every slot in use has an owner |
| StoreRules.CommitRecords | src/nas_base_obj.cpp:55-109 | a successful commit changes nothing of an object but handles and bookkeeping: values kept, attributes given recorded, NPUs its own or all of the switch's; a failed one changes only handles of the old object |
| StoreRules.RunKeepsLaw | src/unit_test/nas_base_ut_simple_derived_obj.cpp:100-142 | over every run, even with failed rollbacks, skips and a growing switch, stored objects have the mandatory attribute, set values in range, and NPUs of the switch, or none and follow it |
| StoreRules.RunKeepsSettled | src/nas_base_obj.cpp:55-109 | over every run without skips, lost undos included, stored objects have a handle on each NPU and nothing pending, and no request ends in the exception of a lookup |
| StoreRules.GrowthLeavesFollowersIff | inc/opx/nas_base_obj.h:63-65 | after an NPU is added to the switch its followers still have all its NPUs exactly when it was there before or nothing follows |
| StoreRules.FollowThroughoutIff | src/nas_base_obj.cpp:64-68 | over every run followers have all NPUs of the switch all along exactly when every growth is of that kind |
| StoreRules.FollowerIsLeftBehind | src/nas_base_obj.cpp:84-88 | a create, a growth and a modify after which an object follows the switch and is not on all of it |
| StoreRules.ModifyCatchesUpIff | src/nas_base_obj.cpp:84-88 | a modify brings an object left behind onto all of the switch, following it, if and only if it succeeds and leaves the object no NPU of its own: by a reset with no NPU added after it, or none to begin with and none added |
| Drafts.SettersStore | src/unit_test/nas_base_ut_simple_derived_obj.cpp:100-120 | a setter takes the values 0 to 20, or 0 to 10, and no other, stores the one it is given and marks its attribute dirty, and changes nothing else |
| Drafts.EditsGoThroughIff | src/unit_test/nas_base_ut_simple_derived_obj.cpp:100-120 | a run of edits goes through exactly when each is acceptable; otherwise the ones before the first that is not have been made, and none after |
| Drafts.EditsSetValues | src/unit_test/nas_base_ut_simple_derived_obj.cpp:100-120 | after a run of edits an attribute has the last value it was set to and is dirty, or is as it was |
| Drafts.EditsGiveNpus | src/nas_base_obj.cpp:32-53 | after any run of edits an object has exactly the NPUs added and not dropped after that, by a reset or by the first addition since the last commit with reset, and its own if none of the edits drops them |
| Drafts.AdditionsGive | src/nas_base_obj.cpp:32-53 | additions of any NPUs of the switch give exactly those, with the ones the object had unless the first addition since the last commit resets; later resets change nothing |
| Drafts.TurnedDownIff | src/nas_base_obj.cpp:55-104 | a create is turned down exactly when the object is in NDI, a modify or delete exactly when it is not, and then nothing changes |
| Drafts.UtTurnedDownIff | src/unit_test/nas_base_ut_simple_derived_obj.cpp:122-142 | the derived object besides wants attribute 1 given on a create, and attribute 2 at most attribute 1 on a modify |
| Drafts.FailureKeepsDraft | src/nas_base_obj.cpp:55-109 | a create or modify that does not succeed, for every script and rolling back or not, leaves the draft's values, what is dirty, and whether it is new, as they were; a delete changes nothing but handles and, on success, the flags |
| Drafts.FailedModifyCanBeRetried | src/nas_base_obj.cpp:75-97 | after a failed modify with no lost undo, committing the same draft again once pushes are done succeeds and puts the draft's values on the draft's NPUs |
| Drafts.FailedCreateCanBeRetried | src/nas_base_obj.cpp:55-73 | the like for a create |
| Replies.ReplyIsByLog | src/nas_base_ndi_utl.cpp:57-119 | for every request: none of its calls failed if it succeeded, one did if it reports a failure, none was made if it was turned down; and it is clean, as the results over runs have it, exactly when all its calls are done, or all after its one failure |
| Replies.CreateStores | src/unit_test/nas_base_obj_ut_simple.cpp:139-166 | a create that succeeds stores under the next id an object in NDI with nothing pending, the last value given to each attribute or what memory held, and the NPUs given or all of the switch's |
| Replies.ModifyStores | src/unit_test/nas_base_obj_ut_simple.cpp:195-247 | a modify that succeeds does so to the stored object; one that does not, and such a delete, changes only its handles |
| Replies.ServeConfined | src/unit_test/nas_base_ut_simple_derived_obj.cpp:25-52 | a request changes no stored object but its own, creates under the next id and drops what it deleted, and only a growth changes the switch |
| BaseObjects.BaseObj.ResetNpus | inc/opx/nas_base_obj.h:143 | empties the NPU set and touches nothing else |
| UtSwitches.UtSwitch.AddNpu | inc/opx/nas_base_obj.h:65 | the switch gets the NPU and its objects are not told |
| UtSwitches.UtSwitch.Modify | src/unit_test/nas_base_obj_ut_simple.cpp:195-219 | a client's copy, edits, commit and store update do what the request model says |
| UtSwitches.UtSwitch.Create | src/unit_test/nas_base_obj_ut_simple.cpp:139-166 | likewise for a create |
| UtSwitches.UtSwitch.Delete | src/unit_test/nas_base_obj_ut_simple.cpp:233-247 | likewise for a delete |
| IfModel.PackIsInjective | src/hal_if_mapping.cpp:164-166 | two pairs of 32-bit values pack to the same 64-bit key only if they are equal |
| IfModel.IfKeyIsVrfAndIndex | src/hal_if_mapping.cpp:164-214 | equal interface keys mean the same VRF and index; only VRF 0xFFFFFFFF with index -1 has none |
| IfModel.PortKeyIsNpuAndPort | src/hal_if_mapping.cpp:201-208 | equal port keys mean two mapped ports with the same NPU and port |
| IfModel.VlanKeyIsVlanId | src/hal_if_mapping.cpp:211-212 | equal VLAN keys mean two VLANs with the same id |
| IfModel.TapKeyIsTap | src/hal_if_mapping.cpp:201-214 | equal tap keys mean two mapped ports with the same tap other than -1 |
| IfModel.LagAndBridgeKeysAreIds | src/hal_if_mapping.cpp:201-225 | equal LAG or bridge keys mean two LAGs or bridges with the same id, which is not the reserved one |
| IfModel.NameKeyIsName | src/hal_if_mapping.cpp:216-245 | equal name keys mean the same name, which is not empty |
| IfTheory.FirstMatchIsFirst | src/hal_if_mapping.cpp:273-280 | the record found is the one the first successful query of the fixed order finds |
| IfTheory.MatchOrder | src/hal_if_mapping.cpp:273-280 | that order: port, index, tap, name, VLAN, LAG, bridge |
| IfTheory.RegisterIsExact | src/hal_if_mapping.cpp:386-421 | register succeeds exactly when the candidate has a key and none is taken; then only lookups of its keys change, otherwise nothing does |
| IfTheory.RegisterSucceedsIff | src/hal_if_mapping.cpp:386-421 | in the fields themselves: register succeeds exactly when the candidate names an interface in some way and no record shares its VRF and index, name, NPU and port, tap, VLAN, LAG or bridge |
| IfTheory.DeregisterIsExact | src/hal_if_mapping.cpp:267-304 | deregister removes the first match only: its keys find nothing, every other lookup is as before |
| IfTheory.UpdateIsExact | src/hal_if_mapping.cpp:458-553 | MAC, router and description updates keep all keys; every lookup of the record sees the changed record, and every other lookup is as before |
| IfTheory.UpdateWritesOneField | src/hal_if_mapping.cpp:458-553 | that record is the former one with the MAC, the router information or the description replaced by the given one, and no other field |
| IfTheory.GetInfoFinds | src/hal_if_mapping.cpp:423-438 | a lookup by port finds the mapped port with the caller's NPU and port, marked mapped by the caller or not; any other finds the record with the caller's key |
| IfTheory.RunKeepsUnique | src/hal_if_mapping.cpp:386-553 | in every reachable database no two records share a key and every record has one |
| IfTheory.DeregisterKeepsExactIff | src/hal_if_mapping.cpp:301-302 | the walkable indexes stay those of the default VRF if and only if the caller's VRF agrees with the record's where it matters |
| IfTheory.WrongVrfHidesAnInterface | src/hal_if_mapping.cpp:301-302 | a run of three operations after which a live default-VRF interface is not walked |
| IfTheory.RunKeepsExact | src/hal_if_mapping.cpp:259-260 | over every run whose deregisters agree, the walkable indexes are exactly the default VRF's |
| IfTheory.WalkVisitsAll | src/hal_if_mapping.cpp:440-455 | on a set that does not change, get-next from the start visits every index once in increasing order and stops |
| IfTheory.WalkOverChanges | src/hal_if_mapping.cpp:440-455 | while interfaces come and go between the calls, the indexes returned go up and are there when returned, and a walk that ends has visited every index beyond its start that all its calls could see |
| IfTheory.NextIndexIsLeastAbove | src/hal_if_mapping.cpp:448-454 | from any index, present or not, get-next gives the least larger one or fails when there is none |
| IfDatabases.IfDatabase.LocateIsScan | src/hal_if_mapping.cpp:232-245 | a lookup through the index finds what scanning all records finds |
| IfDatabases.IfDatabase.IfRegister | src/hal_if_mapping.cpp:386-421 | the indexed register and deregister do what the plain database does and keep every index coherent (IfTheory.RegisterSucceedsIff for when it succeeds) |
| IfDatabases.IfDatabase.Cleanup | src/hal_if_mapping.cpp:267-304 | the indexed removal takes out the record, all its keys and nothing else |
| IfDatabases.IfDatabase.GetInterfaceInfo | src/hal_if_mapping.cpp:423-438 | returns the record found, a lookup by port taking the caller's port as mapped |
| IfDatabases.IfDatabase.UpdateInterface | src/hal_if_mapping.cpp:458-469 | an update in place is seen through every key and keeps the index coherent (IfTheory.UpdateWritesOneField for what it writes) |
| IfDatabases.IfDatabase.UpdateIntfDesc | src/hal_if_mapping.cpp:507-553 | too long a description is refused; one not starting with a letter or digit clears it |
| IfDatabases.DescriptionIsKeptIff | src/hal_if_mapping.cpp:507-553 | after the update the description is the given one if it starts with one of the 62 letters and digits, and otherwise there is none |
| IfUtils.NameAndIndexAreInverse | src/nas_if_utils.cpp:229-268 | name to index and index to name undo each other |
| IfUtils.LagRoundTripIff | src/nas_if_utils.cpp:90-139 | a LAG id leads to its interface index if and only if it is not the reserved key, and back if and only if besides the LAG is in the default VRF |
| IfUtils.LagRoundTripFails | src/nas_if_utils.cpp:90-139 | two runs that register one LAG each: from one there is no way back, to the other no way there |
| IfUtils.GetLagIfIndex | src/nas_if_utils.cpp:115-139 | gives the index of the LAG; the type check after the lookup never fails |
| IfUtils.LagIdOfIndexIs | src/nas_if_utils.cpp:90-113 | an index gives the LAG's id, or that the interface is of another kind, or that the default VRF has none with it |
| IdGenerators.AllocIsCyclicallyFirst | src/nas_base_utils.cpp:115-136 | alloc fails exactly when no ID is free, otherwise returns the first free ID going around from the cursor and takes that one only |
| IdGenerators.AllocationsRise | src/nas_base_utils.cpp:115-136 | over every run in which each allocation finds a free ID at or above the cursor, the IDs handed out only go up |
| IdGenerators.ReleasedBehindWaits | src/nas_base_utils.cpp:150-155 | an ID released behind the cursor is not handed out again in any such run |
| IdGenerators.FindsAheadIff | src/nas_base_utils.cpp:115-136 | a run is of that kind if and only if every allocation in it succeeds and returns an ID at or above the cursor |
| IdGenerators.RunStaysBalanced | src/nas_base_utils.cpp:115-155 | over every run of alloc, reserve and release an ID is free exactly when nobody holds it, and none is handed out while it is held |
| IdGenerators.HeldExactly | src/nas_base_utils.cpp:115-155 | wherever the cursor is, a reserve succeeds exactly when nobody holds the ID and then takes that one, a release gives back that one, neither moves the cursor, and an alloc succeeds exactly when an ID other than 0 is not held and takes one such |
| IdGenerators.DrainGoesAround | src/nas_base_utils.cpp:115-136 | allocations alone hand out every free ID once, from the cursor up and then from 1 |
| IdGenerators.IdGenerator.Alloc | src/nas_base_utils.cpp:115-136 | the bitmap search does so whatever padding bits follow the last ID |
| AttrTree.AddBelow | src/nas_ndi_obj_id_table.cpp:128-144 | an add below a path is an add to what is inside the path's container |
| AttrTree.AddFailsIff | src/nas_ndi_obj_id_table.cpp:128-144 | an add fails exactly when its path is empty or a leaf is in the way |
| ObjIdTables.Serialize | src/nas_ndi_obj_id_table.cpp:111-151 | the loop adds the rows in order, stopping at the first failed add |
| ObjIdTables.Unserialize | src/nas_ndi_obj_id_table.cpp:153-198 | reads the rows back; a missing path fails and leaves the table as it was |
| ObjIdTables.WrittenForm | src/nas_ndi_obj_id_table.cpp:106-151 | a table is written as containers numbered from 1 in iteration order, each with the NPU as 32-bit leaf 1 and the object ID as 64-bit leaf 2 |
| ObjIdTables.FailsAtFirstObstacle | src/nas_ndi_obj_id_table.cpp:111-151 | a serialize that fails has added the rows before the first one with a leaf in its way, whole, and nothing of that one |
| ObjIdTables.LastLeafCounts | src/nas_ndi_obj_id_table.cpp:170-195 | in an entry the last leaf of each kind counts, in whatever order the kinds come |
| ObjIdTables.LastEntryCounts | src/nas_ndi_obj_id_table.cpp:153-198 | of several entries with one NPU the last counts |
| ObjIdTables.RoundTrip | src/nas_ndi_obj_id_table.cpp:111-198 | at a fresh path the same table comes back for every table that is not empty, in any iteration order |
| SwitchProfiles.AclProfile.ParseDbAndUpdate | src/nas_switch_profile.cpp:1599-1648 | the pass over the database leaves each group with its last writer's count |
| SwitchProfiles.AclProfile.UpdateCache | src/nas_switch_profile.cpp:1253-1294 | the first group with the name gets the count modulo 256, or nothing changes |
| SwitchProfiles.MergeOneMore | src/nas_switch_profile.cpp:1632-1645 | an incomplete or unknown entry changes nothing, a complete one only the first group it names |
| SwitchProfiles.EntrySays | src/nas_switch_profile.cpp:1608-1630 | an entry is complete exactly when it has a group name and a count, and then the last of each counts |
| SwitchProfiles.LastWriterWins | src/nas_switch_profile.cpp:1599-1648 | with distinct names both counts of every group are the last complete entry's, or the default |
| SwitchProfiles.SlotAfterIs | src/nas_switch_profile.cpp:1357-1395 | get-next after a name gives the slot after its first one, and fails when the name is unknown or only stands last |
| SwitchProfiles.WalkCompleteIff | src/nas_switch_profile.cpp:1357-1395 | the walk over the groups visits each once in order if and only if their names are distinct |
| SwitchProfiles.WalkNeverEndsIff | src/nas_switch_profile.cpp:1357-1395 | the walk never ends if and only if two groups have one name |
| SwitchProfiles.WalkGoesAround | src/nas_switch_profile.cpp:1357-1395 | over groups a, b, a the walk goes back and forth between the last two |
| SwitchProfiles.NpuProfile.UpdateInfo | src/nas_switch_profile.cpp:136-188 | the last usable node with a key wins, and the keys stay in order |
| SwitchProfiles.StoredIs | src/nas_switch_profile.cpp:136-188 | a key has the value of the last node that gives it one with key and value shorter than 256, or the value it had |
| SwitchProfiles.LessIsLexicographic | src/nas_switch_profile.cpp:136-188 | the order of the keys is that of the first character in which they differ, a prefix coming first |
| SwitchProfiles.PairWalkCompleteIff | src/nas_switch_profile.cpp:190-224 | the walk over the key-values visits each once in key order if and only if no key is empty |
| SwitchProfiles.PairWalkNeverEndsIff | src/nas_switch_profile.cpp:190-224 | it never ends if and only if a key is empty, and then stays at the first pair |

## Left out

- StoreModel.RunKeepsSync: is about runs in which no push of a successful commit is skipped and no undo of a failed one is lost; StoreModel.SyncedThroughoutIff is about all runs, and CommitTheorems says what the hardware holds otherwise.
- IfDatabases.IfDatabase.GetNextIfindex: requires a non-empty set of indexes for the first call, because the code reads past the end of an empty one.
- Non-leaf attributes: the hooks that push and undo them are overridden by objects outside this repository, so every attribute is a leaf and the tracker has no create-attribute and delete-attribute elements.
- Exceptions during a commit other than those of a failed push and of a handle lookup, and memory allocation failures, including the one while a description is stored.
- `attr_set_t::len` and `to_array`, which no commit uses; attribute sets are plain sets.
- What a process does with the exception of a handle lookup: the requests after it are those of a client that catches it.
- A delete does not clear `ndi_created`, as in the code; the owner drops the object.
- The bytes of the C union under a type they do not belong to: a lookup by port on a record of another type fails, as in the code, without the stray write to the caller's record.
- Truncation of C strings, ownership and aliasing of description pointers, locks, logging and printing.
- The CPS library: an attribute tree where adds with one path prefix share containers stands for it, and its events, keys and database access are not modelled.
- Parsing of the configuration file, scalar profile getters and setters, VRF and bridge maps, interface type name tables, MAC polling, shell and Python tools.
- Moving an ID generator, and limits past the range of `int` in its search.
