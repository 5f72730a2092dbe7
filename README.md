# mv-sorter reorder engine, modelled in Dafny

`<mv-sorter>` is a web component that lets the user drag elements within
a container and between containers. This project models the engine
behind it, with the DOM stripped away. It covers the element registry,
the `homes` lists, the placement, the batching, the frame scheduler and
the grab and release transitions.

- **Registry.** Elements are opaque identities. `mono.items` is a map from
  element to item record (`Records.Item`). Each container is a
  `Records.Container` object. The engine's per-container state (`homes`,
  `parent_target`, the measured box) is held by the shared state
  `Engine.Monostate`, keyed by the container.
- **Operations.** Every operation that changes the shared state is a
  method of `Engine.Monostate`. Its contract ties the new state to a
  value-level function in the other modules:
  - `Registry` and `Restore`: the `homes` bookkeeping of `add_item`,
    `remove_item`, `reindex` and `reset`.
  - `Layout`, `Reflow` and `Render`: the reflow of `assign_dropzone` and
    the drawing of `render_items`.
  - `Dropzone`, `Pick`, `Choice` and `Parents`: the search of
    `find_dropzone`, `find_container` and the parent-chain walks.
  - `Scheduler` and `Transitions`: `addAnim`, the frame loop, grab and
    release.
  - `Changes`: `is_altered`, `commit` and the `elements*` reports.
- **Proofs.** The properties the engine relies on are proved as lemmas
  about those functions:
  - every listed element is registered at its own index and sits in
    exactly one `homes`;
  - the dragged element lands at the index asked for, the others keep
    their order, and items are laid out one after another;
  - the index search and the container choice stay within their bounds;
  - the frame queue stays in step with the records.
- **Inputs.** Geometry is integer, so the source's `Math.round` and
  `Math.floor` are the identity. These come in as parameters:
  - whether a container or element is visible (`offsetParent`);
  - the slot's assigned nodes and each element's DOM parent;
  - every measurement;
  - the animation steps' answers (`keep`);
  - the corner distance (`hypot`).

## Model

| member | source | states |
|---|---|---|
| Axes.AxisB | mv-sorter.js:563-565 | the other axis is never the axis itself |
| Axes.AxisAB | mv-sorter.js:541-561 | the layout and cross axes differ, the cross axis is `axisB` of the layout axis, and the layout axis is X exactly for a row container |
| Axes.DirectionOf | mv-sorter.js:520-528 | the direction is column exactly when `column` is set and `row` is not (row wins when both are set) |
| Axes.AxesFor | mv-sorter.js:530-539 | a locked container drags along its layout axis only, an unlocked one along X and Y |
| Axes.AxesForShape | mv-sorter.js:530-539 | the drag axes are always one of the three `lock_dir_changed` results, never empty |
| Axes.AxisBInvolution | mv-sorter.js:563-565 | the other axis of the other axis is the axis itself |
| Records.NewItem | mv-sorter.js:621-655 | a fresh record is not grabbed or thrown, has no steps, hosts no container, has no handle, is at index `idx` of `c`, and has all-zero axes |
| Records.Container.constructor | mv-sorter.js:239-276 | the attributes are those given, the direction is `DirectionOf(row, column)` and the drag axes are `AxesFor(lock, direction)`, one of the three `lock_dir_changed` results |
| Records.Container.DirChanged | mv-sorter.js:520-528 | the direction is recomputed from the current `row` and `column` |
| Records.Container.LockDirChanged | mv-sorter.js:530-539 | the drag axes are recomputed from the current `lock` and direction, and stay one of the three `lock_dir_changed` results |
| Geometry.Measured | mv-sorter.js:668-721 | `item_rect_changed` on one axis takes over offset, size, margins and half-size, keeps `m_size` equal to margins plus size, and leaves positions and flags alone |
| Geometry.BoxDistance | mv-sorter.js:1269-1316 | the nine-region distance is never negative, and it is zero exactly when the point is inside the closed box |
| Seqs.Mark | mv-sorter.js:157 | `Set.add` on an insertion-ordered set: the element is present afterwards, nothing else joins, the old members keep their order as a prefix, and no element is doubled |
| Seqs.SpliceIsWithout | mv-sorter.js:777 | in a list without duplicates, `splice(i, 1)` removes exactly the element at `i` |
| Changes.Commit | mv-sorter.js:43-54 | afterwards the children are exactly `homes`, so the container is no longer altered; an element is a child of `self` exactly when `homes` lists it, and every other element keeps its parent |
| Changes.Origin | mv-sorter.js:112-119 | `element_origin` answers exactly for a registered element with a DOM parent, and answers that parent |
| Changes.Home | mv-sorter.js:125-132 | `element_home` answers exactly for a registered element, and answers its current container |
| Changes.Added | mv-sorter.js:95-106 | `elements_added` lists exactly the elements of `homes` the slot does not show, and nothing when the slot shows them all |
| Changes.Removed | mv-sorter.js:72-90 | `elements_removed` lists exactly the registered slotted elements whose record names another container |
| Changes.IsAltered | mv-sorter.js:59-67 | the loop answers true exactly when `homes` and the children differ in length or at some position |
| Changes.ElementsAdded | mv-sorter.js:95-106 | the loop returns `Added` |
| Changes.ElementsRemoved | mv-sorter.js:72-90 | the loop returns `Removed` |
| Changes.AddedNoDup | mv-sorter.js:95-106 | no element is reported twice when `homes` holds none twice |
| Changes.ResetSettles | mv-sorter.js:138-210 | corrected reset (see ## Findings): after `reset` the container reports no element added and none removed |
| Changes.ResetHomes | mv-sorter.js:138-210 | corrected reset (see ## Findings): after `reset`, `element_home` is `self` for every registered slotted element, and agrees with `element_origin` for every element given back to its DOM parent |
| Registry.ReindexedFacts | mv-sorter.js:970-987 | after `reindex` of a list without duplicates, each listed registered element has its position as index (`homes[i].idx == i`), unlisted records are untouched, and only indices change |
| Registry.HomeIsUnique | mv-sorter.js:970-987 | under the invariant, an element listed by a container is registered with it at its own position |
| Registry.OwnedNoDup | mv-sorter.js:970-987 | under the invariant no container lists an element twice |
| Registry.UnindexedUnlisted | mv-sorter.js:772-779 | a registered element without an index is listed by no container, so `remove_item` has nothing to splice |
| Registry.RemoveKeeps | mv-sorter.js:760-792 | removing a registered element keeps the invariant: its container lists the others in their order, each at its new index, and no container keeps it as host |
| Registry.RemoveAsWritten | mv-sorter.js:772-788 | splicing at the recorded index removes exactly that element, and reindexing then deleting the record gives the removal's records |
| Registry.Unlisted | mv-sorter.js:777-778 | taking `t` out of its container's `homes`: the other containers keep their lists, and `t`'s container no longer lists `t` and gains nothing |
| Registry.UnlistKeeps | mv-sorter.js:777-778 | splicing `t` out, reindexing and clearing its index keeps the invariant and the host links; no container lists `t` afterwards and every record changes its index at most |
| Registry.AddKeeps | mv-sorter.js:641-658 | appending a new element with a record at the last index of its container, hosting nothing, keeps the invariant |
| Registry.NewContainerKeeps | mv-sorter.js:252-255 | a new container with empty `homes` and no host keeps the invariant |
| Layout.InPlaced | mv-sorter.js:1505-1559 | an element of the new list is the dragged one (in the destination only) or another element of the old list |
| Layout.PlacedHas | mv-sorter.js:1505-1559 | every other element of the old list, and in the destination the dragged one, is in the new list |
| Layout.PlacedFacts | mv-sorter.js:1505-1559 | the other elements keep their relative order; the destination holds the dragged element once, at `min(idxIn, length)`; other containers lose it; nothing new appears and nothing is doubled |
| Layout.Consecutive | mv-sorter.js:1533-1553 | laid out this way, each item's outer box begins where the previous one's ends |
| Layout.AfterLastAgrees | mv-sorter.js:484-518 | `position_item_last` puts a new item exactly where the reflow would, when the item before it rests where the reflow put it |
| Layout.ThreeItemsReorder | mv-sorter.js:1390-1434 | three items of size 50, the first dragged to midpoint 140: the search yields 2 and the new order is B, C, A |
| Dropzone.BackScanFacts | mv-sorter.js:1391-1407 | the backward scan yields the lowest slot of the unbroken run, counting down from the item's own index, in which every slot takes the item, and nothing exactly when its own slot does not |
| Dropzone.ForwardScanFacts | mv-sorter.js:1408-1432 | the forward scan yields the highest slot of the unbroken run, counting up from the first, in which every slot takes the item, and slot 0 when not even the first does |
| Dropzone.DropIndexBounds | mv-sorter.js:1390-1432 | no index on the home midpoint; at most the own index moving back; some index at most one past the last item moving forward |
| Dropzone.ScanBackward | mv-sorter.js:1391-1407 | the loop returns `BackScan`, never past the item's own index |
| Dropzone.ScanForward | mv-sorter.js:1408-1432 | the loop returns `ForwardScan`, a valid slot |
| Dropzone.ThreeItemsExample | mv-sorter.js:1389-1432 | three items of size 50, the first dragged until its midpoint is at 140: index 2 |
| Parents.AllowsTarget | mv-sorter.js:1587-1601 | true exactly when the groups match and the target hosts the container neither directly nor further up |
| Parents.Chain | mv-sorter.js:1603-1624 | every host on the chain but the last is registered |
| Parents.HasParentChain | mv-sorter.js:1603-1613 | `has_parent(t)` holds exactly when `t` is a host on the chain |
| Parents.DepthChain | mv-sorter.js:1615-1624 | `nesting_depth` adds the number of registered hosts on the chain to its starting depth |
| Parents.DepthStep | mv-sorter.js:1615-1624 | depth 0 without a host or with an unregistered one, otherwise one more than the depth of the host's container |
| Parents.ChainFuel | mv-sorter.js:1603-1624 | once the walk stops on its own, more fuel meets the same hosts |
| Parents.WalksFuel | mv-sorter.js:1603-1624 | neither `has_parent` nor `nesting_depth` depends on the fuel once it suffices |
| Parents.NoDropIntoItself | mv-sorter.js:1595-1597 | a container never accepts its own host or a host further up |
| Choice.FirstAt | mv-sorter.js:1321-1326 | the first eligible container at the least distance, where the pool was last emptied |
| Choice.PoolFacts | mv-sorter.js:1321-1326 | `closest` stays infinite exactly while nothing is eligible, and is otherwise the least distance; the pool is ordered and in range |
| Choice.PoolMembers | mv-sorter.js:1321-1326 | the pool holds exactly the eligible containers within grace of the least distance that come at or after the first nearest one |
| Choice.DeepestFacts | mv-sorter.js:1332-1341 | the second loop returns a pool member of greatest depth, and every later member is strictly shallower |
| Choice.ChooseFacts | mv-sorter.js:1321-1343 | null exactly when nothing is eligible; otherwise an eligible container in the pool, of greatest depth, with ties going to the later one |
| Choice.OrderMatters | mv-sorter.js:1321-1341 | the choice depends on the order of the containers: a container with the point inside loses to an equally deep one 5 away that comes after it |
| Choice.Select | mv-sorter.js:1247-1343 | the two loops return `Choose`, an eligible index |
| Pick.CandOf | mv-sorter.js:1255-1316 | a container is considered exactly when visible and allowing the target; its distance is the box distance, zero exactly inside; its depth is `nesting_depth` |
| Pick.CandsOf | mv-sorter.js:1251-1329 | one candidate per container, in the order of `mono.containers` |
| Pick.FindContainer | mv-sorter.js:1225-1344 | the method returns `FindContainerF`: `self` or a known container |
| Pick.FindContainerFacts | mv-sorter.js:1225-1344 | `self` when the parent has no group; null exactly when no container is visible and allowing; otherwise a visible allowing container within grace of every other such container's distance |
| Pick.SlotSizes | mv-sorter.js:1397-1398 | one size per slot and one past the end: a registered element's `m_size`, the item's own size elsewhere |
| Pick.DropzoneIndexBounds | mv-sorter.js:1346-1435 | no call on the home midpoint; a call at most one past the last element when past it; at most the own index moving back; a null index exactly when an unindexed item of the container moved back by less than `pos_mid` |
| Pick.DropzoneAsWritten | mv-sorter.js:1346-1352 | `find_dropzone` as written throws exactly when `find_container` returned null |
| Pick.HiddenContainersThrow | mv-sorter.js:1346-1352 | with a grouped parent and every container hidden, `find_dropzone` as written throws |
| Scheduler.TickSlotsFacts | mv-sorter.js:1653-1656 | a tick keeps exactly the slots whose step continues, with their steps; a drag step always continues and a rotation recovery of a grabbed item stops |
| Scheduler.TickAdvance | mv-sorter.js:1646-1668 | running the frame body for one more queued element moves the records and queue from the tick of the elements done to the tick of one more |
| Scheduler.TickKeepsSchedOk | mv-sorter.js:1643-1671 | after a frame the loop runs exactly while the queue is not empty, every record with a step is queued, and every grabbed record is still dragged |
| Scheduler.InstallFacts | mv-sorter.js:1630-1632 | `animQueue.set(slot, fn)` replaces that slot's step and keeps the others; the queue stays in step with the element queued |
| Scheduler.FrameKeepsCores | mv-sorter.js:1643-1674 | a frame changes nothing of a record but its slots |
| Scheduler.AddAnimKeepsCores | mv-sorter.js:1626-1634 | `addAnim` changes nothing of a record but its slots |
| Scheduler.AddAnimKeepsOk | mv-sorter.js:1626-1634 | `addAnim` keeps the scheduler invariant unless it puts another step in a grabbed item's drag slot |
| Scheduler.AddAnimKeepsQueueOk | mv-sorter.js:1626-1634 | after `addAnim` every record with a step is queued and the loop runs exactly while the queue is not empty |
| Scheduler.AddAnimKeepsDrags | mv-sorter.js:1626-1634 | an installed drag step survives every later frame and every install into another slot |
| Scheduler.GrabbedAnimates | mv-sorter.js:1626-1676 | under the invariant a grabbed item is queued and the loop runs |
| Scheduler.SchedOkReindexed | mv-sorter.js:970-987 | `reindex` and the removal of records keep the scheduler invariant |
| Transitions.GrabbedFacts | mv-sorter.js:835-876 | a grab leaves the record grabbed, not thrown, with the handle or itself, at the same home and index, and every allowed axis poised at its position |
| Transitions.PoisedOnFacts | mv-sorter.js:870-876 | poising the allowed axes starts each of them at its position, unturned and uncrashed, and changes no flag, home, index or position |
| Transitions.DragStartCores | mv-sorter.js:825-878 | a grab changes no record but the grabbed one, apart from slots |
| Transitions.DragStartOk | mv-sorter.js:825-878 | a grab keeps the scheduler invariant and leaves the item grabbed and dragged along every allowed axis |
| Transitions.HomingOnFacts | mv-sorter.js:923-933 | a release sends every allowed axis towards its resting place (`pos_end = pos_home`) and moves nothing else |
| Transitions.DragEndCores | mv-sorter.js:897-934 | a release changes no record but the released one, apart from slots, and that one becomes thrown and not grabbed |
| Transitions.DragEndOk | mv-sorter.js:897-934 | a release keeps the scheduler invariant and leaves the item thrown and not grabbed |
| Reflow.SettleCores | mv-sorter.js:1542-1550 | settling an axis rewrites only `pos_end` of that axis of that record |
| Reflow.PlacingFacts | mv-sorter.js:1529-1551 | an element seated at `j` gets index `j`, its home one margin past the running edge along the layout axis and at the cross start across it, and is heading home unless grabbed |
| Reflow.LayOutPlaced | mv-sorter.js:1505-1559 | a visible container's new `homes` is its old one with the dragged element moved as `Placed` says |
| Reflow.LayOutLaid | mv-sorter.js:1505-1559 | in a visible container every element of the new `homes` is registered there at its position, rests one outer extent after another from the container start, and heads there unless grabbed; other records keep all but their slots |
| Reflow.ReflowRelaid | mv-sorter.js:1495-1575 | over all containers: each visible one holds its old `homes` reordered as `Placed` says, laid out from its own start; hidden ones keep theirs; unlisted records keep all but their slots |
| Reflow.TameReflow | mv-sorter.js:1495-1575 | the reflow writes no grab flag, handle or nested container, and keeps the scheduler invariant |
| Reflow.ReflowKeepsOwned | mv-sorter.js:1437-1585 | for a `Movable` drop (a listed dragged element sits in a laid-out container, which `HiddenOriginTwice` shows is needed), `assign_dropzone` keeps the registry invariant; a dragged element that lands sits in the destination at `min(idxIn, length)`; one that does not is listed nowhere |
| Reflow.ReflowClosed | mv-sorter.js:1495-1575 | after the reflow every listed element is registered and the containers are those before |
| Reflow.ReflowListed | mv-sorter.js:1495-1575 | after a `Movable` reflow every registered element with an index is listed by its container at that index |
| Reflow.ReflowIndexed | mv-sorter.js:1495-1575 | after a `Movable` reflow every listed element has its position as index (`homes[i].idx == i`) |
| Reflow.ReflowStrands | mv-sorter.js:1512-1557 | after a `Movable` reflow, a dragged element that does not land ends listed nowhere, keeping its container and a null index |
| Reflow.NullDropSeats | mv-sorter.js:1512-1559 | `assign_dropzone(t, null)` leaves the destination holding the dragged element alone when it listed nothing else, and without it otherwise |
| Reflow.ReflowPassesBy | mv-sorter.js:1495-1575 | a `Movable` drop that seats nothing (a hidden destination or a null index) keeps the registry invariant, leaves the dragged element listed by exactly the containers that listed it, and keeps its record but for its slots |
| Reflow.HiddenOriginTwice | mv-sorter.js:1495-1496 | as written: a listed dragged element of a hidden container, seated in a visible destination, ends listed by both containers and the registry invariant fails |
| Reflow.FixedKeepsOwned | mv-sorter.js:1437-1585 | the corrected `assign_dropzone` (unlist first) keeps the registry invariant for every drop that seats a listed element of a laid-out container again, hidden origin included; a landing element sits in the destination at `min(idxIn, length)`; otherwise its record keeps all but its slots |
| Render.Attached | mv-sorter.js:438-440 | the elements drawn are exactly those of `homes` still in the document |
| Render.FallCores | mv-sorter.js:466-469 | a fall step rewrites only `pos_end` of that axis of that record |
| Render.ShownFacts | mv-sorter.js:438-479 | a drawn element rests one margin past the running edge along the layout axis and at the cross start across it, keeps its measured extent, heads home unless grabbed, and keeps its index and container |
| Render.ShowCores | mv-sorter.js:438-479 | drawing an element changes no other record but for slots |
| Render.DrawRests | mv-sorter.js:438-479 | `render_items` lays out the attached elements one after another from the start and leaves the other records as they were but for slots |
| Render.RenderShown | mv-sorter.js:422-434 | a visible container is drawn from its own start |
| Render.RemeasureFacts | mv-sorter.js:411-414 | a visible dirty container gets its fresh box, and every other container keeps its last one |
| Render.RenderAllRests | mv-sorter.js:406-420 | every visible dirty container has its attached elements laid out from its start; records no visible dirty container lists keep all but their slots |
| Render.CalmRenderAll | mv-sorter.js:406-420 | rendering changes no grab flag, handle, container, index or nested container, and keeps the scheduler invariant |
| Render.AddedItem | mv-sorter.js:641-663 | the record `add_item` makes is at index `idx` of `c`, fresh, measured, at rest, and placed right after the last item along the layout axis and in line with it across |
| Render.AppendRests | mv-sorter.js:484-518 | when a container's elements rest where `render_items` lays them out, the one `add_item` appends rests there too |
| Restore.Enlist | mv-sorter.js:157-162 | the taken element is seen, gets `self` and the next position of `homes_new`, and no other record changes |
| Restore.GatherStep | mv-sorter.js:146-171 | corrected reset (see ## Findings): one turn of loop one marks the node seen and appends it to `homes_new` exactly when it is registered and unseen |
| Restore.Gather | mv-sorter.js:145-172 | corrected reset (see ## Findings): after loop one every assigned node is seen |
| Restore.ReturnStep | mv-sorter.js:175-204 | one turn of loop two changes only the record of its element: detached without a parent, appended to its parent's `homes` otherwise |
| Restore.Return | mv-sorter.js:174-205 | corrected reset (see ## Findings): loop two sees every element of its copy and changes no other record |
| Restore.GatherOk | mv-sorter.js:145-172 | corrected reset (see ## Findings): loop one keeps the bookkeeping invariant with `self`'s list set aside |
| Restore.ReturnOk | mv-sorter.js:174-205 | corrected reset (see ## Findings): loop two keeps that invariant |
| Restore.GatherTakes | mv-sorter.js:144-172 | corrected reset (see ## Findings): loop one builds `homes_new` from the registered assigned nodes, each once, in order of first occurrence |
| Restore.ReturnGives | mv-sorter.js:174-205 | corrected reset (see ## Findings): loop two gives back every element of its copy that loop one did not take |
| Restore.ResetKeeps | mv-sorter.js:138-210 | corrected reset (see ## Findings): `reset` keeps the registry invariant and the nesting links, and `mono.dirty` stays a set of known containers |
| Restore.ResetTakes | mv-sorter.js:138-210 | corrected reset (see ## Findings): afterwards `self` lists exactly the registered assigned nodes, each once, in the order they first appear in the slot |
| Restore.ResetGivesBack | mv-sorter.js:138-210 | corrected reset (see ## Findings): every element `self` listed that the slot no longer shows is listed by its DOM parent's container, or, without a parent, has no index and is listed nowhere |
| Restore.GatherStepAsWritten | mv-sorter.js:164-167 | loop one as written, splicing the old container at a null index too |
| Restore.ReturnAsWritten | mv-sorter.js:174-205 | loop two as written, walking the live list while splicing it |
| Restore.GatherSplicesNull | mv-sorter.js:164-167 | as written, `splice(null, 1)` drops an innocent element from its container and breaks the invariant |
| Restore.ReturnSkipsAnElement | mv-sorter.js:174-194 | as written, splicing the live list skips the next element, which is never given back, and breaks the invariant |
| Engine.Monostate.constructor | mv-sorter.js:239-247 | the shared state starts empty and satisfies the invariant |
| Engine.Monostate.AddContainer | mv-sorter.js:252-255 | a new container joins `mono.containers` with empty `homes` and no host; the invariant holds |
| Engine.Monostate.AddItem | mv-sorter.js:607-666 | nothing for a non-element, the zone marker, a hidden or a registered element; otherwise appended to `homes` with the `AddedItem` record; the invariant holds |
| Engine.Monostate.Reindex | mv-sorter.js:970-987 | returns the length, and the records become `Reindexed` |
| Engine.Monostate.ClearParents | mv-sorter.js:781-784 | every container nested in the item loses its host |
| Engine.Monostate.Unhome | mv-sorter.js:777-778 | splice at the index and reindex that container |
| Engine.Monostate.RemoveItem | mv-sorter.js:760-792 | nothing for an unregistered node; otherwise the container is marked dirty, loses the node with the others in order, is reindexed, nested containers lose their host, the record goes and a debounced flush is pending; the invariant holds |
| Engine.Monostate.Detach | mv-sorter.js:769-791 | `remove_item` past its guard, step by step |
| Engine.Monostate.AddAnim | mv-sorter.js:1626-1634 | the scheduler state becomes `AddAnimF`, the grab flag of `t` is untouched, and a valid state stays valid (callers put only the drag step into a position slot of a grabbed element) |
| Engine.Monostate.Schedule | mv-sorter.js:1626-1634 | install, queue and start-when-idle are `AddAnimF` |
| Engine.AddAnimValid | mv-sorter.js:1626-1634 | `addAnim` never changes the grab flag, and keeps the bookkeeping and scheduler invariants unless it puts anything but the drag step into a position slot of a grabbed element |
| Engine.Monostate.Tick | mv-sorter.js:1643-1674 | the scheduler state becomes `Frame`, and a valid state stays valid |
| Engine.Monostate.RunFrame | mv-sorter.js:1643-1674 | the loop over the queue followed by `stopAnim` when it empties is `Frame` |
| Engine.FrameValid | mv-sorter.js:1643-1674 | a frame keeps the bookkeeping and scheduler invariants |
| Engine.Monostate.TickElement | mv-sorter.js:1647-1667 | one queued element: its slots become `TickSlots`, and it leaves the queue when unregistered or left without slots |
| Engine.RunSlots | mv-sorter.js:1653-1656 | the loop over an item's slots returns `TickSlots` |
| Engine.Monostate.StopAnim | mv-sorter.js:1678-1683 | the loop is no longer defined |
| Engine.Monostate.DragStart | mv-sorter.js:825-878 | nothing for an untracked or grabbed element or a disabled container; otherwise `DragStartF` on the allowed axes, and `last_grabbed` is the element; the invariant holds |
| Engine.Monostate.Grab | mv-sorter.js:835-876 | `item_drag_start` past its guards is `DragStartF` and keeps the invariant |
| Engine.Monostate.TakeHold | mv-sorter.js:835-876 | grab, scale-up and every axis poised are `DragStartF` |
| Engine.Monostate.PoiseAxes | mv-sorter.js:870-876 | the loop over the axes is `DragAxes` |
| Engine.Monostate.PoiseOne | mv-sorter.js:871-875 | one axis poised leaves `DragAxes` over the rest to do |
| Engine.DragStartValid | mv-sorter.js:825-878 | a grab keeps the bookkeeping and scheduler invariants, and the item is dragged along every allowed axis |
| Engine.Monostate.DragEnd | mv-sorter.js:897-934 | nothing unless grabbed; otherwise `DragEndF` on the allowed axes, the item thrown and no longer grabbed; the invariant holds |
| Engine.Monostate.Release | mv-sorter.js:902-933 | `item_drag_end` past its guard is `DragEndF` |
| Engine.Monostate.ReleaseAxes | mv-sorter.js:923-933 | the loop over the axes is `DropAxes` |
| Engine.Monostate.ReleaseOne | mv-sorter.js:924-932 | one axis released leaves `DropAxes` over the rest to do |
| Engine.DragEndValid | mv-sorter.js:897-934 | a release keeps the bookkeeping and scheduler invariants |
| Engine.Removal | mv-sorter.js:760-792 | `remove_item` step by step equals the removal whose invariant is proved, and keeps the scheduler invariant |
| Engine.Monostate.SettleAxis | mv-sorter.js:1542-1550 | one axis of a placed element is `Settle` |
| Engine.Monostate.PlaceElem | mv-sorter.js:1516-1554 | the inner loop's body for another element is `Place` |
| Engine.Monostate.SetZone | mv-sorter.js:1468-1493 | `setZone` is `ZoneIn` |
| Engine.Monostate.LayIn | mv-sorter.js:1512-1557 | the inner loop is `Lay` |
| Engine.Monostate.Turn | mv-sorter.js:1512-1555 | one turn of the inner loop leaves `Lay` over the rest of the list to do |
| Engine.Monostate.FinishIn | mv-sorter.js:1557 | the `setZone` at the end of the inner loop is `Finish` |
| Engine.Monostate.LayOutIn | mv-sorter.js:1505-1559 | one visible container is `LayOut` |
| Engine.Monostate.AssignDropzone | mv-sorter.js:1437-1585 | the scheduler state and every `homes` become `ReflowF` over `mono.containers`; after a `Movable` drop the invariant holds |
| Engine.Monostate.ReflowAll | mv-sorter.js:1495-1575 | the outer loop over `mono.containers` is `ReflowF` |
| Engine.ReflowValid | mv-sorter.js:1437-1585 | a `Movable` drop keeps the bookkeeping and scheduler invariants |
| Engine.Monostate.ReflowIn | mv-sorter.js:1495-1575 | one container of the outer loop leaves `ReflowF` over the rest to do, and the records stay registered |
| Engine.Monostate.SlotReached | mv-sorter.js:1359-1432 | the middle of `find_dropzone` returns `DropzoneIndex` |
| Engine.Monostate.FindDropzone | mv-sorter.js:1346-1435 | the container is `find_container`'s choice; no call changes nothing; a call is the corrected `assign_dropzone` (`ReflowFixed`) there with the slot found; run on the dragged element's own container, as every caller does, it keeps the invariant |
| Engine.Monostate.Locate | mv-sorter.js:1346-1432 | the search of `find_dropzone` answers `find_container`'s choice and, in it, the slot `DropzoneIndex` reaches |
| Engine.Monostate.Reseat | mv-sorter.js:1434 | the `assign_dropzone` call, corrected, is `ReflowFixed`, and keeps the invariant when a listed element of a laid-out container is seated in a laid-out one |
| Engine.Monostate.ReflowFrom | mv-sorter.js:1437-1575 | unlisting where needed, then the outer loop, is `ReflowFixed` |
| Engine.Monostate.Unlist | mv-sorter.js:777-778 | splice at the index, reindex and a null index are `Unlisted` |
| Engine.FixedValid | mv-sorter.js:1437-1585 | the corrected reflow keeps the bookkeeping and scheduler invariants for every drop that seats a listed element of a laid-out container again |
| Engine.OwnDrop | mv-sorter.js:1346-1435 | `find_dropzone` run on the dragged element's own container seats a listed element of a laid-out container only in a laid-out container, so `FixedValid` applies to every caller |
| Engine.Monostate.FallAxis | mv-sorter.js:466-469 | one axis heading home is `Fall` |
| Engine.Monostate.ShowElem | mv-sorter.js:438-479 | the loop body of `render_items` is `Show` |
| Engine.Monostate.DrawAll | mv-sorter.js:438-479 | the loop of `render_items` is `Draw` |
| Engine.Monostate.DrawOne | mv-sorter.js:438-479 | one element drawn leaves `Draw` over the rest of the list to do |
| Engine.Monostate.RenderItems | mv-sorter.js:422-482 | `render_items` is `RenderF`: nothing while hidden |
| Engine.Monostate.MeasureDirty | mv-sorter.js:411-414 | the first loop of `items_moved` is `Remeasure` |
| Engine.Monostate.RenderDirty | mv-sorter.js:416-419 | the second loop empties `mono.dirty` and is `RenderAll` |
| Engine.Monostate.RenderNext | mv-sorter.js:416-419 | one dirty container rendered and dropped leaves `RenderAll` over the rest to do |
| Engine.Monostate.ItemsMoved | mv-sorter.js:406-420 | the invariant holds; the pending flush is cleared, every dirty container is measured before any is drawn, `mono.dirty` ends empty, and the drawing is `RenderAll` |
| Engine.Monostate.Flush | mv-sorter.js:406-420 | the flush request cleared and both loops: `mono.dirty` empty, boxes `Remeasure`, drawing `RenderAll` |
| Engine.RenderValid | mv-sorter.js:406-420 | `items_moved` keeps the bookkeeping and scheduler invariants and leaves `mono.dirty` empty |
| Engine.Monostate.Reset | mv-sorter.js:138-210 | corrected reset (see ## Findings): the invariant holds; `homes` and the records become `Restore.Reset`'s, then `items_moved` runs: `mono.dirty` empty, boxes remeasured, drawing `RenderAll` |
| Engine.Monostate.Restart | mv-sorter.js:138-210 | corrected reset (see ## Findings): the bookkeeping of `reset` is `Restore.Reset`, and the `items_moved` after it empties `mono.dirty`, remeasures and draws `RenderAll` |
| Engine.ResetValid | mv-sorter.js:138-210 | corrected reset (see ## Findings): the bookkeeping of `reset` keeps the bookkeeping and scheduler invariants |
| Engine.Monostate.Rehome | mv-sorter.js:138-207 | corrected reset (see ## Findings): both loops and `homes = homes_new` are `Restore.Reset` |
| Engine.Monostate.TakeSlotted | mv-sorter.js:145-172 | corrected reset (see ## Findings): the first loop of `reset` is `Gather` |
| Engine.Monostate.TakeOne | mv-sorter.js:146-171 | corrected reset (see ## Findings): one turn of the first loop is `GatherStep` |
| Engine.Monostate.GiveBack | mv-sorter.js:174-205 | corrected reset (see ## Findings): the second loop of `reset` is `Return` over the list as it was |
| Engine.Monostate.GiveOne | mv-sorter.js:175-204 | corrected reset (see ## Findings): one turn of the second loop is `ReturnStep` |
| Engine.Monostate.ContainerMoved | mv-sorter.js:364-404 | nothing while the host item is grabbed or away from home; otherwise `mono.dirty` gains exactly `c` and the containers of children living elsewhere, nested containers included; an immediate flush is pending exactly when one was or some child lives elsewhere, and otherwise a debounced one; a valid state stays valid |
| Engine.Monostate.MarkMoved | mv-sorter.js:364-404 | the steps of `container_moved`, run on `c` and on every nested container: `mono.dirty` gains exactly `Marks`, and an immediate flush is pending exactly when one was or some container visited `Hurries` |
| Engine.Monostate.MoveChildren | mv-sorter.js:383-394 | the loop over the children gains exactly `KidsMark` and answers whether some child lives elsewhere |
| Engine.Monostate.MoveKid | mv-sorter.js:384-393 | one turn of the loop over the children: `mono.dirty` gains `KidsMark` for one more child, the flush request follows `KidsHurry`, and the answer tracks whether some child so far lives elsewhere |
| Engine.Monostate.MoveChild | mv-sorter.js:384-393 | one child: its nested containers, then its container when it lives elsewhere |
| Engine.Monostate.MoveNested | mv-sorter.js:387-389 | every nested container handled in turn gains exactly `NestedMark` |
| Engine.MovedMarks | mv-sorter.js:379-394 | when not held, `c` and the container of every registered child are marked, and a stray child makes the flush immediate |
| Engine.KidsMarkCover | mv-sorter.js:383-393 | the container of every registered child living elsewhere is marked |

## Left out

- DOM and shadow DOM are not modelled. This covers templates, styles,
  classes, z-index, the dropzone marker's style and `replaceChildren`
  beyond "children become `homes`". Slot contents, children and
  `parentElement` are inputs.
- The dropzone marker element is left out. The source registers it in
  `mono.items` (mv-sorter.js:1113-1125), and `assign_dropzone` gives it an
  `idx` and a `container` (mv-sorter.js:1451-1452), yet no `homes` lists
  it. In the model it is not registered, so the registry invariant
  (`Owned`, `Indexed`) holds only because it is absent. `add_item`
  refuses it, and the model keeps that guard as the `isZone` flag.
- The drag, fall, crash, rotate and scale steps are abstract. They are
  floating-point animation physics, and the model does not compute them.
  A step answers only "continue or stop", through the `keep` parameter,
  and its effect on the record's position is not modelled. The throw
  boost (mv-sorter.js:917-920) is left out with them.
- The side effects of steps run inside a frame are left out. In the
  source they call `addAnim`, `find_dropzone`, `container_moved` and
  `item_moved` (mv-sorter.js:1780, 1856-1861, 1883-1886, 1937, 1956).
  `Scheduler.Frame` and `Engine.Monostate.Tick` change only the slots,
  the queue and the loop flag.
- Render.Show: the `item.container.find_dropzone(target)` call that
  `render_items` makes before sending an away-from-home item home
  (mv-sorter.js:464) is not part of the step. That call can rebuild every
  visible container's `homes` while the loop goes on over the old array.
  The drawing lemmas are proved for the loop without it: Render.Draw,
  Render.RenderAll, Render.DrawRests and Render.RenderAllRests.
- Engine.Monostate.ShowElem: the same call is left out, and so it is from
  Engine.Monostate.DrawAll, Engine.Monostate.RenderItems,
  Engine.Monostate.ItemsMoved and Engine.Monostate.Reset, which
  therefore never change `homes`.
- Engine.Monostate.Reset: it requires that every DOM parent in `dom` is a
  registered container (the source reads `orig_container.mv.homes`,
  mv-sorter.js:183-202). It also requires that an element whose parent is
  `self` is among the slot's assigned nodes.
- Engine.Monostate.Reset, Engine.Monostate.Restart,
  Engine.Monostate.Rehome, Engine.Monostate.TakeSlotted,
  Engine.Monostate.TakeOne, Engine.Monostate.GiveBack,
  Engine.Monostate.GiveOne, Engine.ResetValid, Restore.GatherStep,
  Restore.Gather, Restore.GatherOk, Restore.GatherTakes, Restore.Return,
  Restore.ReturnOk, Restore.ReturnGives, Restore.ResetKeeps,
  Restore.ResetTakes, Restore.ResetGivesBack, Changes.ResetSettles,
  Changes.ResetHomes: they model the corrected `reset`, not the code as
  written. Loop one splices the old container only when the element has
  an index, where mv-sorter.js:164-167 also splices at a null index. Loop
  two walks a copy of `homes` taken before the loop, where
  mv-sorter.js:174-194 walks the live list while splicing it. The steps
  as written are Restore.GatherStepAsWritten and Restore.ReturnAsWritten,
  and the two "## Findings" rows for these lines show what they break.
- Non-element nodes are dropped. Slot lists and `dom` hold elements only,
  so the `nodeType` tests (mv-sorter.js:80, 608) become the `isElement`
  flag of `AddItem`.
- `elements()` (mv-sorter.js:52-54) is a copy of `homes`. It appears only
  inside `Changes.Commit`.
- The handle and grab offsets are left out: `handle_rect_changed`,
  `offset_handle`, `grab`, `t_origin`, `mono.grab_x` and `mono.grab_y`.
  They only feed the transform origin. `Transitions.Grabbed` records
  only which handle was used.
- Measurement is an input. `getBoundingClientRect`, computed styles and
  scroll offsets arrive as `Rect` and `Box` values. A container never
  measured has an unspecified box (`Reflow.BoxOf`).
- Geometry is integer. `Math.round` and `Math.floor` are the identity,
  and the corner distance `Math.sqrt(dX * dX + dY * dY)` is a `hypot`
  parameter, known only to be positive off the box.
- Timers are left out: `setTimeout`, `debounce` and
  `requestAnimationFrame`. A pending immediate flush is the
  `renderPending` flag and a debounced one is `debouncePending`. The
  flush itself is `ItemsMoved`, called explicitly.
- The `resize_observer.observe` and `unobserve` calls in `add_item` and
  `remove_item` are left out, as are the mutation and intersection
  observers.
- The `assign_dropzone` resize follow-up is left out. After laying out,
  it sets `min-width` or `min-height` and looks up `last_grabbed`
  (mv-sorter.js:1561-1583). It changes no engine state, so the model
  drops it.
- `item_moved` (mv-sorter.js:936-968) is not modelled as an operation. It
  dispatches events and commits. Its `assign_dropzone(target, item.idx)`
  call is `Engine.Monostate.AssignDropzone`.
- Parents.HasParent, Parents.NestingDepth and Parents.Chain walk with
  fuel, because the source walk has no cycle guard.
  `Parents.WalksFuel` shows the result does not depend on the fuel once
  it suffices.
- Engine.Monostate.ContainerMoved follows nested containers at most
  `fuel` deep, for the same reason, and so do
  Engine.Monostate.MarkMoved and Engine.Monostate.MoveKid. The source
  recursion is unbounded.
- Pick.DropzoneIndex requires `Indexed` (every indexed record is listed at
  its index), which the registry invariant provides. So do
  Engine.Monostate.FindDropzone, Engine.Monostate.Locate and
  Engine.Monostate.SlotReached. The source would read past the list
  instead.
- Reflow.ReflowKeepsOwned, Reflow.ReflowIndexed, Reflow.ReflowStrands,
  Reflow.ReflowListed: they assume `Movable`, that is, a listed dragged
  element sits in a laid-out container exactly when the drop seats it in
  a laid-out one. The source skips hidden containers
  (mv-sorter.js:1496), so a hidden container that lists the dragged
  element keeps listing it while a visible destination seats it too
  (`Reflow.HiddenOriginTwice`). `Reflow.FixedKeepsOwned` proves the
  corrected reflow without the hidden-origin half of that premise.
  `Reflow.ReflowClosed` and `Reflow.NullDropSeats` do without it.
- Engine.Monostate.AssignDropzone keeps the invariant only for a
  `Movable` drop, for the same reason. The one caller in the core,
  `item_moved` (mv-sorter.js:943), seats a listed element back in its
  own container, which is such a drop.
- Engine.Monostate.FindDropzone keeps the invariant only when it runs on
  the dragged element's own container. Every caller in mv-sorter.js
  (lines 464, 1780 and 1856) does so.
- Engine.Monostate.AddAnim requires that a position slot of a grabbed
  element receives only the drag step. Every call in mv-sorter.js
  respects this, and the invariant that a grabbed element is dragged
  would fail otherwise.
- Engine.Monostate.DragStart requires the container's own invariant
  (`Records.Container.Valid`, drag axes as `lock_dir_changed` leaves
  them), which its constructor and `LockDirChanged` establish.
- A container's `children` are fixed at construction. The DOM moves
  that `commit` makes are modelled on values in `Changes.Commit`, not on
  the container object.
- Two source lines are not turned into invariants.
  - mv-sorter.js:1074 reads `children_containers` of an element rather
    than of its record.
  - mv-sorter.js:350-351 clear `parent_target` before looking it up.
  - Both belong to `container_update_parent` and `disconnectedCallback`,
    which are not modelled.
- Event handlers and pointer tracking are not modelled. This includes
  `track_move`, `touchmove_handler`, the drag handlers and
  `checkLineIntersection`.

## Findings

| source | as written | input that shows it | evidently intended | confidence | as-written member | corrected member |
|---|---|---|---|---|---|---|
| mv-sorter.js:1351-1352 | `find_dropzone` reads `cc.mv` right after `find_container`, which may return `null` | the target's parent has a group and every container is hidden (no `offsetParent`), so none is a candidate | no reassignment when no container can take the item | high, not executed | Pick.HiddenContainersThrow | Engine.Monostate.FindDropzone |
| mv-sorter.js:164-167 | loop one of `reset` runs `old_container.mv.homes.splice(old_idx, 1)` even when `old_idx` is `null`, which splices at 0 | reachable only when a page script calls the public `reset()`, since nothing in mv-sorter.js calls it: element `a` was detached from container `s` by an earlier reset (its record keeps `s`, index `null`) and now sits in `x`; `s` lists `b`; `x.reset()` drops `b` from `s` while `b`'s record still says index 0 of `s` | splice only when the element has an index | high, not executed | Restore.GatherSplicesNull | Restore.ResetKeeps |
| mv-sorter.js:174-194 | loop two of `reset` walks `this.mv.homes` with `for…of` while splicing that same array for a detached element | reachable only when a page script calls the public `reset()`, since nothing in mv-sorter.js calls it: `self` lists `[a, b]`, the slot shows neither, `a` has no parent and `b` now sits in `d`: splicing `a` moves `b` to position 0 while the walk goes on at 1, so `b` is never given back | walk a copy of the list taken before the loop | high, not executed | Restore.ReturnSkipsAnElement | Restore.ResetGivesBack |
| mv-sorter.js:1495-1496 | the outer loop of `assign_dropzone` skips a hidden container even when it lists the dragged element, so that list is never rebuilt without it | a dragged element whose parent has a group and whose container has become hidden (no `offsetParent`) is thrown; the `find_dropzone` of the throw step (mv-sorter.js:1856) finds a visible container through `find_container` and seats the element there, so both containers list it | take the dragged element out of its old list before the reflow seats it elsewhere | medium, not executed | Reflow.HiddenOriginTwice | Reflow.FixedKeepsOwned |
