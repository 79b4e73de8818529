# AutoHand interaction core in Dafny

This project models the bookkeeping core of AutoHand, a Unity VR hand-interaction toolkit written in C#. Physics and rendering are left out. What remains is the set of ownership protocols that decide who holds what:

- A `Hand` grabs, holds, releases, force-releases and squeezes a `Grabbable`.
- A `Grabbable` keeps its `heldBy` list and the `beingHeld`, `beingGrabbed`, `throwing` and `hightlighting` flags.
- A `Grabbable` moves its node hierarchy onto the grabbing or releasing collision layer and back.
- The hand keeps its throw-velocity sample buffers and picks a grabbable ray hit with the comparison the source writes.
- The hand reference-counts the trigger areas, collisions and pose areas it is inside.
- `HandTriggerAreaEvents` and `HandTouchEvent` are state machines with a first-hand owner.
- `HandPlayer` keeps registries: push dictionaries, climbing, platform reference counts, the movement deadzone, the snap-turn latch and the 32-bit collision-layer mask.
- `HandDistanceGrabber` is the pointing, targeting, selecting and pulling state machine, with its highlight-material choice and the catch-assist list.

Layout. Every module is a file:

| file | module | contents |
|---|---|---|
| `common.dfy` | `Common` | vectors over reals, `Option`, `List.Remove` as `RemoveFirst`, `IndexOf`, `NoDuplicates` |
| `layers.dfy` | `Layers` | the layer-rewrite specification `Relayer` over a tree of node ids, and the static in-place `Hand.SetLayerRecursive` |
| `throwing.dfy` | `Throwing` | the throw sample buffer: eviction and mean |
| `closest_hit.dfy` | `ClosestHit` | the closest-hit selection loop |
| `trigger_area_events.dfy` | `TriggerAreaEvents` | `HandTriggerAreaEvents` |
| `touch_event.dfy` | `TouchEvent` | `HandTouchEvent` |
| `interaction.dfy` | `Interaction` | the `Hand` and `Grabbable` classes, which call each other |
| `hand_player.dfy` | `Player` | `HandPlayer` |
| `distance_grabber.dfy` | `DistanceGrab` | `HandDistanceGrabber` and the flags of `DistanceGrabbable` |

Modelling conventions:

- C# fields that methods update are class fields.
- Lists and dictionaries are `seq` and `map` fields. `List.Remove` removes the first occurrence, as `RemoveFirst` does.
- Unity events, and calls into components outside the core, are appended to an event log (`events`, `trace`). The log records the order in which they fire.
- Floats are `real`.
- Raycasts, clock readings, distances and speeds are parameters.
- An exception that ends a C# loop early (for example, a trigger area that is used while its `hands` list is empty) is modelled as a returned `thrown` flag.

## Model

Source paths are relative to the repository root.

| member | source | states |
|---|---|---|
| Common.RemoveFirst | AutoHandTest2/Assets/AutoHand/Scripts/Grabbable/Grabbable.cs:409 | `List.Remove`. If the element is present, exactly one occurrence leaves and the multiset loses one copy. If it is absent, the list is unchanged. Nothing new appears. |
| Common.RemoveFirstNoDuplicates | AutoHandTest2/Assets/AutoHand/Scripts/Helpers/HandTriggerAreaEvents.cs:106 | Removing from a list with no duplicates keeps it duplicate-free and leaves the element absent. |
| Common.RemoveFirstElements | AutoHandTest2/Assets/AutoHand/Scripts/Movement/HandPlayer.cs:858-862 | Without duplicates, removal takes exactly that element out of the element set. This keeps the platform list and the platform dictionaries on one key set. |
| Common.IndexOf | AutoHandTest2/Assets/AutoHand/Scripts/Grabbable/Grabbable.cs:615 | `List.IndexOf`: -1 exactly when absent, otherwise the first position holding the element. |
| Layers.Relayer | AutoHandTest2/Assets/AutoHand/Scripts/Grabbable/Grabbable.cs:576-590 | Specification of `Grabbable.SetLayerRecursive`: it keeps the length of the layer table. |
| Layers.RelayerExactly | AutoHandTest2/Assets/AutoHand/Scripts/Grabbable/Grabbable.cs:576-590 | A node changes only if it is in the hierarchy and on the old layer. Every such node ends on the new layer. |
| Layers.RelayerUnion | AutoHandTest2/Assets/AutoHand/Scripts/Grabbable/Grabbable.cs:577-589 | Rewriting the grab-children, then the transform tree, equals one rewrite of their union. |
| Layers.RelayerRevert | AutoHandTest2/Assets/AutoHand/Scripts/Grabbable/Grabbable.cs:672-680 | Moving a to b and then b to a restores every layer, provided no node of the set started on b. |
| Layers.ForestIdsSnoc | AutoHandTest2/Assets/AutoHand/Scripts/Grabbable/Grabbable.cs:586-588 | The child loop covers the children's ids one child at a time. |
| Layers.SwapWalk | AutoHandTest2/Assets/AutoHand/Scripts/Hand/Hand.cs:1526-1533 | The static walk that swaps from and to at each level keeps the table length. The only caller of this overload in the repository is its own recursion. |
| Layers.SwapWalkSkipsChildOnFrom | AutoHandTest2/Assets/AutoHand/Scripts/Hand/Hand.cs:1531 | On a root with one child, both on `from`, the static walk moves the root but leaves the child on `from`. The plain rewrite would move both. |
| Layers.SetLayerRecursive | AutoHandTest2/Assets/AutoHand/Scripts/Hand/Hand.cs:1526-1533 | The in-place array walk leaves exactly the layers that `SwapWalk` computes from the old table. |
| Throwing.Fresh | AutoHandTest2/Assets/AutoHand/Scripts/Hand/Hand.cs:553-558 | The kept samples never outnumber the buffer. |
| Throwing.FreshExactly | AutoHandTest2/Assets/AutoHand/Scripts/Hand/Hand.cs:553-558 | A sample survives exactly when `now - time < expire`. A sample exactly at the expiry age is removed. |
| Throwing.FreshAligned | AutoHandTest2/Assets/AutoHand/Scripts/Hand/Hand.cs:549-569 | The linear and angular buffers hold the same timestamps, and eviction keeps them aligned. |
| Throwing.RemoveExpired | AutoHandTest2/Assets/AutoHand/Scripts/Hand/Hand.cs:553-558 | The backward `RemoveAt` loop leaves exactly `Fresh` of the buffer, in order. |
| Throwing.SumVelocities | AutoHandTest2/Assets/AutoHand/Scripts/Hand/Hand.cs:1470-1472 | The foreach accumulation equals the recursive velocity sum. |
| Throwing.SumOfSteady | AutoHandTest2/Assets/AutoHand/Scripts/Hand/Hand.cs:1470-1473 | n samples of one velocity sum to n times it. |
| Throwing.MeanOfSteady | AutoHandTest2/Assets/AutoHand/Scripts/Hand/Hand.cs:1468-1474 | The mean of a steady buffer is that velocity. |
| ClosestHit.Chosen | AutoHandTest2/Assets/AutoHand/Scripts/Hand/Hand.cs:1442-1450 | Reference selection with both sides of the comparison weighted by priority: the choice among the first k hits is one of them. |
| ClosestHit.ChosenMinimal | AutoHandTest2/Assets/AutoHand/Scripts/Hand/Hand.cs:1442-1450 | For the reference selection: the chosen hit has the least priority-weighted distance, and every earlier hit is strictly farther. Ties keep the earliest index. |
| ClosestHit.Closest | AutoHandTest2/Assets/AutoHand/Scripts/Hand/Hand.cs:1435-1450 | With at least one hit, the reference selection over all hits is a valid index. |
| ClosestHit.HandClosestHit | AutoHandTest2/Assets/AutoHand/Scripts/Hand/Hand.cs:1435-1459 | No hits give the zero vector and no grabbable. Otherwise the loop, with the comparison as written, returns the hit `ClosestAsWritten` keeps and the mean of `point - origin` over all hits. |
| ClosestHit.ChosenAsWritten | AutoHandTest2/Assets/AutoHand/Scripts/Hand/Hand.cs:1438-1450 | The index kept after the first k hits, comparing the candidate's priority-weighted distance with the current best's ray-weighted distance, is one of those k hits. |
| ClosestHit.ClosestAsWritten | AutoHandTest2/Assets/AutoHand/Scripts/Hand/Hand.cs:1435-1450 | With at least one hit, the hit the loop as written keeps is a valid index. |
| ClosestHit.ChosenAsWrittenLaterNotCloser | AutoHandTest2/Assets/AutoHand/Scripts/Hand/Hand.cs:1442-1450 | No hit after the kept one has a weighted distance below the kept hit's ray-weighted distance, and a kept hit other than the first undercut the best before it. |
| ClosestHit.ChosenAsWrittenUnitPriority | AutoHandTest2/Assets/AutoHand/Scripts/Hand/Hand.cs:1443-1446 | When every grabbable has priority 1, the comparison as written makes the reference selection, so it picks the minimal hit. |
| ClosestHit.AsWrittenIgnoresCurrentPriority | AutoHandTest2/Assets/AutoHand/Scripts/Hand/Hand.cs:1441-1445 | Two hits on which the loop as written picks the hit with the larger weighted distance. |
| TriggerAreaEvents.HandTriggerAreaEvents.constructor | AutoHandTest2/Assets/AutoHand/Scripts/Helpers/HandTriggerAreaEvents.cs:12-16 | Starts with no hands, both latches off, and the given modes. |
| TriggerAreaEvents.HandTriggerAreaEvents.After | AutoHandTest2/Assets/AutoHand/Scripts/Helpers/HandTriggerAreaEvents.cs:111-166 | One action fires at most its own event. Grab and release never touch the squeezing latch; squeeze and unsqueeze never touch the grabbing latch. |
| TriggerAreaEvents.HandTriggerAreaEvents.Act | AutoHandTest2/Assets/AutoHand/Scripts/Helpers/HandTriggerAreaEvents.cs:111-166 | An action throws exactly when it would index an empty list in one-handed mode. Otherwise the new latches and log are `After`. |
| TriggerAreaEvents.HandTriggerAreaEvents.Enter | AutoHandTest2/Assets/AutoHand/Scripts/Helpers/HandTriggerAreaEvents.cs:66-74 | A hand is added only if absent, and the enter event fires exactly then. `hands` stays duplicate-free. |
| TriggerAreaEvents.HandTriggerAreaEvents.ExitLatches | AutoHandTest2/Assets/AutoHand/Scripts/Helpers/HandTriggerAreaEvents.cs:81-89 | The exiting owner clears grabbing only under `exitTriggerRelease`, and squeezing only under `exitTriggerUnsqueeze`. |
| TriggerAreaEvents.HandTriggerAreaEvents.Exit | AutoHandTest2/Assets/AutoHand/Scripts/Helpers/HandTriggerAreaEvents.cs:76-108 | Exit has four cases: an absent hand is a no-op; otherwise the hand is removed; the owner (or any hand when not one-handed) fires release/unsqueeze per latch and mode, then exit; a non-owner in one-handed mode fires nothing. |
| TriggerAreaEvents.HandTriggerAreaEvents.Grab | AutoHandTest2/Assets/AutoHand/Scripts/Helpers/HandTriggerAreaEvents.cs:111-123 | Sets grabbing and fires only from the off state, and only when the hand acts (not one-handed, or `hands[0]`). It throws on an empty list in one-handed mode. |
| TriggerAreaEvents.HandTriggerAreaEvents.Release | AutoHandTest2/Assets/AutoHand/Scripts/Helpers/HandTriggerAreaEvents.cs:125-137 | The same owner rule, acting only from the on state. |
| TriggerAreaEvents.HandTriggerAreaEvents.Squeeze | AutoHandTest2/Assets/AutoHand/Scripts/Helpers/HandTriggerAreaEvents.cs:140-152 | The owner rule on the squeezing latch, from off. |
| TriggerAreaEvents.HandTriggerAreaEvents.Unsqueeze | AutoHandTest2/Assets/AutoHand/Scripts/Helpers/HandTriggerAreaEvents.cs:154-166 | The owner rule on the squeezing latch, from on. |
| TouchEvent.HandTouchEvent.constructor | AutoHandTest2/Assets/AutoHand/Scripts/Helpers/HandTouchEvent.cs:10-21 | Starts with no hands and no events, in the given ownership mode. |
| TouchEvent.HandTouchEvent.Touch | AutoHandTest2/Assets/AutoHand/Scripts/Helpers/HandTouchEvent.cs:33-42 | A hand is added only if absent, and start fires exactly then. There are no duplicates. |
| TouchEvent.HandTouchEvent.Untouch | AutoHandTest2/Assets/AutoHand/Scripts/Helpers/HandTouchEvent.cs:44-58 | An absent hand is a no-op; otherwise the hand is removed. One-handed: stop fires only for `hands[0]`, followed by start if others remain. Otherwise stop fires on every untouch. |
| Interaction.Grabbable.constructor | AutoHandTest2/Assets/AutoHand/Scripts/Grabbable/Grabbable.cs:38-130 | The inspector defaults: swapping allowed, parent on grab, priority 1, multipliers 1, release time 0.25, pull-apart-only breaks. The object starts unheld. `jointedParents` starts empty, as the OnAwake loop over the new empty list records nothing. |
| Interaction.Grabbable.HeldCount | AutoHandTest2/Assets/AutoHand/Scripts/Grabbable/Grabbable.cs:553-555 | Positive exactly when the object is held. |
| Interaction.Grabbable.IsHeld | AutoHandTest2/Assets/AutoHand/Scripts/Grabbable/Grabbable.cs:557-559 | `beingHeld` agrees with a non-empty `heldBy` list. |
| Interaction.Grabbable.SetGrabbableChild | AutoHandTest2/Assets/AutoHand/Scripts/Grabbable/Grabbable.cs:571-574 | A child is registered once, and the layer-walk node set grows by it. |
| Interaction.Grabbable.SetLayerRecursive | AutoHandTest2/Assets/AutoHand/Scripts/Grabbable/Grabbable.cs:576-590 | The grab-children and tree walk leave exactly `Relayer(old layers, nodes, old, new)`. |
| Interaction.Grabbable.SetChildrenLayers | AutoHandTest2/Assets/AutoHand/Scripts/Grabbable/Grabbable.cs:583-589 | The depth-first walk equals `Relayer` over the subtree's ids: exactly its nodes on the old layer move to the new one. |
| Interaction.Grabbable.ResetLayer | AutoHandTest2/Assets/AutoHand/Scripts/Grabbable/Grabbable.cs:672-680 | When the routine fires, the hierarchy reverts to `originalLayer` only if the root is still on `fromLayer`. The routine is cleared. |
| Interaction.Grabbable.SetOriginalParent | AutoHandTest2/Assets/AutoHand/Scripts/Grabbable/Grabbable.cs:592-594 | The body goes back under its original parent unless it is stabbed. |
| Interaction.Grabbable.AddJointedBody | AutoHandTest2/Assets/AutoHand/Scripts/Grabbable/Grabbable.cs:607-613 | The two parallel lists grow together. A non-kinematic body is reparented only while the object is held. |
| Interaction.Grabbable.RemoveJointedBody | AutoHandTest2/Assets/AutoHand/Scripts/Grabbable/Grabbable.cs:614-620 | Throws when the body has no grabbable, is not registered, or is registered at an index past `jointedParents`; in the last case `jointedBodies` has already lost the entry. Otherwise both lists lose the entry at its index. The body is reparented only when its owner is unheld. |
| Interaction.Grabbable.Highlight | AutoHandTest2/Assets/AutoHand/Scripts/Grabbable/Grabbable.cs:240-267 | Fires only on the off-to-on transition, with the custom material or the object's own. Repeats are no-ops. |
| Interaction.Grabbable.Unhighlight | AutoHandTest2/Assets/AutoHand/Scripts/Grabbable/Grabbable.cs:270-278 | Fires only on the on-to-off transition. |
| Interaction.Grabbable.OnSqueeze | AutoHandTest2/Assets/AutoHand/Scripts/Grabbable/Grabbable.cs:283-286 | Fires the squeeze event. |
| Interaction.Grabbable.OnUnsqueeze | AutoHandTest2/Assets/AutoHand/Scripts/Grabbable/Grabbable.cs:289-292 | Fires the unsqueeze event. |
| Interaction.Grabbable.OnBeforeGrab | AutoHandTest2/Assets/AutoHand/Scripts/Grabbable/Grabbable.cs:294-306 | Sets `beingGrabbed` and stops the pending layer reset. Under `parentOnGrab` the body and every jointed body move under the hand's parent; otherwise no parent changes. |
| Interaction.Grabbable.OnGrab | AutoHandTest2/Assets/AutoHand/Scripts/Grabbable/Grabbable.cs:310-333 | Appends the hand. Sets `beingHeld` and clears `beingGrabbed` and `throwing`. Schedules the layer reset from the grabbing layer. Locks the hand body under `lockHandOnGrab`. |
| Interaction.Grabbable.ApplyThrow | AutoHandTest2/Assets/AutoHand/Scripts/Grabbable/Grabbable.cs:362-374 | Launches only when unheld, thrown and not already throwing, at the hand's throw velocities times the multipliers. An unthrown release zeroes both velocities. |
| Interaction.Grabbable.RemoveHolder | AutoHandTest2/Assets/AutoHand/Scripts/Grabbable/Grabbable.cs:341-352 | One occurrence leaves. The last hand out restores the parent. Being on the releasing layer at that moment cancels the throw. |
| Interaction.Grabbable.MoveToReleasing | AutoHandTest2/Assets/AutoHand/Scripts/Grabbable/Grabbable.cs:354-357 | The hierarchy moves from the root's layer to the releasing layer, and the reset is scheduled from there. |
| Interaction.Grabbable.LetGo | AutoHandTest2/Assets/AutoHand/Scripts/Grabbable/Grabbable.cs:341-374 | The release body in source order: remove, relayer, release event, throw. |
| Interaction.Grabbable.OnRelease | AutoHandTest2/Assets/AutoHand/Scripts/Grabbable/Grabbable.cs:336-388 | A no-op unless the object is held and the hand is in `heldBy`. Then one occurrence leaves and `beingHeld` clears exactly when the list empties. Layers move to releasing. A throw applies only when the object is no longer held, thrown is true and it is not already throwing; the releasing layer forces not-thrown. |
| Interaction.Grabbable.HandReleases | AutoHandTest2/Assets/AutoHand/Scripts/Grabbable/Grabbable.cs:395 | One holder's `ReleaseGrabLock`: the hand ends empty and the list loses it. |
| Interaction.Grabbable.HandRelease | AutoHandTest2/Assets/AutoHand/Scripts/Grabbable/Grabbable.cs:393-397 | The backward loop empties `heldBy` and leaves every former holder empty-handed. |
| Interaction.Grabbable.ForcedDrop | AutoHandTest2/Assets/AutoHand/Scripts/Grabbable/Grabbable.cs:404-427 | Removes the hand and fires force-release. The last hand out moves layers to releasing and restores the parent; a destroyed object schedules no reset. |
| Interaction.Grabbable.HandLetsGo | AutoHandTest2/Assets/AutoHand/Scripts/Grabbable/Grabbable.cs:403 | The hand's `ForceReleaseGrab` ends with it empty-handed. The log gains only forced-release and unsqueeze events. |
| Interaction.Grabbable.ForceReleaseTurn | AutoHandTest2/Assets/AutoHand/Scripts/Grabbable/Grabbable.cs:402-428 | One backward-loop turn removes the last holder and nobody else. |
| Interaction.Grabbable.DropIfHeld | AutoHandTest2/Assets/AutoHand/Scripts/Grabbable/Grabbable.cs:404-428 | The drop happens only while `beingHeld`. |
| Interaction.Grabbable.ForceHandsRelease | AutoHandTest2/Assets/AutoHand/Scripts/Grabbable/Grabbable.cs:400-430 | Afterwards `heldBy` is empty and every former holder is empty-handed. No other hand's hold changes. The log gains only forced events. |
| Interaction.Grabbable.ForceHandRelease | AutoHandTest2/Assets/AutoHand/Scripts/Grabbable/Grabbable.cs:434-457 | The hand ends released. If it held this object, its own `ForceReleaseGrab` removed it once and the second `Remove` is a no-op. The last hand out moves to releasing. The recursion ends because the hand clears `holdingObj` first. |
| Interaction.Grabbable.OnHandJointBreak | AutoHandTest2/Assets/AutoHand/Scripts/Grabbable/Grabbable.cs:468-477 | The break event fires iff `!pullApartBreakOnly` or more than one hand holds the object. The object is always force-released. |
| Interaction.Grabbable.FixedUpdate | AutoHandTest2/Assets/AutoHand/Scripts/Grabbable/Grabbable.cs:233-236 | Force-releases only on a true-to-false edge of `isGrabbable`, then records the value. |
| Interaction.Grabbable.OnDestroy | AutoHandTest2/Assets/AutoHand/Scripts/Grabbable/Grabbable.cs:461-465 | Marks the object destroyed and releases every hand. |
| Interaction.NextTryCount | AutoHandTest2/Assets/AutoHand/Scripts/Hand/Hand.cs:476-493 | The far-away counter stays within 0..3. |
| Interaction.FarStepsRelease | AutoHandTest2/Assets/AutoHand/Scripts/Hand/Hand.cs:476-493 | A held object that allows teleporting survives far-away frames while the counter is below 3, and is force-released once it reaches 3. |
| Interaction.FirstThrow | AutoHandTest2/Assets/AutoHand/Scripts/Hand/Hand.cs:582-587 | The first trigger area whose action throws; every earlier area acted normally. |
| Interaction.Hand.constructor | AutoHandTest2/Assets/AutoHand/Scripts/Hand/Hand.cs:45-112 | The inspector defaults (follow strength 80, throw power 2, expiry 0.2, look assist 1). The hand starts empty with empty buffers and lists. |
| Interaction.Hand.CanGrab | AutoHandTest2/Assets/AutoHand/Scripts/Hand/Hand.cs:1499-1502 | True exactly when the object is enabled, grabbable, its hand type admits this side, and it is not held single-handed without swapping. |
| Interaction.Hand.HasGrabbable | AutoHandTest2/Assets/AutoHand/Scripts/Hand/Hand.cs:1505-1523 | Found exactly when the object carries a grabbable or a grabbable child. The own component wins over the child's owner. |
| Interaction.Hand.ThrowVelocity | AutoHandTest2/Assets/AutoHand/Scripts/Hand/Hand.cs:1463-1478 | Zero while grabbing. Otherwise the loop's mean of the buffer (or the body velocity when the buffer is empty) times `throwPower`. |
| Interaction.Hand.ThrowAngularVelocity | AutoHandTest2/Assets/AutoHand/Scripts/Hand/Hand.cs:1481-1496 | Zero while grabbing or with an empty buffer; otherwise the unscaled mean. |
| Interaction.Hand.UpdateThrowing | AutoHandTest2/Assets/AutoHand/Scripts/Hand/Hand.cs:539-570 | Not holding, or grabbing: both buffers empty. Otherwise each buffer is its old contents plus the new sample, filtered by age. Every sample left is younger than the expiry. |
| Interaction.Hand.BreakGrabConnection | AutoHandTest2/Assets/AutoHand/Scripts/Hand/Hand.cs:1006-1031 | Always ends released: no object, no grab lock, no pose, zero offset, identity rotation. The held body is stopped and reparented only mid-grab. |
| Interaction.Hand.ForceReleaseGrab | AutoHandTest2/Assets/AutoHand/Scripts/Hand/Hand.cs:950-963 | An empty hand is a no-op. Otherwise: unsqueeze if squeezing; force-release fires twice (here and in the object); the hand is released before the object drops it, so the mutual call ends. |
| Interaction.Hand.ReleaseThrowing | AutoHandTest2/Assets/AutoHand/Scripts/Hand/Hand.cs:907-919 | The shared release body: unsqueeze, `OnRelease`, then break. An unthrown release zeroes the object's velocity. |
| Interaction.Hand.ReleaseGrabLock | AutoHandTest2/Assets/AutoHand/Scripts/Hand/Hand.cs:930-948 | Always released afterwards. A held object gets `OnRelease(thrown = true)`. |
| Interaction.Hand.ReleaseHeld | AutoHandTest2/Assets/AutoHand/Scripts/Hand/Hand.cs:902-924 | With a GrabLock, nothing changes. Otherwise the hand ends released, and thrown is decided by whether the object is off the grabbing layer. |
| Interaction.Hand.States | AutoHandTest2/Assets/AutoHand/Scripts/Hand/Hand.cs:582-587 | The latches of every trigger area the hand is in. |
| Interaction.Hand.Outcome | AutoHandTest2/Assets/AutoHand/Scripts/Hand/Hand.cs:582-587 | Areas before the first throw take the action; the rest keep their latches. |
| Interaction.Hand.AreasAct | AutoHandTest2/Assets/AutoHand/Scripts/Hand/Hand.cs:582-587 | The foreach over trigger areas stops at the first throw and leaves exactly `Outcome`. |
| Interaction.Hand.Grab | AutoHandTest2/Assets/AutoHand/Scripts/Hand/Hand.cs:580-602 | The trigger-grab event fires, and the areas act (a throw from them is caught). Then the press runs, and its own exception, a hit without a grabbable, is reported and not caught. |
| Interaction.Hand.GrabPressed | AutoHandTest2/Assets/AutoHand/Scripts/Hand/Hand.cs:589-601 | At most one effect. A grab starts only when neither grabbing nor holding and every hit has a grabbable, and then on the hit the comparison as written keeps (`ClosestAsWritten`). While holding, only the GrabLock press fires. |
| Interaction.Hand.GrabPress | AutoHandTest2/Assets/AutoHand/Scripts/Hand/Hand.cs:589-601 | Hand state is unchanged. It throws exactly when the empty, non-grabbing hand has a hit without a grabbable, which `HandClosestHit` dereferences at Hand.cs:1445. The log gains exactly `GrabPressed`: a GrabObject start on the hit `HandClosestHit` keeps, when the direction is not zero, the hit has a grabbable and the hand is active; or the GrabLock press. |
| Interaction.Hand.GrabHit | AutoHandTest2/Assets/AutoHand/Scripts/Hand/Hand.cs:605-611 | A distance grab starts exactly when the hand is free, `CanGrab` holds and the body is free. |
| Interaction.Hand.GrabObjectEntry | AutoHandTest2/Assets/AutoHand/Scripts/Hand/Hand.cs:648-663 | Refused iff not `CanGrab`. Waits iff another grab is in progress. Swaps hands (everyone released) iff the object is single-handed and held. Otherwise nothing changes. |
| Interaction.Hand.TakeHold | AutoHandTest2/Assets/AutoHand/Scripts/Hand/Hand.cs:665-676 | Unhighlights, clears the pose area, takes the object, and marks it being grabbed. Under `parentOnGrab` the body and jointed bodies end under the hand's parent. |
| Interaction.Hand.BeginGrab | AutoHandTest2/Assets/AutoHand/Scripts/Hand/Hand.cs:665-691 | The first grab step: hold, move the object's layers to grabbing, set the grab point, grabbing on, rotation frozen. Under `parentOnGrab` the body and jointed bodies end under the hand's parent. |
| Interaction.Hand.AbortGrab | AutoHandTest2/Assets/AutoHand/Scripts/Hand/Hand.cs:793-800 | When the object was taken away mid-grab, the connection is broken and the start object is no longer being grabbed. Freezes and grabbing clear. |
| Interaction.Hand.ConnectGrab | AutoHandTest2/Assets/AutoHand/Scripts/Hand/Hand.cs:793-862 | Aborts on a lost object. Otherwise joints, the grabbed event and `OnGrab`: the hand joins `heldBy` once, and the grab lock is set. |
| Interaction.Hand.FinishGrab | AutoHandTest2/Assets/AutoHand/Scripts/Hand/Hand.cs:879-892 | Aborts on a lost object. Otherwise the hold stays, and grabbing and the freezes clear. |
| Interaction.Hand.Release | AutoHandTest2/Assets/AutoHand/Scripts/Hand/Hand.cs:897-925 | The areas release first; a throw there ends the call. A GrabLock leaves hand and object untouched. Otherwise the hand ends released and the object loses it. |
| Interaction.Hand.Squeeze | AutoHandTest2/Assets/AutoHand/Scripts/Hand/Hand.cs:967-975 | Notifies the object, then the areas. Squeezing is set unless an area threw. |
| Interaction.Hand.Unsqueeze | AutoHandTest2/Assets/AutoHand/Scripts/Hand/Hand.cs:978-987 | Squeezing clears first; then the object and the areas are notified. |
| Interaction.Hand.OnJointBreak | AutoHandTest2/Assets/AutoHand/Scripts/Hand/Hand.cs:995-1002 | Ends empty-handed. The object's break event fires under its pull-apart rule. |
| Interaction.Hand.OnCollisionEnter | AutoHandTest2/Assets/AutoHand/Scripts/Hand/Hand.cs:365-373 | The collision multiset gains one. Touch fires only on the first contact with an object. |
| Interaction.Hand.OnCollisionExit | AutoHandTest2/Assets/AutoHand/Scripts/Hand/Hand.cs:376-384 | The multiset loses one. Untouch fires only when the last contact ends. |
| Interaction.Hand.CountFor | AutoHandTest2/Assets/AutoHand/Scripts/Hand/Hand.cs:391-423 | A count is at least 1 exactly for areas in the list; the parallel lists stay aligned. |
| Interaction.Hand.AreaEnter | AutoHandTest2/Assets/AutoHand/Scripts/Hand/Hand.cs:391-401 | The area's count goes up by one and other counts stay. `Enter` is called only when the area is first added. |
| Interaction.Hand.OnTriggerEnter | AutoHandTest2/Assets/AutoHand/Scripts/Hand/Hand.cs:386-402 | Logs the trigger start and counts the area, if any. |
| Interaction.Hand.DelayTriggerExit | AutoHandTest2/Assets/AutoHand/Scripts/Hand/Hand.cs:410-425 | The count goes down by one. At zero the entry leaves both lists and `Exit` is called; otherwise the area is untouched. |
| Interaction.Hand.OnTriggerExit | AutoHandTest2/Assets/AutoHand/Scripts/Hand/Hand.cs:404-408 | Logs the trigger stop before the delayed exit. |
| Interaction.Hand.CheckEnterPoseArea | AutoHandTest2/Assets/AutoHand/Scripts/Hand/Hand.cs:1293-1320 | A new pose area with a pose for this side is applied with count 1. Re-entering the current one adds to the count. |
| Interaction.Hand.CheckExitPoseArea | AutoHandTest2/Assets/AutoHand/Scripts/Hand/Hand.cs:1323-1337 | Leaving the current area decrements the count. At zero the area clears, and the saved pose is restored if the hand is empty. |
| Interaction.Hand.ClearPoseArea | AutoHandTest2/Assets/AutoHand/Scripts/Hand/Hand.cs:1339-1342 | No pose area, count 0. |
| Interaction.Hand.FollowDistance | AutoHandTest2/Assets/AutoHand/Scripts/Hand/Hand.cs:455-493 | The far-away counter advances by `NextTryCount`. The held object is force-released exactly when `ForceReleases` holds. |
| Player.DeadzoneAxis | AutoHandTest2/Assets/AutoHand/Scripts/Movement/HandPlayer.cs:257-264 | Zero when the magnitude is at most 0.2, copied otherwise. Never larger than the input. |
| Player.SnapStep | AutoHandTest2/Assets/AutoHand/Scripts/Movement/HandPlayer.cs:479-495 | Rotates iff the latch is set and the magnitude exceeds 0.6, positive iff the axis is above 0.6. The latch re-arms below 0.3 and clears after a rotation. |
| Player.SnapOncePerReset | AutoHandTest2/Assets/AutoHand/Scripts/Movement/HandPlayer.cs:479-495 | While the stick stays at or above 0.3, at most one snap happens, and none if the latch starts cleared. |
| Player.SnapHeldStick | AutoHandTest2/Assets/AutoHand/Scripts/Movement/HandPlayer.cs:479-495 | A stick pushed past 0.6 and held snaps exactly once. |
| Player.SetBit | AutoHandTest2/Assets/AutoHand/Scripts/Movement/HandPlayer.cs:962 | OR-ing bit i sets bit i and keeps every other bit. |
| Player.GetPhysicsLayerMask | AutoHandTest2/Assets/AutoHand/Scripts/Movement/HandPlayer.cs:958-965 | Bit j, for 0 <= j < 32, is set iff collision between the layer and j is not ignored. |
| Player.HandPlayer.constructor | AutoHandTest2/Assets/AutoHand/Scripts/Movement/HandPlayer.cs:50-111 | Climbing, pushing, platforms and snap turning on, turn speed 15, latch armed, registries empty. |
| Player.HandPlayer.LeftCount | AutoHandTest2/Assets/AutoHand/Scripts/Movement/HandPlayer.cs:627-661 | The left count is at least 1 exactly for keys of `pushLeft`; the two dictionaries share keys. |
| Player.HandPlayer.RightCount | AutoHandTest2/Assets/AutoHand/Scripts/Movement/HandPlayer.cs:638-668 | The right count is 1 exactly for keys of `pushRight`, and never exceeds 1. |
| Player.HandPlayer.IsClimbing | AutoHandTest2/Assets/AutoHand/Scripts/Movement/HandPlayer.cs:805-813 | True iff some climbed object is enabled. |
| Player.HandPlayer.IsPushing | AutoHandTest2/Assets/AutoHand/Scripts/Movement/HandPlayer.cs:749-761 | True iff some pushed object on either side is enabled. |
| Player.HandPlayer.StartPush | AutoHandTest2/Assets/AutoHand/Scripts/Movement/HandPlayer.cs:623-648 | A no-op while climbing, when pushing is disabled, or for a missing or disabled object. Left: the count goes up by one. Right: added once with count 1. |
| Player.HandPlayer.StopPush | AutoHandTest2/Assets/AutoHand/Scripts/Movement/HandPlayer.cs:650-670 | Left: the count goes down by one and the entry leaves at zero. Right: one stop removes the entry. |
| Player.HandPlayer.StartGrabPush | AutoHandTest2/Assets/AutoHand/Scripts/Movement/HandPlayer.cs:714-733 | The same gate. Either side is added once with count 1. |
| Player.HandPlayer.EndGrabPush | AutoHandTest2/Assets/AutoHand/Scripts/Movement/HandPlayer.cs:735-747 | The object leaves both dictionaries of its side. |
| Player.HandPlayer.StartClimb | AutoHandTest2/Assets/AutoHand/Scripts/Movement/HandPlayer.cs:765-780 | A hand is added at most once, only for an enabled climbable. The first climber clears all four push dictionaries. |
| Player.HandPlayer.EndClimb | AutoHandTest2/Assets/AutoHand/Scripts/Movement/HandPlayer.cs:782-790 | The hand stops climbing. |
| Player.HandPlayer.DisableHand | AutoHandTest2/Assets/AutoHand/Scripts/Movement/HandPlayer.cs:229-253 | The hand leaves climbing, and its side's push dictionaries are cleared. |
| Player.HandPlayer.PlatformCount | AutoHandTest2/Assets/AutoHand/Scripts/Movement/HandPlayer.cs:834-869 | A count is at least 1 exactly for listed platforms; all four platform collections share one key set. |
| Player.HandPlayer.OnTriggerEnter | AutoHandTest2/Assets/AutoHand/Scripts/Movement/HandPlayer.cs:834-850 | The platform count goes up by one. A first entry records position and rotation. |
| Player.HandPlayer.OnTriggerExit | AutoHandTest2/Assets/AutoHand/Scripts/Movement/HandPlayer.cs:852-869 | The count goes down by one, or all four entries are removed when it would reach 0. |
| Player.HandPlayer.ForgetPlatform | AutoHandTest2/Assets/AutoHand/Scripts/Movement/HandPlayer.cs:858-862 | All four collections drop the platform together. |
| Player.HandPlayer.Move | AutoHandTest2/Assets/AutoHand/Scripts/Movement/HandPlayer.cs:256-265 | x comes from `axis.x` and z from `axis.y`, each deadzoned at 0.2. y is untouched. |
| Player.HandPlayer.Turn | AutoHandTest2/Assets/AutoHand/Scripts/Movement/HandPlayer.cs:268-270 | Records the turn axis. |
| Player.HandPlayer.UpdateTurn | AutoHandTest2/Assets/AutoHand/Scripts/Movement/HandPlayer.cs:477-505 | Snap: one `SnapStep`, rotating by plus or minus `turnSpeed` and relocating the hands. Smooth: the axis is deadzoned at 0.6 and the rotation angle is logged. |
| DistanceGrab.DistanceGrabbable.constructor | AutoHandTest2/Assets/AutoHand/Scripts/Grabbable/DistanceGrabbable.cs:13-83 | The flags the grabber reads start targetable, not instant, with no materials. |
| DistanceGrab.CatchGrabsPending | AutoHandTest2/Assets/AutoHand/Scripts/Hand/HandDistanceGrabber.cs:290-304 | A catch-assist check grabs only pending objects, each as a distance grab at the point where it was caught. |
| DistanceGrab.CatchGrabsSnoc | AutoHandTest2/Assets/AutoHand/Scripts/Hand/HandDistanceGrabber.cs:292-302 | Each list entry adds its own grab, in list order. |
| DistanceGrab.CatchGrabsAfterHold | AutoHandTest2/Assets/AutoHand/Scripts/Hand/Hand.cs:605-610 | Once a started grab has left the hand holding its object, later entries add no grab, because the hand's gate refuses them. |
| DistanceGrab.CatchGrabsStopAtHold | AutoHandTest2/Assets/AutoHand/Scripts/Hand/HandDistanceGrabber.cs:290-304 | The first caught object whose distance grab reaches no wait is the last one grabbed. |
| DistanceGrab.HandDistanceGrabber.constructor | AutoHandTest2/Assets/AutoHand/Scripts/Hand/HandDistanceGrabber.cs:31-96 | Defaults: threshold 7, distance 0.1, radius 0.2. The start look-assist speed is taken from the hand. Nothing is targeted or selected. |
| DistanceGrab.HandDistanceGrabber.GetSelectedMaterial | AutoHandTest2/Assets/AutoHand/Scripts/Hand/HandDistanceGrabber.cs:279-283 | None under `ignoreHighlights`; otherwise the object's selected material, else the default. |
| DistanceGrab.HandDistanceGrabber.GetTargetedMaterialAsWritten | AutoHandTest2/Assets/AutoHand/Scripts/Hand/HandDistanceGrabber.cs:284-288 | As written: the targeted material is returned whenever the selected one is set. |
| DistanceGrab.HandDistanceGrabber.GetTargetedMaterial | AutoHandTest2/Assets/AutoHand/Scripts/Hand/HandDistanceGrabber.cs:284-288 | Corrected: the object's targeted material when set, else the default; none under `ignoreHighlights`. |
| DistanceGrab.HandDistanceGrabber.TargetedMaterialDiscrepancy | AutoHandTest2/Assets/AutoHand/Scripts/Hand/HandDistanceGrabber.cs:284-288 | The two getters differ exactly when highlights are on and either only the selected material is set (with a default targeted material), or only the targeted material is set and differs from the default. |
| DistanceGrab.HandDistanceGrabber.AsWrittenIgnoresTargetedMaterial | AutoHandTest2/Assets/AutoHand/Scripts/Hand/HandDistanceGrabber.cs:284-288 | Given a targeted material and no selected one, the as-written getter returns the default. |
| DistanceGrab.HandDistanceGrabber.SetInstantPull | AutoHandTest2/Assets/AutoHand/Scripts/Hand/HandDistanceGrabber.cs:98-100 | Instant pull on. |
| DistanceGrab.HandDistanceGrabber.SetPull | AutoHandTest2/Assets/AutoHand/Scripts/Hand/HandDistanceGrabber.cs:102-106 | Not instant, not flick, the distance as given. |
| DistanceGrab.HandDistanceGrabber.SetFlickPull | AutoHandTest2/Assets/AutoHand/Scripts/Hand/HandDistanceGrabber.cs:108-112 | Not instant, flick on, the threshold as given. |
| DistanceGrab.HandDistanceGrabber.StartPointing | AutoHandTest2/Assets/AutoHand/Scripts/Hand/HandDistanceGrabber.cs:175-179 | Pointing on, look assist 0. |
| DistanceGrab.HandDistanceGrabber.StopPointing | AutoHandTest2/Assets/AutoHand/Scripts/Hand/HandDistanceGrabber.cs:181-190 | Pointing off, target cleared and unhighlighted, look assist restored. |
| DistanceGrab.HandDistanceGrabber.StopTargeting | AutoHandTest2/Assets/AutoHand/Scripts/Hand/HandDistanceGrabber.cs:204-209 | Always leaves no target; the old one is unhighlighted. |
| DistanceGrab.HandDistanceGrabber.StartTargeting | AutoHandTest2/Assets/AutoHand/Scripts/Hand/HandDistanceGrabber.cs:194-202 | Replaces the target only if it is targetable and the hand can grab it; otherwise nothing changes. A new object is highlighted with what `GetTargetedMaterialAsWritten` returns: its targeted material only when its selected material is set, otherwise the default. The previous object is unhighlighted. |
| DistanceGrab.HandDistanceGrabber.SelectTarget | AutoHandTest2/Assets/AutoHand/Scripts/Hand/HandDistanceGrabber.cs:211-227 | With a target: pulling on, selecting it, target cleared, pointing off, highlighted with the selected material. Without a target: a no-op. |
| DistanceGrab.HandDistanceGrabber.CancelSelect | AutoHandTest2/Assets/AutoHand/Scripts/Hand/HandDistanceGrabber.cs:229-235 | Pulling off, nothing selected, the selection unhighlighted. |
| DistanceGrab.HandDistanceGrabber.OnPrimaryBeforeGrabbed | AutoHandTest2/Assets/AutoHand/Scripts/Hand/HandDistanceGrabber.cs:91 | When the hand starts a grab, pointing, targeting and selection all stop and the look assist is restored. The target and the selection are unhighlighted and told, in that order. |
| DistanceGrab.HandDistanceGrabber.ActivatePull | AutoHandTest2/Assets/AutoHand/Scripts/Hand/HandDistanceGrabber.cs:236-251 | `PullDone` of the old selection. With nothing selected nothing changes. Otherwise the pull events fire and the selection ends. An instant pull is offered to the hand's `Grab(hit, grab)` at the selection point. When that grab reaches no wait, the OnBeforeGrabbed handler runs inside the call: pointing stops, the target goes and `SelectStopped` fires twice. Any other pull registers catch assist and launches the object. |
| DistanceGrab.HandDistanceGrabber.TryDistancePull | AutoHandTest2/Assets/AutoHand/Scripts/Hand/HandDistanceGrabber.cs:254-258 | When the hand moved farther than `pullGrabDistance`, the pull happens with all its effects (`PullDone`). Otherwise nothing changes, the hand's log included. |
| DistanceGrab.HandDistanceGrabber.TryFlickPull | AutoHandTest2/Assets/AutoHand/Scripts/Hand/HandDistanceGrabber.cs:260-274 | When something is selected and the flick speed exceeds the threshold, the pull happens with all its effects (`PullDone`). Otherwise nothing changes, the hand's log included. |
| DistanceGrab.HandDistanceGrabber.CheckDistanceGrabbable | AutoHandTest2/Assets/AutoHand/Scripts/Hand/HandDistanceGrabber.cs:125-170 | A frame that is neither pointing nor pulling with an empty hand leaves no target. Pointing retargets to an eligible new hit; a refused or repeated hit keeps the target; a miss clears it. Pulling either fires the pull with all its effects (`PullDone`) or changes nothing. |
| DistanceGrab.HandDistanceGrabber.Update | AutoHandTest2/Assets/AutoHand/Scripts/Hand/HandDistanceGrabber.cs:114-123 | When instant pull switches on, flick turns off and the distance becomes 0. |
| DistanceGrab.HandDistanceGrabber.TryCatchAssist | AutoHandTest2/Assets/AutoHand/Scripts/Hand/HandDistanceGrabber.cs:290-304 | The loop starts exactly the grabs `CatchGrabs` lists: the caught entries the hand's gate admits, up to and including the first whose grab takes hold within the call. |
| DistanceGrab.HandDistanceGrabber.EndCatchAssist | AutoHandTest2/Assets/AutoHand/Scripts/Hand/HandDistanceGrabber.cs:307-319 | The entry leaves the catch-assist list once. |

## Left out

- Physics and rendering are not modelled. Velocities and the look-assist speed are stored values; rigid-body simulation, joints, drag, PD torque, finger bending, pose interpolation and the line renderer are absent.
- Raycasts, sphere casts and the palm ray set are inputs: hit lists, `didHit` with a target and point, the `caughtAt` points of catch assist, and the "far away" flag of `MoveTo`. So are the moved distance and flick speed of the distance grabber (its `lastRotation` arithmetic), and `Time.time`.
- Coroutine timing is not modelled. `GrabObject` is split into its entry gate, its start, its connection, its finish and its abort paths. The waiting for frames, grab-return motion, `maintainGrabOffset` offsets, `ignoreWeight` followers and posing between those steps are left out. Likewise `ResetLayer` is the step that runs when its delay has passed, and `DelayTriggerExit` is the step after its frame.
- `Interaction.Hand.UpdateThrowing`: the body and angular velocities sampled are the stored fields; how Unity updates them is left out.
- `Player.HandPlayer.UpdateTurn`: the smooth branch logs the rotation angle but applies no rotation, since the transform is not modelled. `SmoothAngle` names the product of frame time, speed and axis.
- `DistanceGrab.HandDistanceGrabber.Update`: states only the instant-pull synchronisation; the per-frame raycast, line rendering and dispatch to `CheckDistanceGrabbable` are taken as given.
- `DistanceGrab.HandDistanceGrabber.TryCatchAssist`: whether an entry was caught (distance within the radius and the ray hitting that object) is an input; the distance test itself is not modelled. A distance grab that reaches no wait runs through GrabObject within the call: the hand takes hold, `OnGrab` fires, and its listener removes the entry from `catchAssisted` in the middle of the loop. None of that is run inside the loop. A local flag stands for the hand's `holdingObj`, so later entries start nothing, which is what the hand's gate does; the list removal is `EndCatchAssist`. When the catching hand is the primary hand, its OnBeforeGrabbed handler (`OnPrimaryBeforeGrabbed`) also runs within that grab; it is not run inside the loop either.
- `Interaction.Grabbable.SetOriginalParent`: restores only the grabbable's own body. The loop at Grabbable.cs:596-603 is not modelled. That loop puts each unstabbed jointed body back under `jointedParents[i]`, and its swallowed out-of-range error ends it at the first index past `jointedParents`. Jointed bodies would otherwise enter the frame of every release and force-release path. The model therefore leaves jointed bodies under the hand's parent after a release.
- `DistanceGrab.HandDistanceGrabber.EndCatchAssist`: the source unsubscribes a fresh lambda (HandDistanceGrabber.cs:314-316), which in C# removes nothing. The model states only the list removal and leaves the subscription list out.
- `HandTriggerAreaEvents.Update` is left out, because it removes from `hands` while iterating over it.
- Scene plumbing is left out: `HandPlayer` grounding, height, head follower, platform following, pushing and climbing forces; `Grabbable.OnAwake` discovery, mesh-copy highlighting and PlacePoint logic; `DistanceGrabbable` trajectory maths.
- Editor and UI tooling is left out: the setup wizard, the canvas pointer and the input module.
- GrabLock, PlacePoint, Stabbable, GrabbableChild and HandPoseArea are not part of this model beyond the flags the core reads (`hasGrabLock`, `stabbedCount`, the pose area's side poses and count).
- Integer widths: counts are unbounded `int`; the layer mask is modelled as `bv32`, matching the 32 Unity layers.

## Findings

| source | as written | input that shows it | evidently intended | confidence | as-written member | corrected member |
|---|---|---|---|---|---|---|
| AutoHandTest2/Assets/AutoHand/Scripts/Hand/Hand.cs:1441-1445 | A candidate hit is weighted by its grabbable's `grabDistancePriority`, but the current best is compared by its distance times its ray weight only | Hits (distance 1.0, priority 2.0) then (distance 1.5, priority 1.0): weighted 2.0 versus 1.5375, yet the first is kept because 1.5375 < 1.0 fails | Both sides compared by weighted distance, so the least weighted hit wins | not executed | ClosestHit.AsWrittenIgnoresCurrentPriority | ClosestHit.ChosenMinimal |
| AutoHandTest2/Assets/AutoHand/Scripts/Hand/HandDistanceGrabber.cs:284-288 | `GetTargetedMaterial` tests `selectedMaterial != null` before returning `targetedMaterial` | `selectedMaterial` null, `targetedMaterial` m, default targeted material not m: the default is returned instead of m | Test `targetedMaterial != null`, as `GetSelectedMaterial` does for its own field | not executed | DistanceGrab.HandDistanceGrabber.AsWrittenIgnoresTargetedMaterial | DistanceGrab.HandDistanceGrabber.GetTargetedMaterial |
