# Gameplay core of the SFML shoot-em-up, in Dafny

This project models the gameplay core of the "07_Gameplay" stage of the SFML
game: the player's aircraft and the enemies (`Aircraft`), the player's input
bindings (`Player`), the menu widgets (`GUI::Button` and `GUI::Container`),
the playing screen that walks through three levels (`GameState`), and the
game-over screen (`GameOverState`). The model proves properties of each part.

Every effect an aircraft or the player has on the world is a command that
goes onto the shared command queue. The model keeps the queue as a sequence
of commands and states, for every operation, exactly which commands it
appends. The screens talk to the state stack through push, pop and clear
requests. The model keeps those requests as a sequence too.

Modules, one per file:

- `Input` (input.dfy): the SFML 2 key and mouse-button codes and the events
  the core reacts to.
- `Commands` (commands.dfy): command categories, sound cues, player actions,
  commands, and the command queue.
- `Geometry` (geometry.dfy): vectors and the half-open `sf::Rect::contains`.
- `Bindings` (bindings.dfy): the ordered key/button → action tables and the
  erase-then-bind update behind `assignKey` and `assignButton`.
- `PlayerInput` (player.dfy): class `Player` and the commands its two input
  paths push.
- `Aircrafts` (aircraft.dfy): class `Aircraft`, holding upgrades,
  ammunition, the gun countdown, launches, the destroyed branch, the patrol
  legs and the seek mode.
- `Gui` (gui.dfy): class `Button` and class `Container`, with the
  wrap-around selection search, mouse hits and the joystick debounce.
- `GameFlow` (gameflow.dfy):
  - class `GameState` and class `GameOverState`;
  - the level progression as functions of one tick's outcome;
  - the requests both screens make of the state stack.

Two observations are proved rather than assumed:

- A finished level 3 reports `MissionSuccess`, and nothing in this core ever
  sets `MissionWin`. So the game-over screen's "You win!" caption and its
  `MissionWin` branch are never reached after a game: see `RunNeverWins` and
  the last clause of `ExitShape`.
- After a won game, the game-over screen pops itself instead of returning to
  the menu.

Two defects of `Container` are listed under Findings. Each is modelled as
written beside a corrected definition, and the rest of the model uses the
corrected one: the joystick button is acted on only when there is a
selection, and the selection search stops after one lap.

Time is `sf::Time`'s count of microseconds, held in an `int`. Distances,
speeds, joystick axes and screen coordinates are held as `real`.

## Model

| member | source | states |
|---|---|---|
| Aircrafts.CappedIncrementsSaturate | Base/07_Gameplay/Source/Aircraft.cpp:203-213 | n upgrade calls from a level at or below the cap raise it by n, but never past the cap (10 for fire rate, 3 for spread) |
| Aircrafts.NextLegs | Base/07_Gameplay/Source/Aircraft.cpp:288-291 | any number of leg changes keeps the leg cursor below the number of legs |
| Aircrafts.NextLegsCycle | Base/07_Gameplay/Source/Aircraft.cpp:288-291 | k ≤ n leg changes from leg i land on leg i + k wrapped once; after n changes the aircraft is back on leg i |
| Aircrafts.BulletPattern | Base/07_Gameplay/Source/Aircraft.cpp:352-373 | a volley has as many bullets as the spread level (none outside 1..3), is mirror-symmetric about the aircraft's axis, has one centred bullet when odd, and every bullet leaves ahead of the aircraft |
| Aircrafts.LaunchCommandsContents | Base/07_Gameplay/Source/Aircraft.cpp:311-350 | a launch check queues a volley with its cue exactly when the gun goes off, a missile exactly when one was requested, an energy ball exactly when one was requested, two commands each, the gunfire cue matching the side, and never a pickup |
| Aircrafts.CheckSeekBounds | Base/07_Gameplay/Source/Aircraft.cpp:160-168 | the capture zone is the half-open 20×20 square centred horizontally on the target with its top edge on it |
| Aircrafts.Aircraft.constructor | Base/07_Gameplay/Source/Aircraft.cpp:21-51 | a new aircraft has its type's hitpoints, no intents, levels 1 and 1, 2 missiles, 20 energy, leg 0 and seeking off, and satisfies the invariant |
| Aircrafts.Aircraft.IsAllied | Base/07_Gameplay/Source/Aircraft.cpp:193-196 | only the Eagle is allied |
| Aircrafts.Aircraft.GetCategory | Base/07_Gameplay/Source/Aircraft.cpp:175-181 | the category is the player's aircraft exactly when allied and an enemy aircraft exactly when not |
| Aircrafts.Aircraft.IncreaseFireRate | Base/07_Gameplay/Source/Aircraft.cpp:203-207 | one capped step up of the fire-rate level; the level stays within 1..10 |
| Aircrafts.Aircraft.IncreaseSpread | Base/07_Gameplay/Source/Aircraft.cpp:209-213 | one capped step up of the spread level; the level stays within 1..3 |
| Aircrafts.Aircraft.CollectMissiles | Base/07_Gameplay/Source/Aircraft.cpp:215-218 | missile ammunition grows by exactly the count collected |
| Aircrafts.Aircraft.CollectEnergy | Base/07_Gameplay/Source/Aircraft.cpp:220-223 | energy grows by exactly the count collected |
| Aircrafts.Aircraft.Fire | Base/07_Gameplay/Source/Aircraft.cpp:225-230 | the fire intent is set exactly when the type has a non-zero fire interval, and is otherwise kept |
| Aircrafts.Aircraft.LaunchMissile | Base/07_Gameplay/Source/Aircraft.cpp:232-239 | with ammunition left, a missile is requested and paid for at once; with none, nothing changes |
| Aircrafts.Aircraft.LaunchEnergy | Base/07_Gameplay/Source/Aircraft.cpp:241-249 | with energy left, an energy ball is requested and paid for at once; with none, nothing changes |
| Aircrafts.Aircraft.CheckProjectileLaunch | Base/07_Gameplay/Source/Aircraft.cpp:311-350 | enemies always intend to fire; the gun goes off only on an expired countdown, which then grows by interval/(level+1), otherwise it runs down by dt; the queue gains exactly the launch commands; every intent is cleared |
| Aircrafts.Aircraft.ServiceGun | Base/07_Gameplay/Source/Aircraft.cpp:317-331 | the gun branch: the volley and cue are queued exactly when the intent is set and the countdown has expired, and the countdown moves as the branch says |
| Aircrafts.Aircraft.ServiceLaunches | Base/07_Gameplay/Source/Aircraft.cpp:333-349 | a requested missile, then a requested energy ball, is queued with the launch cue, and both requests are cleared |
| Aircrafts.Aircraft.UpdateMovementPattern | Base/07_Gameplay/Source/Aircraft.cpp:281-303 | without legs nothing changes; otherwise, once the distance flown exceeds the leg's length, the cursor moves to the next leg and the count restarts, and then this tick's distance at full speed is added |
| Aircrafts.Aircraft.CheckPickupDrop | Base/07_Gameplay/Source/Aircraft.cpp:305-309 | exactly one pickup is queued for an enemy whose roll (of three) is zero, and nothing otherwise |
| Aircrafts.Aircraft.UpdateCurrent | Base/07_Gameplay/Source/Aircraft.cpp:104-133 | a destroyed aircraft may drop a pickup, queues its explosion cue only if it has not yet done so, is marked for removal and changes nothing else; a live one runs the launch check and then advances along its patrol exactly as the movement update does (next leg once the current one is flown, distance at full speed added); hitpoints, upgrades and ammunition are untouched |
| Aircrafts.UpdateWhileDestroyed | Base/07_Gameplay/Source/Aircraft.cpp:106-121 | over any number of updates while destroyed, whatever the random draws, the aircraft queues exactly one explosion cue in its life and ends marked for removal |
| Aircrafts.DestroyedTick | Base/07_Gameplay/Source/Aircraft.cpp:106-121 | one update while destroyed adds one explosion cue if none was played before and none otherwise |
| Aircrafts.Aircraft.SetSeek | Base/07_Gameplay/Source/Aircraft.cpp:135-139 | seeking is armed towards the mouse position |
| Aircrafts.Aircraft.SeekTarget | Base/07_Gameplay/Source/Aircraft.cpp:141-147 | seeking is disarmed and the target forgotten exactly when the position is inside the capture zone; otherwise the seek state is kept |
| Aircrafts.Aircraft.StopSeek | Base/07_Gameplay/Source/Aircraft.cpp:149-153 | seeking is disarmed and the target reset to the origin |
| Aircrafts.Aircraft.IsSeek | Base/07_Gameplay/Source/Aircraft.cpp:155-158 | reports whether seeking is armed |
| Aircrafts.Aircraft.GetTarget | Base/07_Gameplay/Source/Aircraft.cpp:170-173 | reports the captured target |
| Bindings.Unbind | Base/07_Gameplay/Source/Player.cpp:131-138 | erasing an action leaves no code bound to it, keeps every other binding, and adds none |
| Bindings.EraseAction | Base/07_Gameplay/Source/Player.cpp:131-138 | the in-order erase loop computes exactly the unbound table |
| Bindings.Rebind | Base/07_Gameplay/Source/Player.cpp:129-142 | after assigning, the new code is the only one bound to the action, and every other code keeps its binding unless it was bound to that action |
| Bindings.FirstBound | Base/07_Gameplay/Source/Player.cpp:144-153 | the lookup returns the least code bound to the action, or the sentinel when no code other than the sentinel is bound (a binding of the sentinel code itself reads back as the sentinel) |
| Bindings.LookupAfterRebind | Base/07_Gameplay/Source/Player.cpp:129-153 | round trip: after assigning a code to an action, looking the action up finds that code |
| Bindings.LookupOtherAfterRebind | Base/07_Gameplay/Source/Player.cpp:129-153 | assigning one action leaves the lookup of every other action unchanged, unless that lookup found the reassigned code |
| PlayerInput.IsRealtimeAction | Base/07_Gameplay/Source/Player.cpp:178-194 | every action except launching a missile or an energy ball is fed in real time |
| PlayerInput.EventCommands | Base/07_Gameplay/Source/Player.cpp:54-73 | a key press pushes its bound action exactly when that action is not realtime; a mouse press pushes its bound action exactly in mouse mode and when the action is realtime; nothing else pushes; at most one command, aimed at the player's aircraft |
| PlayerInput.RealtimeCommandsShape | Base/07_Gameplay/Source/Player.cpp:75-91 | the realtime scan pushes at most one command per key, each a realtime action for the player's aircraft, and no move while the mouse steers |
| PlayerInput.RealtimeCommandsExactly | Base/07_Gameplay/Source/Player.cpp:75-91 | an action is pushed by the scan exactly when some held key is bound to it, it is realtime, and it is not a move suppressed by mouse control |
| PlayerInput.KeyPathsDisjoint | Base/07_Gameplay/Source/Player.cpp:54-91 | a key binding is served by exactly one of the two paths: an action a key press pushes is never also pushed by the scan, and every non-realtime binding is pushed on its press |
| PlayerInput.Player.constructor | Base/07_Gameplay/Source/Player.cpp:32-52 | the default key table (arrows, Space, M, E), the left button for seeking, the mission running, keyboard control, and every action bound to a command for the player's aircraft |
| PlayerInput.Player.HandleEvent | Base/07_Gameplay/Source/Player.cpp:54-73 | the queue gains exactly the commands the event calls for |
| PlayerInput.Player.HandleRealtimeInput | Base/07_Gameplay/Source/Player.cpp:75-91 | the queue gains exactly the scan's commands, in key order |
| PlayerInput.Player.IsMouse | Base/07_Gameplay/Source/Player.cpp:93-96 | reports whether the mouse steers |
| PlayerInput.Player.SetMouse | Base/07_Gameplay/Source/Player.cpp:98-101 | sets mouse control and leaves the bindings and the mission status alone |
| PlayerInput.Player.AssignButton | Base/07_Gameplay/Source/Player.cpp:103-116 | the button table becomes the rebound table, and the lookup of the action then returns the new button |
| PlayerInput.Player.GetAssignedButton | Base/07_Gameplay/Source/Player.cpp:118-127 | the least button bound to the action, or ButtonCount when no button other than ButtonCount is bound |
| PlayerInput.Player.AssignKey | Base/07_Gameplay/Source/Player.cpp:129-142 | the key table becomes the rebound table; the lookup of the action returns the new key; every other action's lookup is unchanged unless it found that key |
| PlayerInput.Player.GetAssignedKey | Base/07_Gameplay/Source/Player.cpp:144-153 | the least key bound to the action, or Unknown when no key other than Unknown is bound |
| PlayerInput.Player.SetMissionStatus | Base/07_Gameplay/Source/Player.cpp:155-158 | stores the mission status |
| PlayerInput.Player.GetMissionStatus | Base/07_Gameplay/Source/Player.cpp:160-163 | reports the mission status |
| Gui.Button.constructor | Base/07_Gameplay/Source/Button.cpp:14-30 | a new button is neither selected, active, toggle nor hidden, shows the normal texture at full opacity, and has no callback |
| Gui.Button.SetCallback | Base/07_Gameplay/Source/Button.cpp:32-35 | the button has a callback |
| Gui.Button.SetToggle | Base/07_Gameplay/Source/Button.cpp:43-46 | sets the toggle flag |
| Gui.Button.IsSelectable | Base/07_Gameplay/Source/Button.cpp:48-54 | a button is selectable exactly when it is not hidden |
| Gui.Button.SetHide | Base/07_Gameplay/Source/Button.cpp:56-68 | sets the hidden flag, with alpha 100 while hidden and 255 while shown |
| Gui.Button.Select | Base/07_Gameplay/Source/Button.cpp:70-75 | selected, showing the selected texture |
| Gui.Button.Deselect | Base/07_Gameplay/Source/Button.cpp:77-82 | deselected, showing the normal texture |
| Gui.Button.Activate | Base/07_Gameplay/Source/Button.cpp:84-100 | the callback runs once if set and the button cue plays; a toggle shows the pressed texture and stays active, while any other button ends inactive with its texture unchanged |
| Gui.Button.Deactivate | Base/07_Gameplay/Source/Button.cpp:102-114 | inactive; a toggle falls back to the selected or normal texture as its selection calls for, and any other button keeps its texture |
| Gui.Button.CheckWorldBounds | Base/07_Gameplay/Source/Button.cpp:116-127 | the mouse hits the button exactly when it lies in the half-open rectangle of the sprite's size placed at the button's position |
| Gui.ScanForward | Base/07_Gameplay/Source/Container.cpp:157-161 | the forward search always ends on a shown child |
| Gui.ScanBackward | Base/07_Gameplay/Source/Container.cpp:172-176 | the backward search always ends on a shown child |
| Gui.ScanForwardNearest | Base/07_Gameplay/Source/Container.cpp:152-165 | the next selection is the nearest shown child after the current one, wrapping round: no shown child is fewer steps ahead |
| Gui.ScanBackwardNearest | Base/07_Gameplay/Source/Container.cpp:167-180 | the previous selection is the nearest shown child before the current one, wrapping round |
| Gui.ScanBackwardMirrors | Base/07_Gameplay/Source/Container.cpp:152-180 | searching backwards is the mirror image of searching forwards in the reversed list |
| Gui.FirstTrue | Base/07_Gameplay/Source/Container.cpp:125-149 | the first child in order under the mouse, or -1 exactly when there is none |
| Gui.StickFlagAfter | Base/07_Gameplay/Source/Container.cpp:73-93 | the debounce flag is down whenever the stick is within the sensitivity; an unforwarded stick event past it raises the flag; nothing else raises it |
| Gui.StickDebounce | Base/07_Gameplay/Source/Container.cpp:73-93 | while the stick stays past the sensitivity, it moves the selection at most once, and not at all if the flag was already up |
| Gui.StickRearms | Base/07_Gameplay/Source/Container.cpp:73-93 | once the stick has come back within the sensitivity, the next deflection moves the selection again |
| Gui.SelectionAfter | Base/07_Gameplay/Source/Container.cpp:42-84 | the selection after an event stays in range, is never lost once made, and changes only to a shown child; a move with every child hidden keeps it |
| Gui.SelectTarget | Base/07_Gameplay/Source/Container.cpp:109-165 | the child a reaction passes to select is shown and is the new selection: a move's search target whenever there is a selection and a shown child, the first child a click hit when it is shown; when there is none, the selection stays |
| Gui.ActivatedChild | Base/07_Gameplay/Source/Container.cpp:52-70 | a key or joystick-button activation activates exactly the selection before the event (none without one), and a click that hit a child activates exactly the selection after it; nothing else is ever activated |
| Gui.Container.constructor | Base/07_Gameplay/Source/Container.cpp:12-18 | no children, no selection, the debounce flag down |
| Gui.Container.IsSelectable | Base/07_Gameplay/Source/Container.cpp:28-31 | a container is never selectable itself |
| Gui.Container.CheckWorldBounds | Base/07_Gameplay/Source/Container.cpp:182-185 | a container is never hit by the mouse itself |
| Gui.Container.HasSelection | Base/07_Gameplay/Source/Container.cpp:104-107 | there is a selection exactly when the index is non-negative |
| Gui.Container.Select | Base/07_Gameplay/Source/Container.cpp:109-119 | a hidden child is ignored and no texture changes; otherwise the old selection is deselected and shows the normal texture, the child becomes the only selected one and shows the selected texture, and no other texture changes; no child is activated |
| Gui.Container.Pack | Base/07_Gameplay/Source/Container.cpp:20-26 | the child is appended, and it becomes the selection exactly when there was none and it is shown; earlier children are untouched |
| Gui.Container.SelectNext | Base/07_Gameplay/Source/Container.cpp:152-165 | without a selection nothing changes; otherwise the nearest shown child after the selection, wrapping round, is selected and shows the selected texture, the one it replaced shows the normal texture, exactly one child stays selected, no other texture changes and no child is activated; with every child hidden the selection and textures stay (corrected, see Findings) |
| Gui.Container.SearchNext | Base/07_Gameplay/Source/Container.cpp:157-161 | the do-while loop, stopped after one lap, finds what the forward search specifies, or comes back to the selection when every child is hidden |
| Gui.Container.SelectPrevious | Base/07_Gameplay/Source/Container.cpp:167-180 | without a selection nothing changes; otherwise the nearest shown child before the selection, wrapping round, is selected and shows the selected texture, the one it replaced shows the normal texture, no other texture changes and no child is activated; with every child hidden the selection and textures stay (corrected, see Findings) |
| Gui.Container.SearchPrevious | Base/07_Gameplay/Source/Container.cpp:172-176 | the do-while loop, stopped after one lap, finds what the backward search specifies, or comes back to the selection when every child is hidden |
| Gui.Container.SelectMouse | Base/07_Gameplay/Source/Container.cpp:123-150 | the result says whether any child is under the mouse; the first such child becomes the selection, with the selected texture and the replaced selection's texture normal, if it is shown; no child is activated and no other texture changes |
| Gui.Container.FirstHit | Base/07_Gameplay/Source/Container.cpp:125-149 | the loop finds the first child under the mouse, or -1 |
| Gui.Container.ActivateSelected | Base/07_Gameplay/Source/Container.cpp:52-56 | exactly the selected child, if any, is activated once, a toggle showing the pressed texture; every other child keeps its activation, callback count, cues and texture |
| Gui.Container.Move | Base/07_Gameplay/Source/Container.cpp:44-51 | a move reaction changes the selection and the two textures as the search specifies and activates nothing |
| Gui.Container.Click | Base/07_Gameplay/Source/Container.cpp:60-70 | a left click selects by mouse and then activates the selection exactly when a child was hit; textures follow the selection, and a hit toggle shows the pressed texture |
| Gui.Container.HandleKey | Base/07_Gameplay/Source/Container.cpp:42-57 | W/Up moves back, S/Down moves forward, Return/Space activates the selection, and other keys do nothing |
| Gui.Container.HandleStick | Base/07_Gameplay/Source/Container.cpp:73-84 | a deflection past the sensitivity moves the selection (down forward, up back) and raises the debounce flag; a smaller one does nothing |
| Gui.Container.JoystickButtonAsWritten | Base/07_Gameplay/Source/Container.cpp:85-90 | the joystick-button branch as written activates the child at the selection index unguarded (a toggle then shows the pressed texture), so it is defined only while that index names a child |
| Gui.SearchAsWrittenNeverStops | Base/07_Gameplay/Source/Container.cpp:152-180 | with every child hidden, the do-while searches of selectNext and selectPrevious as written never stop, however many steps they run |
| Gui.NextSearchAsWrittenAgrees | Base/07_Gameplay/Source/Container.cpp:157-161 | where some child is shown, selectNext's loop as written stops within one lap on the child the corrected search finds |
| Gui.PrevSearchAsWrittenAgrees | Base/07_Gameplay/Source/Container.cpp:172-176 | where some child is shown, selectPrevious's loop as written stops within one lap on the child the corrected search finds |
| Gui.HiddenSelectionMenu | Base/07_Gameplay/Source/Container.cpp:152-180 | a reachable menu (one button packed, then hidden) keeps its selection with every child hidden, and on it both searches as written run for ever |
| Gui.Container.HandleEvent | Base/07_Gameplay/Source/Container.cpp:33-94 | an active selection swallows the event: no selection, activation or texture changes; otherwise the selection, activations and textures change as the event's reaction specifies; the debounce flag is as the stick rule says |
| Gui.Container.Dispatch | Base/07_Gameplay/Source/Container.cpp:42-90 | the branches taken when no active child has the event, with the joystick button activating only an existing selection |
| Gui.HiddenOnlyMenu | Base/07_Gameplay/Source/Container.cpp:85-90 | a reachable menu, one hidden button packed, has no selection, so the joystick-button branch as written is entered with an index, -1, that names no child |
| GameFlow.VerdictOf | Base/07_Gameplay/Source/GameState.cpp:39-50 | the tick is lost exactly when the player is dead, and finished exactly when the player is alive and at the end |
| GameFlow.LevelStep | Base/07_Gameplay/Source/GameState.cpp:37-82 | one tick moves the level cursor by at most one level, never backwards or past level 3, and exactly when a level before the last is finished |
| GameFlow.GameOverWhen | Base/07_Gameplay/Source/GameState.cpp:37-82 | the game-over screen is asked for exactly on a death or a finished level 3, the level then stays, and the status is failure or success |
| GameFlow.DeathBeatsEnd | Base/07_Gameplay/Source/GameState.cpp:39-44 | a dead player fails the mission and gets the game-over screen even when at the end |
| GameFlow.RunLevelBounds | Base/07_Gameplay/Source/GameState.cpp:32-87 | over any run of ticks the cursor only moves forward, by at most one level per tick, and stays within the three levels |
| GameFlow.RunNeverWins | Base/07_Gameplay/Source/GameState.cpp:32-87 | no run of ticks from a status other than MissionWin ever reports MissionWin |
| GameFlow.GameState.constructor | Base/07_Gameplay/Source/GameState.cpp:4-14 | the screen starts on level 1 with only level 1 initialised and the mission running |
| GameFlow.GameState.Update | Base/07_Gameplay/Source/GameState.cpp:32-87 | the cursor, mission status and stack requests follow the tick's verdict; after the level's own update, the queue of the level that was updated gains exactly the realtime commands of the held keys; the other queues are untouched; the result is true |
| GameFlow.GameState.Play | Base/07_Gameplay/Source/GameState.cpp:37-52 | one case of the switch: update, judge, then the realtime input appended to what the updated level's own update left on its queue |
| GameFlow.GameState.Judge | Base/07_Gameplay/Source/GameState.cpp:39-50 | the dead-player check comes before the end check, and the status, stack and cursor follow the verdict |
| GameFlow.GameState.Advance | Base/07_Gameplay/Source/GameState.cpp:44-50 | a finished level 1 or 2 moves the cursor on, clears the old level and starts the next one |
| GameFlow.GameState.HandleEvent | Base/07_Gameplay/Source/GameState.cpp:89-110 | the current level's queue gets exactly the player's event commands, the others are untouched, Escape asks for the pause screen, and the result is true |
| GameFlow.MessageSeparates | Base/07_Gameplay/Source/GameOverState.cpp:21-26 | two statuses share a caption exactly when both are failure, both are success, or both are neither |
| GameFlow.ExitShape | Base/07_Gameplay/Source/GameOverState.cpp:51-62 | the exit always asks something of the stack; it ends with the menu, after a clear, exactly for a failed or won mission; a finished game pops |
| GameFlow.QuietForThreeSeconds | Base/07_Gameplay/Source/GameOverState.cpp:47-65 | with non-negative frame times, no request is made until more than three seconds have accumulated |
| GameFlow.ExitRepeats | Base/07_Gameplay/Source/GameOverState.cpp:47-65 | once past three seconds, every further update sends the exit requests again: the log is exactly one copy of them per update |
| GameFlow.GameOverState.constructor | Base/07_Gameplay/Source/GameOverState.cpp:11-31 | the screen captures the player's status and shows its caption, with no time elapsed |
| GameFlow.GameOverState.Update | Base/07_Gameplay/Source/GameOverState.cpp:47-65 | the time shown grows by dt, the stack gets the exit requests when past three seconds, and the screens below never update |
| GameFlow.GameOverState.HandleEvent | Base/07_Gameplay/Source/GameOverState.cpp:67-70 | every event is swallowed |

## Left out

- Drawing: sprites, text, origins, `draw` and `updateTexts` (Aircraft.cpp:398 on) are rendering.
- Audio playback: a sound is recorded as a sound command on the queue or a cue in the button's list.
- Device reads become parameters: held keys (`pressed`), the mouse position (`mouse`), the joystick's vertical axis already divided by 100 (`dirY`), and whether its first button is held (`aPressed`).
- `randomInt`: the draws are parameters (`dropRoll` of three, `explosionRoll` of two).
- The velocity set in `updateMovementPattern` uses cosine and sine of the heading. Floating-point trigonometry is not modelled; only the leg cursor and the distance flown are.
- `Entity::updateCurrent` moves the aircraft by its velocity. It is not part of this model.
- `moveToStick` (Aircraft.cpp:266-279): joystick-driven movement through the unseen entity velocity; not part of this model.
- `createProjectile` and `createPickup` (Aircraft.cpp:375-396): scene-graph construction. A queued command names the work by a tag instead of a closure.
- `Aircrafts.Aircraft.CheckProjectileLaunch`: the countdown grows by the fire interval divided by (level + 1) as an integer division of microseconds. The source divides an `sf::Time` by a float, and float rounding is not modelled.
- `Aircrafts.Aircraft.constructor`: the source constructor never initialises `mIsLaunchingEnergy`. The model starts it at false.
- `Aircrafts.Aircraft.CollectMissiles`: does not model wrap-around of the source's `int` counters. Time and all counters are unbounded integers.
- `Aircrafts.Aircraft.CollectEnergy`: does not model wrap-around of the source's `int` counters, for the same reason.
- `Aircrafts.NextLeg`: written as a conditional rather than `%`. It equals `(i + 1) % n` for every index below n, which the invariant guarantees.
- `Gui.Succ`: written as a conditional rather than `%`. It equals `(i + 1) % n` for every index below n, which the invariant guarantees.
- `Gui.Pred`: written as a conditional rather than `%`. It equals `(i + n - 1) % n` for every index below n, which the invariant guarantees.
- `Gui.Abs`: the unqualified `abs` on the joystick axis is taken to be the floating-point absolute value.
- Container children are buttons only. Labels and nested containers are not part of this model; a container is never selectable and never hit.
- The `Component` base class is not part of this model. Its select, deselect, activate and deactivate are taken to set the selected and active flags.
- `Button::handleEvent` ignores every event, so an event forwarded to an active child changes nothing.
- `Button::setText` lays out text; it is not modelled.
- `Button::checkWorldBounds` caches its rectangle in a member. The cache is rebuilt on every call, so the model computes the rectangle directly.
- The levels' worlds (scrolling, spawning, collisions) are oracles. A level's update is told whether the player is alive, whether the player has reached the end, and what its queue holds afterwards (the commands its scene consumed and its entities pushed are not modelled one by one).
- The state stack's handling of requests is not part of this model. Requests are recorded in order.
- `GameState::draw` and `GameOverState::draw` are rendering.
- `getAssignedKey` and `getAssignedButton` return the sentinel code both when nothing is bound and when the sentinel code itself is bound, as the source does; the model keeps that ambiguity.
- Player.hpp declares an action enumeration without `LaunchEnergy` and `StopSeek`. The model follows the actions Player.cpp binds.

## Findings

| source | as written | input that shows it | evidently intended | confidence | as-written member | corrected member |
|---|---|---|---|---|---|---|
| Base/07_Gameplay/Source/Container.cpp:85-90 | the joystick's first button activates `mChildren[mSelectedChild]` without checking `hasSelection()` | an empty container, or one whose only button is hidden, has no selection (index -1); a JoystickButtonPressed event while button 0 is held indexes child -1 | activate the selection only when there is one, as the Return/Space branch at lines 52-56 does | high; not executed | Gui.Container.JoystickButtonAsWritten | Gui.Container.Dispatch |
| Base/07_Gameplay/Source/Container.cpp:152-180 | the do-while searches of selectNext and selectPrevious stop only on a selectable child | pack one button (it is selected), hide it with setHide(true), then release S or W: no child is selectable and the search goes round for ever | stop after one lap, back on the selection, and keep the selection; with a shown child this finds the same child as the source | high; not executed | Gui.SearchAsWrittenNeverStops | Gui.Container.SelectNext |
