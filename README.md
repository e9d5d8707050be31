# UGV ground-station core, modelled in Dafny

This project models the state-holding core of a browser ground station for an
unmanned ground vehicle. It covers five parts:

- **The telemetry store** (`Telemetry`). It holds a snapshot of seven topics.
  An update is a shallow merge, and then each listener of each updated key is
  called with that key's value. A new subscriber is called once, immediately,
  but only when the topic's current value is truthy.
- **The mock generator** (`MockTelemetry`). It keeps a path history of at most
  1001 points and builds a 100 x 100 occupancy grid whose centre block is
  cleared. On every tick it pushes one update into the telemetry store.
- **The control store** (`Control`). It holds the one drive command and guards
  it with the emergency-stop interlock: while the stop is set, an update whose
  object has no `eStop` key is dropped.
- **The parameter store** (`Parameters`). It holds a grouped configuration
  tree and a map of writes that wait for the vehicle's acknowledgement (ACK).
  ACKs of writes made close together can arrive in either order; `DeliverAck` lets any
  outstanding ACK come next, which covers that.
- **The gamepad manager** (`Gamepad`). It tracks one pad by index and polls it
  once per animation frame. It applies the deadzone, updates the control store
  only when a stick is out of the deadzone, and scales the velocity message.

`Common` holds what the stores share: listener ids, the trace of listener
calls, and the insertion-ordered set that a JavaScript `Set` of callbacks is.

Each store is a `class` whose methods update its fields in place. A listener is
a number. Every call `listener(payload)` is appended to the store's `trace`
field, so each method's contract states exactly which calls it makes and in
which order. Timers, animation frames and ACK delays are driven from outside:
`MockGenerator.Tick`, `GamepadManager.Poll` and `ParameterStore.DeliverAck`
are the callbacks, and the caller chooses when they run. `DeliverAck` may pick
any scheduled ACK.

JavaScript details that the model states explicitly:

- an object spread is a shallow merge, and keys are taken in `Object.keys` order;
- the interlock tests `hasOwnProperty('eStop')`, which the model writes as `eStop.Some?`;
- the replay to a new telemetry subscriber depends on truthiness;
- ES modules run in strict mode, so in `handleACK` a write into a number or
  into `undefined` throws a `TypeError`, and a read from `undefined` throws too;
- `split('.')` keeps empty pieces.

Behaviour of the code worth knowing:

- A new telemetry subscriber is replayed the current value only when that
  value is truthy. With the defaults, `latency` (0) and `occupancyGrid`
  (`null`) are not replayed (`Telemetry.DefaultReplay`).
- `handleACK` does not check whether a newer value is pending for the path.
  It commits the value it was scheduled with and deletes the pending entry.
  Two writes to one path whose ACKs arrive newest first therefore commit the
  older value and leave nothing pending (`Parameters.StaleAckRegresses`,
  `Parameters.StaleAckScenario`).
- A gamepad disconnect is matched by pad index, not by pad id.
- A listener that throws stops the loop that calls the remaining listeners.
  Listener exceptions are not modelled.
- A mock tick after the first few sends `occupancyGrid: undefined`, which
  overwrites the stored grid. Every mock tick replaces `battery` by an object
  without `current` (`MockTelemetry.LaterTickDropsGrid`).
- The gamepad sends nothing while both sticks are in the deadzone, so
  releasing the stick does not send a zero command (`Gamepad.StickMapping`).
- The gamepad publishes `/cmd_vel` without looking at the control store.
  While the emergency stop is set, the store drops the gamepad's update, but a
  stick out of the deadzone still publishes a non-zero twist when ROS is
  connected (`Gamepad.PublishesDuringStop`, `Gamepad.StopDoesNotSilenceCmdVel`).
- Nothing in the repository sets `telemetryStore.ros`, so `/cmd_vel` is never
  published here. The model makes the ROS connection a constructor parameter
  (`rosConnected`).

## Model

| member | source | states |
|---|---|---|
| Common.Broadcast | src/stores/ControlStore.js:35 | notifying calls every listener once, in registration order, each with the same payload |
| Common.Insert | src/stores/TelemetryStore.js:48 | `Set.add` keeps the set duplicate-free, appends a new listener at the end and ignores one already present |
| Common.Delete | src/stores/TelemetryStore.js:57 | `Set.delete` removes exactly that listener, keeps every other member, and changes nothing when it is absent |
| Common.DeleteMember | src/stores/TelemetryStore.js:57 | deleting a member takes out exactly its one position, keeps the order of the rest and keeps the set duplicate-free |
| Common.InsertTwice | src/stores/TelemetryStore.js:48 | adding the same callback twice leaves one registration |
| Common.DeleteTwice | src/stores/TelemetryStore.js:55-59 | calling an unsubscribe closure twice is the same as calling it once |
| Telemetry.Lookup | src/stores/TelemetryStore.js:51 | reading a topic the snapshot lacks gives `undefined`, otherwise the stored value |
| Telemetry.Truthy | src/stores/TelemetryStore.js:51 | the replay test: every object and array is truthy, even an empty one; `undefined`, `null`, 0 and `""` are not |
| Telemetry.KeysOf | src/stores/TelemetryStore.js:31 | the keys an update iterates are exactly the keys of its object |
| Telemetry.DefaultState | src/stores/TelemetryStore.js:11-19 | the initial snapshot holds exactly the seven default topics |
| Telemetry.Merge | src/stores/TelemetryStore.js:28 | after the shallow merge the topics are the old ones plus the updated ones, each updated topic holds the new value, and every other topic keeps its value |
| Telemetry.TopicFanout | src/stores/TelemetryStore.js:32-34 | one key's fan-out makes one call per listener of that key, and none for a key without listeners |
| Telemetry.FanoutCalls | src/stores/TelemetryStore.js:32-34 | each call of a key's fan-out goes to a listener of that key and carries that key's value |
| Telemetry.UnwatchedKeysCallNoOne | src/stores/TelemetryStore.js:31-35 | an update whose keys nobody listens to calls no one |
| Telemetry.UpdateTraceMembership | src/stores/TelemetryStore.js:31-35 | an update calls a listener with a value if and only if the listener is registered on one of the update's keys and the value is that topic's value |
| Telemetry.UpdateDeliversNewValues | src/stores/TelemetryStore.js:28-35 | the value an update hands a listener is the value the update carried for that key, in both directions |
| Telemetry.TopicIsolation | src/stores/TelemetryStore.js:31-35 | a listener registered on no key of the update is not called |
| Telemetry.EmptyUpdate | src/stores/TelemetryStore.js:26-36 | `update({})` changes nothing and calls no one |
| Telemetry.DefaultReplay | src/stores/TelemetryStore.js:51-53 | with the defaults, a new subscriber is replayed `imu`, `odometry`, `battery`, `path` and `status`, but not `latency` or `occupancyGrid` |
| Telemetry.TelemetryStore.constructor | src/stores/TelemetryStore.js:9-20 | the store starts with the default snapshot, no subscribers and no calls made |
| Telemetry.TelemetryStore.Update | src/stores/TelemetryStore.js:26-36 | the new snapshot is the shallow merge; the calls made are, key by key in `Object.keys` order, every listener of that key with the merged value; subscribers are unchanged; every default topic is kept |
| Telemetry.TelemetryStore.NotifyTopic | src/stores/TelemetryStore.js:32-34 | calls every listener of one key, in order, with that key's value, and calls no one for a key without listeners |
| Telemetry.TelemetryStore.Subscribe | src/stores/TelemetryStore.js:44-54 | adds the listener to the topic's set (creating the set if needed) and makes exactly one replay call when the current value is truthy, none otherwise |
| Telemetry.TelemetryStore.Unsubscribe | src/stores/TelemetryStore.js:55-59 | removes exactly that listener from that topic, makes no call and leaves a topic without a set alone |
| Telemetry.TelemetryStore.Get | src/stores/TelemetryStore.js:65-67 | the snapshot returned always holds every default topic |
| Telemetry.UnsubscribeExact | src/stores/TelemetryStore.js:55-59 | unsubscribing removes that listener from that topic only, keeps the topic's other listeners and every other topic, and is idempotent |
| MockTelemetry.CellCoordinates | src/stores/TelemetryStore.js:94 | the index `x + y * 100` names each cell of the grid once, and the row and column can be read back from it |
| MockTelemetry.Recent | src/stores/TelemetryStore.js:110-111 | the history window holds at most the requested number of points |
| MockTelemetry.Pushed | src/stores/TelemetryStore.js:110-111 | one tick's shift-then-push ends with the new point, never grows a history of at most 1001 points beyond 1001, and only appends while at most 1000 are held |
| MockTelemetry.PushedKeepsRecent | src/stores/TelemetryStore.js:109-111 | shift-then-push keeps exactly the newest 1001 recorded points, oldest first, so the history never exceeds 1001 points |
| MockTelemetry.ClearCentre | src/stores/TelemetryStore.js:91-96 | every cell of the 20 x 20 centre block is 0, and every other cell is unchanged |
| MockTelemetry.GridValue | src/stores/TelemetryStore.js:117 | the grid is handed over as an array whose entry `i` is cell `i` |
| MockTelemetry.TickPartial | src/stores/TelemetryStore.js:113-123 | a tick's update has exactly six keys, in the source's order; `path` is the history sent, and `occupancyGrid` is the grid when it is sent and `undefined` otherwise |
| MockTelemetry.LaterTickDropsGrid | src/stores/TelemetryStore.js:113-123 | a tick that does not send the grid leaves `occupancyGrid` falsy in the store, stores the path history as sent, and leaves a battery object without `current` |
| MockTelemetry.MockGenerator.constructor | src/stores/TelemetryStore.js:74 | the generator starts stopped |
| MockTelemetry.MockGenerator.Start | src/stores/TelemetryStore.js:76-97 | a no-op while running; otherwise an empty history and a fresh grid in which each cell is 1 when occupied and 0 when free, and the centre block is 0 |
| MockTelemetry.MockGenerator.Stop | src/stores/TelemetryStore.js:128-134 | the generator is stopped afterwards, whether it was running or not |
| MockTelemetry.MockGenerator.RecordPoint | src/stores/TelemetryStore.js:110-111 | the history is shifted only when it holds more than 1000 points, then the point is pushed; it stays the newest 1001 recorded points |
| MockTelemetry.MockGenerator.Tick | src/stores/TelemetryStore.js:98-125 | records the point, then the store's new snapshot and its calls are those of one update with the tick's six keys |
| MockTelemetry.FirstTickSendsClearedGrid | src/stores/TelemetryStore.js:84-123 | after a start and a tick that sends the grid, the store's `occupancyGrid` has 10000 entries: 0 in the centre block, and elsewhere 1 for an occupied draw and 0 for a free one |
| Control.Merge | src/stores/ControlStore.js:30 | merging an empty patch keeps the command, and a patch without velocities keeps both velocities |
| Control.Accepts | src/stores/ControlStore.js:25 | nothing is rejected while the stop is clear; a patch carrying `eStop` always passes; while stopped, only such a patch passes |
| Control.Apply | src/stores/ControlStore.js:25-30 | an update leaves the command either unchanged or merged, and always merged while the stop is clear |
| Control.UpdateIdempotent | src/stores/ControlStore.js:25-30 | sending the same update twice leaves the same command as sending it once; an accepted repeat still notifies every subscriber again |
| Control.RepeatedUpdate | src/stores/ControlStore.js:25-32 | two identical updates leave the command as one does; an accepted pair calls every subscriber twice with that command, and a rejected pair calls no one |
| Control.InterlockRejects | src/stores/ControlStore.js:25-28 | while stopped, an update without an `eStop` key leaves the command unchanged |
| Control.AcceptedMerge | src/stores/ControlStore.js:30 | an accepted update sets exactly the fields it carries and keeps every other field |
| Control.GuardTestsKeyPresenceOnly | src/stores/ControlStore.js:25 | while stopped, an update that carries `eStop` is applied in full, velocities included |
| Control.TriggerFromAnyState | src/stores/ControlStore.js:49-52 | the stop passes the interlock from any command, sets the flag, zeroes both velocities and keeps the other fields |
| Control.ClearAfterTrigger | src/stores/ControlStore.js:54-57 | clearing changes only the flag, so after a trigger and a clear both velocities are still 0 |
| Control.InterlockScenario | src/stores/ControlStore.js:23-32 | after a trigger, `update({linear: 0.5})` is rejected; after a clear, the same update is accepted |
| Control.ProducersKeepSafe | src/stores/ControlStore.js:23-32 | updates without `eStop`, the stop patch and the clear patch keep the rule "stopped implies still" |
| Control.EStopPatchCanBreakSafety | src/stores/ControlStore.js:25 | an update with `eStop: true` and a velocity breaks that rule, because the guard tests only the key |
| Control.Listeners | src/stores/ControlStore.js:35 | the callbacks in `Map` insertion order, one per registration |
| Control.RemoveId | src/stores/ControlStore.js:42 | `Map.delete(id)` removes exactly the registrations under that id and keeps the others |
| Control.RemoveIdAt | src/stores/ControlStore.js:42 | with unique ids, deleting a present id takes out exactly its one registration and keeps the order |
| Control.RemoveIdAbsent | src/stores/ControlStore.js:42 | deleting an id nobody holds changes nothing |
| Control.RemoveIdKeepsUnique | src/stores/ControlStore.js:42 | deleting keeps the ids unique |
| Control.TwiceSubscribed | src/stores/ControlStore.js:38-42 | one callback subscribed twice is called twice per notification; one unsubscribe leaves it called once; both leave the registrations as before |
| Control.ControlStore.constructor | src/stores/ControlStore.js:8-17 | the command starts at zero velocity, no input, no pad, no stop; there are no subscribers and no calls |
| Control.ControlStore.Update | src/stores/ControlStore.js:23-32 | the new command is the interlocked merge; a rejected update calls no one; an accepted one calls every subscriber with the new command |
| Control.ControlStore.Notify | src/stores/ControlStore.js:34-36 | every subscriber is called once, in registration order, with the full command |
| Control.ControlStore.Subscribe | src/stores/ControlStore.js:38-43 | registers under an id no registration holds, appends it, and calls the new listener once with the current command |
| Control.ControlStore.Unsubscribe | src/stores/ControlStore.js:42 | deletes the registration under that id, reports whether it was present, and keeps the ids unique |
| Control.ControlStore.TriggerEmergencyStop | src/stores/ControlStore.js:49-52 | from any command: stop set, both velocities 0, everything else kept, all subscribers notified |
| Control.ControlStore.ClearEmergencyStop | src/stores/ControlStore.js:54-57 | only the flag changes, and all subscribers are notified |
| Parameters.Split | src/stores/ParameterStore.js:67 | `split('.')` yields at least one piece, and no piece holds a dot |
| Parameters.JoinSplit | src/stores/ParameterStore.js:67 | joining the pieces with dots gives the path back |
| Parameters.SplitJoin | src/stores/ParameterStore.js:67 | splitting the dot-join of dot-free pieces gives the pieces back |
| Parameters.Defaults | src/stores/ParameterStore.js:10-25 | the tree starts with exactly the groups `velocity`, `pid` and `sensors`, and every default parameter is a number inside a group |
| Parameters.Read | src/stores/ParameterStore.js:70 | reading a property of `undefined` throws; a read reaches an object only when it reads an object-valued property of an object |
| Parameters.Walk | src/stores/ParameterStore.js:68-71 | a walk that has thrown stays thrown; a non-empty walk ends on an object only if it starts on one whose first key names an object |
| Parameters.Assign | src/stores/ParameterStore.js:68-72 | a successful write adds or keeps the first key and leaves every other top-level entry alone; a one-piece path writes the top level |
| Parameters.AssignIffParentIsObject | src/stores/ParameterStore.js:68-72 | the write succeeds if and only if the walk over all but the last piece ends on an object |
| Parameters.AckWritesGroupKey | src/stores/ParameterStore.js:63-72 | for `group.key` with an existing group, the ACK sets that key and changes no other key and no other group |
| Parameters.AckToMissingGroupThrows | src/stores/ParameterStore.js:67-72 | for a missing group, or a group that is a number, the ACK throws before writing |
| Parameters.RequestWrite | src/stores/ParameterStore.js:54 | a write request leaves the tree alone, and the path becomes pending with exactly the value requested |
| Parameters.Acknowledge | src/stores/ParameterStore.js:63-77 | an ACK either clears the path from pending or changes nothing, and a `TypeError` changes nothing; it never adds a pending path |
| Parameters.PendingVisibility | src/stores/ParameterStore.js:54 | a write shows as pending at once, replacing any earlier pending value for that path, and the tree is untouched |
| Parameters.AckClearsNewerPending | src/stores/ParameterStore.js:72-75 | an ACK deletes the path from pending even when a newer value waits there, and keeps every other pending entry |
| Parameters.EventualCommit | src/stores/ParameterStore.js:51-77 | one write followed by its own ACK commits the value and clears pending |
| Parameters.StaleAckRegresses | src/stores/ParameterStore.js:51-77 | two writes to one path with ACKs newest first commit the older value, and nothing is left pending |
| Parameters.ParameterStore.constructor | src/stores/ParameterStore.js:8-27 | the tree starts at the defaults, with nothing pending, no subscribers and no ACK scheduled |
| Parameters.ParameterStore.Get | src/stores/ParameterStore.js:40-45 | every pending entry in the snapshot shows the value requested last for its path |
| Parameters.ParameterStore.Subscribe | src/stores/ParameterStore.js:29-33 | adds the listener once and calls it with the current snapshot |
| Parameters.ParameterStore.Unsubscribe | src/stores/ParameterStore.js:32 | removes exactly that listener and reports whether it was present |
| Parameters.ParameterStore.Notify | src/stores/ParameterStore.js:35-38 | every subscriber is called once, in insertion order, with one snapshot |
| Parameters.ParameterStore.UpdateParam | src/stores/ParameterStore.js:51-61 | marks the path pending with the value, notifies, and schedules exactly one ACK for that path and value |
| Parameters.ParameterStore.HandleAck | src/stores/ParameterStore.js:63-77 | the walk succeeds exactly when the write does; then it commits, deletes the pending entry and notifies; a `TypeError` changes nothing and notifies no one |
| Parameters.ParameterStore.DeliverAck | src/stores/ParameterStore.js:58-60 | runs one scheduled ACK, chosen by the caller, and removes only that one from the schedule |
| Parameters.DefaultsStaleAck | src/stores/ParameterStore.js:51-77 | from the default tree, writes of 2.0 then 3.0 to `pid.kp` with ACKs newest first commit 2.0 and leave nothing pending |
| Parameters.StaleAckScenario | src/stores/ParameterStore.js:51-77 | through the store, writes of 2.0 and then 3.0 to `pid.kp` with ACKs newest first leave 2.0 committed and nothing pending |
| Gamepad.StickCommand | src/managers/GamepadManager.js:85-90 | each output is 0 or the inverted axis: axis 1 for linear, axis 2 for angular |
| Gamepad.Moves | src/managers/GamepadManager.js:93 | the publish gate holds exactly when linear or angular is not 0 |
| Gamepad.TwistFor | src/managers/GamepadManager.js:103-106 | the message moves only forward and turns; each part is 0 exactly when its stick value is, and sticks within [-1, 1] stay within 2.0 |
| Gamepad.ApplyDeadzone | src/managers/GamepadManager.js:89-90 | a value becomes 0 exactly when its magnitude is below 0.1, and passes unchanged otherwise |
| Gamepad.StickMapping | src/managers/GamepadManager.js:85-93 | linear is the inverted axis 1 and angular the inverted axis 2, each 0 exactly in the deadzone; the store is updated exactly when some axis leaves it |
| Gamepad.TwistWithinMaxSpeed | src/managers/GamepadManager.js:103-106 | for axes in [-1, 1], the message stays within 2.0 forward and turning, moves along no other axis, and each part is 0 exactly in the deadzone |
| Gamepad.ManagerRespectsInterlock | src/managers/GamepadManager.js:94-98 | about the store's command only: no gamepad update, connect or disconnect patch carries `eStop`, so during a stop the store drops each, and none makes the command unsafe |
| Gamepad.PublishesDuringStop | src/managers/GamepadManager.js:93-107 | while the stop is set, a stick out of the deadzone passes the publish gate and its update is dropped by the store, yet its twist is not the zero twist |
| Gamepad.StopDoesNotSilenceCmdVel | src/managers/GamepadManager.js:80-110 | with ROS connected, after a stop and a full-forward stick the command is still stopped and still, and one twist at full forward speed is published |
| Gamepad.GamepadManager.constructor | src/managers/GamepadManager.js:12-17 | no pad is tracked, no frame is pending, nothing is published |
| Gamepad.GamepadManager.StartPolling | src/managers/GamepadManager.js:57-61 | a frame is pending afterwards; a call while one is pending changes nothing |
| Gamepad.GamepadManager.StopPolling | src/managers/GamepadManager.js:63-68 | no frame is pending afterwards, whether one was or not |
| Gamepad.GamepadManager.Stop | src/managers/GamepadManager.js:35-39 | polling is stopped |
| Gamepad.GamepadManager.HandleConnect | src/managers/GamepadManager.js:41-46 | tracks the index, sends the pad id through the interlock, and starts polling without requesting a second frame |
| Gamepad.GamepadManager.HandleDisconnect | src/managers/GamepadManager.js:48-55 | for the tracked index: forgets it, sends "no pad, no input" through the interlock and stops polling; for another index nothing changes |
| Gamepad.GamepadManager.ProcessInput | src/managers/GamepadManager.js:80-110 | outside the deadzone the store gets the two stick values, tagged as gamepad input, through the interlock and, with ROS connected, one twist at twice the stick value is published; inside it nothing happens |
| Gamepad.GamepadManager.Poll | src/managers/GamepadManager.js:70-78 | processes the tracked pad when there is one and the browser reports it, and always requests the next frame |

## Left out

- React components, the `App` wiring, `console` output and the browser window are not part of this model. The window event listeners added by `start()` and removed by `stop()` are not modelled. The caller invokes `HandleConnect` and `HandleDisconnect` directly.
- `setInterval`, `setTimeout` and `requestAnimationFrame` are not modelled as clocks. Their callbacks are methods the caller invokes (`Tick`, `DeliverAck`, `Poll`), and a frame handle is a counter.
- `Math.random`, `Math.sin` and `Math.cos` are not computed. A tick is given the values they would produce. `Start` is given one occupied-or-free draw per cell. Whether a tick sends the grid (`t < 0.1`) is a parameter.
- Numbers are unbounded reals. `NaN`, infinities, floating-point rounding and `Float32Array` precision are not modelled.
- Gamepad.GamepadManager.ProcessInput: requires at least three axes. On a pad with fewer, JavaScript reads `undefined` and computes `NaN`, and the model does not represent `NaN`.
- Gamepad.GamepadManager.Poll: requires a pending frame, since the browser calls it only then; it has the same three-axis requirement as `ProcessInput`.
- ROS (`getCmdVelTopic`, `ROSLIB.Topic`, `publish`) is reduced to a constructor flag and an appended list of published twists.
- Control.ControlStore.Get: has no contract. It returns the command object, and the sharing of that object with callers is not modelled.
- Telemetry.TelemetryStore.Get: states only that every default topic is present. The returned object is the store's own snapshot; callers that mutate it are not modelled.
- Parameters.ParameterStore.Get: states only the pending map's relation to the latest requests. `params` is handed out by reference and can be mutated through it; that aliasing is not modelled.
- A control update object holds only the five command fields. Extra keys and an explicit `eStop: undefined` are not modelled.
- Property names that hit `Object.prototype` (such as `__proto__` or `toString`) are not modelled. Nor are number methods that `handleACK`'s walk could read from a number (such as `toFixed`).
- Parameter values are numbers. The source writes whatever value it is given.
- A listener that throws is not modelled. In the source such a throw escapes the `forEach` and stops the remaining listeners.
- MockTelemetry.MockGenerator.Tick: requires the generator to be running. The source's interval only fires then.
- The grid the mock generator hands the store is a copy of its cells. In the source the store and the generator share one `Float32Array`.
