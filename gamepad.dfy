/** The gamepad manager: tracks one connected pad by its index, polls it once
    per animation frame while connected, and turns its sticks into control
    updates and velocity messages. */
module Gamepad {
  import opened Common
  import opened Control

  /** Stick deflections smaller than this are read as 0. */
  const Deadzone: real := 0.1
  /** `/cmd_vel` is scaled to this maximum speed. */
  const MaxSpeed: real := 2.0

  function Abs(x: real): (r: real)
    ensures r >= 0.0 && (r == x || r == -x)
  {
    if x < 0.0 then -x else x
  }

  /** The deadzone: small values become 0, the others pass unchanged. */
  function ApplyDeadzone(x: real): (r: real)
    ensures r == 0.0 <==> Abs(x) < Deadzone
    ensures r != 0.0 ==> r == x && Abs(r) >= Deadzone
  {
    if Abs(x) < Deadzone then 0.0 else x
  }

  /** The standard mapping: axis 1 is the left stick's Y (inverted to give
      forward), axis 2 the right stick's X (inverted to give left). */
  function StickCommand(axes: seq<real>): (r: (real, real))
    requires |axes| >= 3
    ensures r.0 == 0.0 || r.0 == -axes[1]
    ensures r.1 == 0.0 || r.1 == -axes[2]
  {
    (ApplyDeadzone(-axes[1]), ApplyDeadzone(-axes[2]))
  }

  /** The publish gate: at least one of the two is not 0. */
  predicate Moves(linear: real, angular: real): (r: bool)
    ensures r <==> linear != 0.0 || angular != 0.0
  {
    Abs(linear) > 0.0 || Abs(angular) > 0.0
  }

  /** Each output is the inverted axis, or 0 exactly when that axis sits in
      the deadzone; the store is updated exactly when some axis leaves it. */
  lemma StickMapping(axes: seq<real>)
    requires |axes| >= 3
    ensures var (linear, angular) := StickCommand(axes);
            && (linear == 0.0 <==> Abs(axes[1]) < Deadzone)
            && (linear != 0.0 ==> linear == -axes[1])
            && (angular == 0.0 <==> Abs(axes[2]) < Deadzone)
            && (angular != 0.0 ==> angular == -axes[2])
            && (Moves(linear, angular) <==> Abs(axes[1]) >= Deadzone || Abs(axes[2]) >= Deadzone)
  {
  }

  datatype Vector3 = Vector3(x: real, y: real, z: real)
  /** A `geometry_msgs/Twist` message. */
  datatype Twist = Twist(linear: Vector3, angular: Vector3)

  /** The `/cmd_vel` message for a stick command: forward speed and turn
      rate at `MaxSpeed` times the stick value, nothing on the other axes. */
  function TwistFor(linear: real, angular: real): (t: Twist)
    ensures t.linear.y == 0.0 && t.linear.z == 0.0 && t.angular.x == 0.0 && t.angular.y == 0.0
    ensures t.linear.x == 0.0 <==> linear == 0.0
    ensures t.angular.z == 0.0 <==> angular == 0.0
    ensures Abs(linear) <= 1.0 && Abs(angular) <= 1.0 ==> Abs(t.linear.x) <= MaxSpeed && Abs(t.angular.z) <= MaxSpeed
  {
    Twist(Vector3(linear * MaxSpeed, 0.0, 0.0), Vector3(0.0, 0.0, angular * MaxSpeed))
  }

  /** For sticks within [-1, 1] the message drives forward and turns at no
      more than the maximum speed, and moves along no other axis. */
  lemma TwistWithinMaxSpeed(axes: seq<real>)
    requires |axes| >= 3
    requires -1.0 <= axes[1] <= 1.0 && -1.0 <= axes[2] <= 1.0
    ensures var (linear, angular) := StickCommand(axes);
            var t := TwistFor(linear, angular);
            && Abs(t.linear.x) <= MaxSpeed && Abs(t.angular.z) <= MaxSpeed
            && t.linear.y == 0.0 && t.linear.z == 0.0 && t.angular.x == 0.0 && t.angular.y == 0.0
            && (t.linear.x == 0.0 <==> Abs(axes[1]) < Deadzone)
            && (t.angular.z == 0.0 <==> Abs(axes[2]) < Deadzone)
  {
  }

  /** What `processInput` sends to the control store. */
  function GamepadPatch(linear: real, angular: real): Patch
  {
    Empty.(linear := Some(linear), angular := Some(angular), activeInput := Some(GamepadInput))
  }

  /** What a connect event sends. */
  function ConnectPatch(id: string): Patch
  {
    Empty.(connectedGamepad := Some(Some(id)))
  }

  /** What a disconnect of the tracked pad sends. */
  const DisconnectPatch := Empty.(connectedGamepad := Some(None), activeInput := Some(NoInput))

  /** None of the manager's requests to the control store carries `eStop`:
      during an emergency stop the store drops them all, and they never make
      the stored command unsafe. This is about the store's command only; the
      `/cmd_vel` message is published regardless (`PublishesDuringStop`). */
  lemma ManagerRespectsInterlock(c: Command, id: string, linear: real, angular: real)
    ensures c.eStop ==> Apply(c, GamepadPatch(linear, angular)) == c
    ensures c.eStop ==> Apply(c, ConnectPatch(id)) == c && Apply(c, DisconnectPatch) == c
    ensures Safe(c) ==> Safe(Apply(c, GamepadPatch(linear, angular)))
    ensures Safe(c) ==> Safe(Apply(c, ConnectPatch(id))) && Safe(Apply(c, DisconnectPatch))
  {
  }

  /** `processInput` publishes without looking at the control store: while
      the emergency stop is set, a stick out of the deadzone leaves the stored
      command unchanged, yet the message it publishes is not a zero twist. */
  lemma PublishesDuringStop(c: Command, axes: seq<real>)
    requires |axes| >= 3 && c.eStop
    requires Abs(axes[1]) >= Deadzone || Abs(axes[2]) >= Deadzone
    ensures var (linear, angular) := StickCommand(axes);
            && Moves(linear, angular)
            && Apply(c, GamepadPatch(linear, angular)) == c
            && TwistFor(linear, angular) != TwistFor(0.0, 0.0)
  {
    StickMapping(axes);
  }

  /** The `gamepad` of a connect or disconnect event. */
  datatype GamepadEvent = GamepadEvent(index: nat, id: string)

  /** A pad as `navigator.getGamepads()` reports it. */
  datatype Pad = Pad(axes: seq<real>)

  class GamepadManager {
    const control: ControlStore
    /** Whether `telemetryStore.ros` is set, so that `/cmd_vel` exists. */
    const rosConnected: bool
    /** `pollingInterval`: the pending animation-frame request, if any. */
    var pollingHandle: Option<nat>
    var gamepadIndex: Option<nat>
    /** The id the next `requestAnimationFrame` returns. */
    var nextFrame: nat
    /** Every message published on `/cmd_vel`, in order. */
    var published: seq<Twist>

    ghost predicate Valid()
      reads this, control
    {
      control.Valid() && nextFrame >= 1
    }

    constructor (control: ControlStore, rosConnected: bool)
      requires control.Valid()
      ensures Valid()
      ensures this.control == control && this.rosConnected == rosConnected
      ensures pollingHandle == None && gamepadIndex == None && published == []
    {
      this.control := control;
      this.rosConnected := rosConnected;
      pollingHandle := None;
      gamepadIndex := None;
      nextFrame := 1;
      published := [];
    }

    /** Request a frame unless one is already pending. */
    method StartPolling()
      requires Valid()
      modifies this`pollingHandle, this`nextFrame
      ensures Valid()
      ensures pollingHandle.Some?
      ensures old(pollingHandle).Some? ==> pollingHandle == old(pollingHandle) && nextFrame == old(nextFrame)
    {
      if pollingHandle.None? {
        pollingHandle := Some(nextFrame);
        nextFrame := nextFrame + 1;
      }
    }

    /** Cancel the pending frame, if any. */
    method StopPolling()
      modifies this`pollingHandle
      ensures pollingHandle == None
    {
      if pollingHandle.Some? {
        pollingHandle := None;
      }
    }

    /** `stop()` apart from removing the window listeners. */
    method Stop()
      modifies this`pollingHandle
      ensures pollingHandle == None
    {
      StopPolling();
    }

    /** Track the pad, report it to the control store (dropped during an
      emergency stop), and start polling. */
    method HandleConnect(e: GamepadEvent)
      requires Valid()
      modifies this`gamepadIndex, this`pollingHandle, this`nextFrame, control
      ensures Valid()
      ensures gamepadIndex == Some(e.index)
      ensures control.state == Apply(old(control.state), ConnectPatch(e.id))
      ensures control.subscribers == old(control.subscribers)
      ensures control.trace == old(control.trace) +
                (if Accepts(old(control.state), ConnectPatch(e.id)) then Broadcast(Listeners(control.subscribers), control.state) else [])
      ensures pollingHandle.Some? && (old(pollingHandle).Some? ==> pollingHandle == old(pollingHandle))
    {
      gamepadIndex := Some(e.index);
      control.Update(ConnectPatch(e.id));
      StartPolling();
    }

    /** A disconnect matters only for the tracked index: forget it, report
      no pad and no input (dropped during an emergency stop), stop polling. */
    method HandleDisconnect(e: GamepadEvent)
      requires Valid()
      modifies this`gamepadIndex, this`pollingHandle, control
      ensures Valid()
      ensures old(gamepadIndex) != Some(e.index) ==>
                && gamepadIndex == old(gamepadIndex) && pollingHandle == old(pollingHandle)
                && control.state == old(control.state) && control.trace == old(control.trace)
      ensures old(gamepadIndex) == Some(e.index) ==>
                && gamepadIndex == None && pollingHandle == None
                && control.state == Apply(old(control.state), DisconnectPatch)
                && control.trace == old(control.trace) +
                     (if Accepts(old(control.state), DisconnectPatch) then Broadcast(Listeners(control.subscribers), control.state) else [])
      ensures control.subscribers == old(control.subscribers)
    {
      if gamepadIndex == Some(e.index) {
        gamepadIndex := None;
        control.Update(DisconnectPatch);
        StopPolling();
      }
    }

    /** Map the sticks and, when they are out of the deadzone, update the
        control store and publish the scaled velocity. */
    method ProcessInput(pad: Pad)
      requires Valid() && |pad.axes| >= 3
      modifies this`published, control
      ensures Valid()
      ensures var (linear, angular) := StickCommand(pad.axes);
              && control.state == (if Moves(linear, angular) then Apply(old(control.state), GamepadPatch(linear, angular))
                                   else old(control.state))
              && control.trace == old(control.trace) +
                   (if Moves(linear, angular) && Accepts(old(control.state), GamepadPatch(linear, angular))
                    then Broadcast(Listeners(control.subscribers), control.state) else [])
              && published == old(published) +
                   (if Moves(linear, angular) && rosConnected then [TwistFor(linear, angular)] else [])
      ensures control.subscribers == old(control.subscribers)
    {
      var (linear, angular) := StickCommand(pad.axes);
      if Abs(linear) > 0.0 || Abs(angular) > 0.0 {
        control.Update(GamepadPatch(linear, angular));
        if rosConnected {
          published := published + [TwistFor(linear, angular)];
        }
      }
    }

    /** One animation frame: read the tracked pad, if it is there, then
        request the next frame. */
    method Poll(pad: Option<Pad>)
      requires Valid() && pollingHandle.Some?
      requires pad.Some? ==> |pad.value.axes| >= 3
      modifies this`published, this`pollingHandle, this`nextFrame, control
      ensures Valid()
      ensures pollingHandle == Some(old(nextFrame)) && nextFrame == old(nextFrame) + 1
      ensures (gamepadIndex.None? || pad.None?) ==>
                control.state == old(control.state) && control.trace == old(control.trace) && published == old(published)
      ensures gamepadIndex.Some? && pad.Some? ==>
                var (linear, angular) := StickCommand(pad.value.axes);
                && control.state == (if Moves(linear, angular) then Apply(old(control.state), GamepadPatch(linear, angular))
                                     else old(control.state))
                && control.trace == old(control.trace) +
                     (if Moves(linear, angular) && Accepts(old(control.state), GamepadPatch(linear, angular))
                      then Broadcast(Listeners(control.subscribers), control.state) else [])
                && published == old(published) +
                     (if Moves(linear, angular) && rosConnected then [TwistFor(linear, angular)] else [])
      ensures control.subscribers == old(control.subscribers)
    {
      if gamepadIndex.Some? && pad.Some? {
        ProcessInput(pad.value);
      }
      pollingHandle := Some(nextFrame);
      nextFrame := nextFrame + 1;
    }
  }

  /** With ROS connected: trigger the stop, then push the left stick fully
      forward. The command stays stopped and still, and a twist at full
      forward speed is published all the same. */
  method StopDoesNotSilenceCmdVel() returns (stopped: bool, still: bool, sent: seq<Twist>)
    ensures stopped && still
    ensures sent == [TwistFor(1.0, 0.0)] && sent[0].linear.x == MaxSpeed
  {
    var store := new ControlStore();
    store.TriggerEmergencyStop();
    var manager := new GamepadManager(store, true);
    var axes := [0.0, -1.0, 0.0];
    assert StickCommand(axes) == (1.0, 0.0);
    manager.ProcessInput(Pad(axes));
    stopped := store.state.eStop;
    still := store.state.linear == 0.0 && store.state.angular == 0.0;
    sent := manager.published;
  }
}
