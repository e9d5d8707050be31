/** The control store: the one authoritative drive command, an emergency-stop
    interlock on its updates, and listeners registered under fresh ids. */
module Control {
  import opened Common

  /** The values `activeInput` takes: 'NONE', 'GAMEPAD', 'JOYSTICK', 'KEYBOARD'. */
  datatype InputSource = NoInput | GamepadInput | JoystickInput | KeyboardInput

  datatype Command = Command(
    linear: real,
    angular: real,
    activeInput: InputSource,
    connectedGamepad: Option<string>,
    eStop: bool)

  /** A partial command: `None` is a key the update object does not carry. */
  datatype Patch = Patch(
    linear: Option<real>,
    angular: Option<real>,
    activeInput: Option<InputSource>,
    connectedGamepad: Option<Option<string>>,
    eStop: Option<bool>)

  const Initial := Command(0.0, 0.0, NoInput, None, false)

  const Empty := Patch(None, None, None, None, None)
  /** What `triggerEmergencyStop` sends. */
  const StopPatch := Empty.(eStop := Some(true), linear := Some(0.0), angular := Some(0.0))
  /** What `clearEmergencyStop` sends. */
  const ClearPatch := Empty.(eStop := Some(false))

  function Or<T>(o: Option<T>, otherwise: T): T
  {
    if o.Some? then o.value else otherwise
  }

  /** `{ ...state, ...patch }`: merging nothing keeps the command, and a
      patch without velocities keeps both velocities. */
  function Merge(c: Command, p: Patch): (r: Command)
    ensures p == Empty ==> r == c
    ensures p.linear.None? && p.angular.None? ==> r.linear == c.linear && r.angular == c.angular
  {
    Command(Or(p.linear, c.linear), Or(p.angular, c.angular), Or(p.activeInput, c.activeInput),
            Or(p.connectedGamepad, c.connectedGamepad), Or(p.eStop, c.eStop))
  }

  /** The interlock lets an update through unless the stop is set and the
      update object has no `eStop` key of its own. */
  predicate Accepts(c: Command, p: Patch): (ok: bool)
    ensures !c.eStop ==> ok
    ensures p.eStop.Some? ==> ok
    ensures ok && c.eStop ==> p.eStop.Some?
  {
    !c.eStop || p.eStop.Some?
  }

  /** The command after `update(p)`: either unchanged or the merge, and
      the merge whenever the stop is not set. */
  function Apply(c: Command, p: Patch): (r: Command)
    ensures r == c || r == Merge(c, p)
    ensures !c.eStop ==> r == Merge(c, p)
  {
    if Accepts(c, p) then Merge(c, p) else c
  }

  /** Sending the same update twice leaves the same command as sending it once.
    * An accepted repeat still notifies every subscriber again
    * (`RepeatedUpdate`). */
  lemma UpdateIdempotent(c: Command, p: Patch)
    ensures Merge(Merge(c, p), p) == Merge(c, p)
    ensures Apply(Apply(c, p), p) == Apply(c, p)
  {
  }

  /** While stopped, an update without an `eStop` key is dropped. */
  lemma InterlockRejects(c: Command, p: Patch)
    requires c.eStop && p.eStop.None?
    ensures Apply(c, p) == c
  {
  }

  /** An accepted update sets exactly the keys it carries and keeps the rest. */
  lemma AcceptedMerge(c: Command, p: Patch)
    requires Accepts(c, p)
    ensures var r := Apply(c, p);
            && (p.linear.Some? ==> r.linear == p.linear.value) && (p.linear.None? ==> r.linear == c.linear)
            && (p.angular.Some? ==> r.angular == p.angular.value) && (p.angular.None? ==> r.angular == c.angular)
            && (p.activeInput.Some? ==> r.activeInput == p.activeInput.value)
            && (p.activeInput.None? ==> r.activeInput == c.activeInput)
            && (p.connectedGamepad.Some? ==> r.connectedGamepad == p.connectedGamepad.value)
            && (p.connectedGamepad.None? ==> r.connectedGamepad == c.connectedGamepad)
            && (p.eStop.Some? ==> r.eStop == p.eStop.value) && (p.eStop.None? ==> r.eStop == c.eStop)
  {
  }

  /** The guard looks only at the presence of the key: while stopped, an
      update carrying `eStop` is applied in full, velocities included. */
  lemma GuardTestsKeyPresenceOnly(c: Command, v: real)
    requires c.eStop
    ensures Apply(c, Empty.(eStop := Some(true), linear := Some(v))) == c.(linear := v)
  {
  }

  /** Triggering the stop from any command zeroes both velocities, sets the
      flag, and keeps the input source and the connected pad. */
  lemma TriggerFromAnyState(c: Command)
    ensures Accepts(c, StopPatch)
    ensures Apply(c, StopPatch) == c.(eStop := true, linear := 0.0, angular := 0.0)
  {
  }

  /** Clearing the stop changes nothing but the flag; after a trigger, both
      velocities are still 0. */
  lemma ClearAfterTrigger(c: Command)
    ensures Apply(c, ClearPatch) == c.(eStop := false)
    ensures var r := Apply(Apply(c, StopPatch), ClearPatch);
            r.linear == 0.0 && r.angular == 0.0 && !r.eStop
  {
  }

  /** After a trigger `update({linear: 0.5})` is rejected; after a clear that
      follows, the same update is accepted. */
  lemma InterlockScenario(c: Command)
    ensures var stopped := Apply(c, StopPatch);
            var drive := Empty.(linear := Some(0.5));
            && Apply(stopped, drive) == stopped
            && Apply(Apply(stopped, ClearPatch), drive).linear == 0.5
  {
  }

  /** The safety condition: whenever the stop is set, the vehicle is still. */
  predicate Safe(c: Command)
  {
    c.eStop ==> c.linear == 0.0 && c.angular == 0.0
  }

  /** Every update the program issues (producers never carry `eStop`; the two
      stop methods send fixed patches) keeps the command safe. */
  lemma ProducersKeepSafe(c: Command, p: Patch)
    requires Safe(c)
    requires p.eStop.None? || p == StopPatch || p == ClearPatch
    ensures Safe(Apply(c, p))
  {
  }

  /** Because the guard only tests the key, an update with `eStop: true` and
      a velocity breaks the safety condition. */
  lemma EStopPatchCanBreakSafety(c: Command)
    ensures !Safe(Apply(c, Empty.(eStop := Some(true), linear := Some(0.5))))
  {
  }

  /** A subscription: the `Symbol` id under which a callback is stored. */
  datatype Registration = Registration(id: nat, listener: ListenerId)

  predicate UniqueIds(regs: seq<Registration>)
  {
    forall i, j :: 0 <= i < j < |regs| ==> regs[i].id != regs[j].id
  }

  /** The callbacks in `Map` iteration (insertion) order. */
  function Listeners(regs: seq<Registration>): (ls: seq<ListenerId>)
    ensures |ls| == |regs|
    ensures forall i :: 0 <= i < |regs| ==> ls[i] == regs[i].listener
  {
    seq(|regs|, i requires 0 <= i < |regs| => regs[i].listener)
  }

  /** `Map.prototype.delete(id)`. */
  function RemoveId(regs: seq<Registration>, id: nat): (r: seq<Registration>)
    ensures forall x :: x in r <==> x in regs && x.id != id
    ensures |r| <= |regs|
  {
    if regs == [] then []
    else if regs[0].id == id then RemoveId(regs[1..], id)
    else [regs[0]] + RemoveId(regs[1..], id)
  }

  /** Deleting an id that is present takes out exactly its registration. */
  lemma RemoveIdAt(regs: seq<Registration>, i: nat)
    requires UniqueIds(regs) && i < |regs|
    ensures RemoveId(regs, regs[i].id) == regs[..i] + regs[i + 1..]
  {
    OthersHoldOtherIds(regs, i);
    RemoveOnly(regs[..i], regs[i], regs[i + 1..]);
    assert regs == regs[..i] + [regs[i]] + regs[i + 1..];
  }

  /** With unique ids, no registration but the `i`-th holds its id. */
  lemma OthersHoldOtherIds(regs: seq<Registration>, i: nat)
    requires UniqueIds(regs) && i < |regs|
    ensures forall x :: x in regs[..i] ==> x.id != regs[i].id
    ensures forall x :: x in regs[i + 1..] ==> x.id != regs[i].id
  {
    forall x | x in regs[..i] ensures x.id != regs[i].id {
      var k :| 0 <= k < i && regs[..i][k] == x;
      assert regs[k] == x;
    }
    forall x | x in regs[i + 1..] ensures x.id != regs[i].id {
      var k :| 0 <= k < |regs[i + 1..]| && regs[i + 1..][k] == x;
      assert regs[i + 1 + k] == x;
    }
  }

  /** Deleting the id held only by `r` from `pre + [r] + post`. */
  lemma RemoveOnly(pre: seq<Registration>, r: Registration, post: seq<Registration>)
    requires forall x :: x in pre ==> x.id != r.id
    requires forall x :: x in post ==> x.id != r.id
    ensures RemoveId(pre + [r] + post, r.id) == pre + post
  {
    RemoveIdAbsent(pre, r.id);
    RemoveIdAbsent(post, r.id);
    RemoveIdAppend(pre + [r], post, r.id);
    RemoveIdAppend(pre, [r], r.id);
    assert RemoveId([r], r.id) == [] by { assert [r][1..] == []; }
    assert pre + [] == pre;
  }

  /** Deleting keeps the ids unique. */
  lemma RemoveIdKeepsUnique(regs: seq<Registration>, id: nat)
    requires UniqueIds(regs)
    ensures UniqueIds(RemoveId(regs, id))
  {
    if i :| 0 <= i < |regs| && regs[i].id == id {
      RemoveIdAt(regs, i);
      DropKeepsUnique(regs, i);
    } else {
      RemoveIdAbsent(regs, id);
    }
  }

  /** Taking one registration out keeps the ids unique. */
  lemma DropKeepsUnique(regs: seq<Registration>, i: nat)
    requires UniqueIds(regs) && i < |regs|
    ensures UniqueIds(regs[..i] + regs[i + 1..])
  {
    var r := regs[..i] + regs[i + 1..];
    forall a, b | 0 <= a < b < |r| ensures r[a].id != r[b].id {
      var ia := if a < i then a else a + 1;
      var ib := if b < i then b else b + 1;
      assert r[a] == regs[ia] && r[b] == regs[ib];
    }
  }

  /** Deleting an id nobody holds is a no-op. */
  lemma {:induction false} RemoveIdAbsent(regs: seq<Registration>, id: nat)
    requires forall x :: x in regs ==> x.id != id
    ensures RemoveId(regs, id) == regs
  {
    if regs != [] {
      RemoveIdAbsent(regs[1..], id);
    }
  }

  /** One callback subscribed twice is called twice per notification, and
      unsubscribing one of the two leaves it called once. */
  lemma TwiceSubscribed(regs: seq<Registration>, l: ListenerId, id1: nat, id2: nat)
    requires id1 != id2
    requires forall x :: x in regs ==> x.id != id1 && x.id != id2
    ensures var both := regs + [Registration(id1, l), Registration(id2, l)];
            && Listeners(both) == Listeners(regs) + [l, l]
            && Listeners(RemoveId(both, id1)) == Listeners(regs) + [l]
            && RemoveId(RemoveId(both, id1), id2) == regs
  {
    var r1, r2 := Registration(id1, l), Registration(id2, l);
    var both := regs + [r1, r2];
    assert both == (regs + [r1]) + [r2];
    ListenersSnoc(regs, r1);
    ListenersSnoc(regs + [r1], r2);
    RemoveIdAbsent(regs, id1);
    RemoveIdAbsent(regs, id2);
    RemoveIdAppend(regs, [r1, r2], id1);
    assert RemoveId([r1, r2], id1) == [r2] by {
      assert [r1, r2][1..] == [r2];
      assert RemoveId([r2][1..], id1) == [];
    }
    RemoveIdAppend(regs, [r2], id2);
    assert RemoveId([r2], id2) == [] by { assert [r2][1..] == []; }
    ListenersSnoc(regs, r2);
  }

  /** Registering one more callback calls it after all the others. */
  lemma ListenersSnoc(regs: seq<Registration>, r: Registration)
    ensures Listeners(regs + [r]) == Listeners(regs) + [r.listener]
  {
    assert |Listeners(regs + [r])| == |Listeners(regs) + [r.listener]|;
    forall k | 0 <= k < |regs| + 1
      ensures Listeners(regs + [r])[k] == (Listeners(regs) + [r.listener])[k]
    {
      assert (regs + [r])[k] == if k < |regs| then regs[k] else r;
    }
  }

  /** Deleting from a concatenation deletes from each part. */
  lemma {:induction false} RemoveIdAppend(a: seq<Registration>, b: seq<Registration>, id: nat)
    ensures RemoveId(a + b, id) == RemoveId(a, id) + RemoveId(b, id)
  {
    if a != [] {
      assert (a + b)[1..] == a[1..] + b;
      RemoveIdAppend(a[1..], b, id);
    } else {
      assert a + b == b;
    }
  }

  class ControlStore {
    var state: Command
    var subscribers: seq<Registration>
    /** Stands for `Symbol()`: the next id is one no registration holds. */
    var nextId: nat
    /** Every listener call made so far, in order. */
    var trace: seq<Event<Command>>

    ghost predicate Valid()
      reads this
    {
      && UniqueIds(subscribers)
      && forall x :: x in subscribers ==> x.id < nextId
    }

    constructor ()
      ensures Valid()
      ensures state == Initial && subscribers == [] && trace == []
    {
      state := Initial;
      subscribers := [];
      nextId := 0;
      trace := [];
    }

    /** The interlocked update: rejected updates change nothing and notify
        no one; accepted ones merge and notify every subscriber. */
    method Update(p: Patch)
      requires Valid()
      modifies this
      ensures Valid()
      ensures state == Apply(old(state), p)
      ensures subscribers == old(subscribers) && nextId == old(nextId)
      ensures trace == old(trace) + (if Accepts(old(state), p) then Broadcast(Listeners(subscribers), state) else [])
    {
      if state.eStop && p.eStop.None? {
        return;
      }
      state := Merge(state, p);
      Notify();
    }

    /** Call every subscriber, in registration order, with the full command. */
    method Notify()
      modifies this`trace
      ensures trace == old(trace) + Broadcast(Listeners(subscribers), state)
    {
      var ls := Listeners(subscribers);
      var i := 0;
      while i < |ls|
        invariant 0 <= i <= |ls|
        invariant trace == old(trace) + Broadcast(ls[..i], state)
      {
        BroadcastStep(ls, i, state);
        trace := trace + [Event(ls[i], state)];
        i := i + 1;
      }
      assert ls[..i] == ls;
    }

    /** Register `l` under a fresh id and call it once with the command. */
    method Subscribe(l: ListenerId) returns (id: nat)
      requires Valid()
      modifies this
      ensures Valid()
      ensures id == old(nextId) && forall x :: x in old(subscribers) ==> x.id != id
      ensures subscribers == old(subscribers) + [Registration(id, l)]
      ensures state == old(state)
      ensures trace == old(trace) + [Event(l, state)]
    {
      id := nextId;
      nextId := nextId + 1;
      subscribers := subscribers + [Registration(id, l)];
      trace := trace + [Event(l, state)];
    }

    /** The closure `subscribe` returns: delete this id, reporting whether it
        was present. */
    method Unsubscribe(id: nat) returns (removed: bool)
      requires Valid()
      modifies this`subscribers
      ensures Valid()
      ensures removed == exists x :: x in old(subscribers) && x.id == id
      ensures subscribers == RemoveId(old(subscribers), id)
    {
      removed := exists x :: x in subscribers && x.id == id;
      subscribers := RemoveId(subscribers, id);
      RemoveIdKeepsUnique(old(subscribers), id);
    }

    /** `get()`. */
    function Get(): Command
      reads this
    {
      state
    }

    method TriggerEmergencyStop()
      requires Valid()
      modifies this
      ensures Valid()
      ensures state == old(state).(eStop := true, linear := 0.0, angular := 0.0)
      ensures subscribers == old(subscribers)
      ensures trace == old(trace) + Broadcast(Listeners(subscribers), state)
    {
      Update(StopPatch);
    }

    method ClearEmergencyStop()
      requires Valid()
      modifies this
      ensures Valid()
      ensures state == old(state).(eStop := false)
      ensures subscribers == old(subscribers)
      ensures trace == old(trace) + Broadcast(Listeners(subscribers), state)
    {
      Update(ClearPatch);
    }
  }

  /** The same update sent twice, as `processInput` does on every frame while
      a stick is held: the command ends as after one update, but an accepted
      repeat calls every subscriber a second time. */
  method RepeatedUpdate(store: ControlStore, p: Patch)
    requires store.Valid()
    modifies store
    ensures store.Valid()
    ensures store.state == Apply(old(store.state), p)
    ensures store.subscribers == old(store.subscribers)
    ensures Accepts(old(store.state), p) ==>
      store.trace == old(store.trace) + Broadcast(Listeners(store.subscribers), store.state)
                                      + Broadcast(Listeners(store.subscribers), store.state)
    ensures !Accepts(old(store.state), p) ==> store.trace == old(store.trace)
  {
    store.Update(p);
    store.Update(p);
    UpdateIdempotent(old(store.state), p);
  }
}
