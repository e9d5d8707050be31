/** The telemetry store: the latest value of every named topic, a per-topic
    registry of listeners, and synchronous per-topic fan-out on update. */
module Telemetry {
  import opened Common

  /** The JavaScript values a topic can hold. Objects and arrays are plain
      values here; the source hands out references to them. */
  datatype Value =
    | Undefined
    | Null
    | Bool(b: bool)
    | Num(x: real)
    | Str(s: string)
    | Obj(fields: map<string, Value>)
    | Arr(items: seq<Value>)

  /** JavaScript truthiness (NaN is not modelled: numbers are reals). Every
      object and array is truthy, even an empty one. */
  predicate Truthy(v: Value): (r: bool)
    ensures v.Obj? || v.Arr? ==> r
    ensures v.Undefined? || v.Null? || v == Num(0.0) || v == Str("") ==> !r
  {
    match v
    case Undefined => false
    case Null => false
    case Bool(b) => b
    case Num(x) => x != 0.0
    case Str(s) => s != ""
    case Obj(_) => true
    case Arr(_) => true
  }

  /** `state[topic]`: a missing property reads as `undefined`. */
  function Lookup(state: map<string, Value>, topic: string): (v: Value)
    ensures topic !in state ==> v == Undefined
    ensures topic in state ==> v == state[topic]
  {
    if topic in state then state[topic] else Undefined
  }

  /** The own keys of a partial-state object, in `Object.keys` order. An
      object never has the same key twice. */
  predicate DistinctKeys(p: seq<(string, Value)>)
  {
    forall i, j :: 0 <= i < j < |p| ==> p[i].0 != p[j].0
  }

  type Partial = p: seq<(string, Value)> | DistinctKeys(p) witness []

  function KeysOf(p: Partial): (ks: set<string>)
    ensures forall k :: k in ks <==> exists i :: 0 <= i < |p| && p[i].0 == k
  {
    set i | 0 <= i < |p| :: p[i].0
  }

  const DefaultTopics: set<string> :=
    {"imu", "odometry", "battery", "path", "occupancyGrid", "status", "latency"}

  /** The snapshot the store is constructed with. */
  function DefaultState(): (s: map<string, Value>)
    ensures s.Keys == DefaultTopics
  {
    map[
      "imu" := Obj(map["roll" := Num(0.0), "pitch" := Num(0.0), "yaw" := Num(0.0)]),
      "odometry" := Obj(map["x" := Num(0.0), "y" := Num(0.0), "z" := Num(0.0),
                            "vx" := Num(0.0), "vy" := Num(0.0), "vz" := Num(0.0)]),
      "battery" := Obj(map["voltage" := Num(0.0), "current" := Num(0.0), "percentage" := Num(0.0)]),
      "path" := Arr([]),
      "occupancyGrid" := Null,
      "status" := Str("DISCONNECTED"),
      "latency" := Num(0.0)
    ]
  }

  /** `{ ...state, ...p }`: every topic named in `p` takes `p`'s value, every
      other topic keeps its value, and no topic is removed. */
  function Merge(state: map<string, Value>, p: Partial): (r: map<string, Value>)
    decreases |p|
    ensures r.Keys == state.Keys + KeysOf(p)
    ensures forall i :: 0 <= i < |p| ==> r[p[i].0] == p[i].1
    ensures forall k :: k in state && k !in KeysOf(p) ==> r[k] == state[k]
  {
    if p == [] then state
    else
      var rest: Partial := p[1..];
      assert forall i :: 1 <= i < |p| ==> p[i] == rest[i - 1];
      assert p[0].0 !in KeysOf(rest);
      assert KeysOf(p) == {p[0].0} + KeysOf(rest);
      Merge(state[p[0].0 := p[0].1], rest)
  }

  /** The calls made for one key of an update: every listener of that topic,
      in registration order, with the topic's value in the merged state. */
  function TopicFanout(subs: map<string, seq<ListenerId>>, key: string, state: map<string, Value>): (r: seq<Event<Value>>)
    ensures |r| == if key in subs then |subs[key]| else 0
  {
    if key in subs then Broadcast(subs[key], Lookup(state, key)) else []
  }

  /** Each call of a key's fan-out goes to a listener of that key and
      carries that key's value. */
  lemma FanoutCalls(subs: map<string, seq<ListenerId>>, key: string, state: map<string, Value>)
    ensures forall e :: e in TopicFanout(subs, key, state) ==>
              key in subs && e.listener in subs[key] && e.payload == Lookup(state, key)
  {
  }

  /** The calls made by `update(p)`, key after key in `Object.keys(p)` order. */
  function UpdateTrace(p: seq<(string, Value)>, subs: map<string, seq<ListenerId>>, state: map<string, Value>): (r: seq<Event<Value>>)
    decreases |p|
  {
    if p == [] then []
    else UpdateTrace(p[..|p| - 1], subs, state) + TopicFanout(subs, p[|p| - 1].0, state)
  }

  /** Keys nobody listens to produce no calls. */
  lemma {:induction false} UnwatchedKeysCallNoOne(p: seq<(string, Value)>, subs: map<string, seq<ListenerId>>,
                                                  state: map<string, Value>)
    requires forall i :: 0 <= i < |p| ==> p[i].0 !in subs
    ensures UpdateTrace(p, subs, state) == []
  {
    if p != [] {
      var front := p[..|p| - 1];
      assert forall i :: 0 <= i < |front| ==> front[i] == p[i];
      UnwatchedKeysCallNoOne(front, subs, state);
    }
  }

  /** Extending the keys by one appends that key's fan-out. */
  lemma UpdateTraceStep(p: seq<(string, Value)>, i: nat, subs: map<string, seq<ListenerId>>, state: map<string, Value>)
    requires i < |p|
    ensures UpdateTrace(p[..i + 1], subs, state) == UpdateTrace(p[..i], subs, state) + TopicFanout(subs, p[i].0, state)
  {
    assert p[..i + 1][..i] == p[..i];
  }

  lemma AppendAssoc<T>(a: seq<T>, b: seq<T>, c: seq<T>)
    ensures a + b + c == a + (b + c)
  {
  }

  /** A call is made by `update(p)` exactly when its listener is registered
      on a key of `p`, and it carries that topic's value. */
  lemma {:induction false} UpdateTraceMembership(p: seq<(string, Value)>, subs: map<string, seq<ListenerId>>,
                                                 state: map<string, Value>, l: ListenerId, v: Value)
    ensures Event(l, v) in UpdateTrace(p, subs, state) <==>
            exists i :: 0 <= i < |p| && p[i].0 in subs && l in subs[p[i].0] && v == Lookup(state, p[i].0)
  {
    if p != [] {
      var n := |p| - 1;
      var front := p[..n];
      UpdateTraceMembership(front, subs, state, l, v);
      var fan := TopicFanout(subs, p[n].0, state);
      assert Event(l, v) in fan <==> p[n].0 in subs && l in subs[p[n].0] && v == Lookup(state, p[n].0) by {
        if p[n].0 in subs {
          var ls := subs[p[n].0];
          if l in ls {
            var j :| 0 <= j < |ls| && ls[j] == l;
            assert fan[j] == Event(l, Lookup(state, p[n].0));
          }
        }
      }
      if exists i :: 0 <= i < |p| && p[i].0 in subs && l in subs[p[i].0] && v == Lookup(state, p[i].0) {
        var i :| 0 <= i < |p| && p[i].0 in subs && l in subs[p[i].0] && v == Lookup(state, p[i].0);
        if i < n { assert front[i] == p[i]; }
      }
    }
  }

  /** The value an update delivers for a key is the value the update carried. */
  lemma UpdateDeliversNewValues(s: map<string, Value>, p: Partial, subs: map<string, seq<ListenerId>>,
                                l: ListenerId, v: Value)
    ensures Event(l, v) in UpdateTrace(p, subs, Merge(s, p)) <==>
            exists i :: 0 <= i < |p| && p[i].0 in subs && l in subs[p[i].0] && v == p[i].1
  {
    UpdateTraceMembership(p, subs, Merge(s, p), l, v);
  }

  /** Topic isolation: a listener registered on no key of `p` is not called. */
  lemma TopicIsolation(p: Partial, subs: map<string, seq<ListenerId>>, state: map<string, Value>, l: ListenerId)
    requires forall k :: k in KeysOf(p) && k in subs ==> l !in subs[k]
    ensures forall e :: e in UpdateTrace(p, subs, state) ==> e.listener != l
  {
    forall e | e in UpdateTrace(p, subs, state) ensures e.listener != l {
      UpdateTraceMembership(p, subs, state, e.listener, e.payload);
    }
  }

  /** `update({})` changes nothing and calls no one. */
  lemma EmptyUpdate(s: map<string, Value>, subs: map<string, seq<ListenerId>>)
    ensures Merge(s, []) == s
    ensures UpdateTrace([], subs, s) == []
  {
  }

  /** With the defaults, an early subscriber is replayed the topic's value for
      `imu`, `odometry`, `battery`, `path` (an empty array is truthy) and
      `status`, but not for `latency` (0) or `occupancyGrid` (null). */
  lemma DefaultReplay()
    ensures forall t :: t in DefaultTopics ==>
              (Truthy(Lookup(DefaultState(), t)) <==> t in {"imu", "odometry", "battery", "path", "status"})
  {
  }

  /** What `subscribe` returns: its closure removes exactly this listener
      from exactly this topic. */
  datatype Subscription = Subscription(topic: string, listener: ListenerId)

  class TelemetryStore {
    var state: map<string, Value>
    var subscribers: map<string, seq<ListenerId>>
    /** Every listener call made so far, in order. */
    var trace: seq<Event<Value>>

    ghost predicate Valid()
      reads this
    {
      && DefaultTopics <= state.Keys
      && forall t :: t in subscribers ==> NoDup(subscribers[t])
    }

    constructor ()
      ensures Valid()
      ensures state == DefaultState() && subscribers == map[] && trace == []
    {
      state := DefaultState();
      subscribers := map[];
      trace := [];
    }

    /** Shallow merge, then notify the listeners of each key of `p`. */
    method Update(p: Partial)
      requires Valid()
      modifies this
      ensures Valid()
      ensures state == Merge(old(state), p)
      ensures subscribers == old(subscribers)
      ensures trace == old(trace) + UpdateTrace(p, subscribers, state)
    {
      state := Merge(state, p);
      var i := 0;
      while i < |p|
        invariant 0 <= i <= |p|
        invariant trace == old(trace) + UpdateTrace(p[..i], subscribers, state)
        modifies this`trace
      {
        ghost var done := UpdateTrace(p[..i], subscribers, state);
        NotifyTopic(p[i].0);
        ghost var next := TopicFanout(subscribers, p[i].0, state);
        UpdateTraceStep(p, i, subscribers, state);
        AppendAssoc(old(trace), done, next);
        i := i + 1;
      }
      assert p[..|p|] == p;
    }

    /** The inner `forEach`: call every listener of `key` with its value. */
    method NotifyTopic(key: string)
      modifies this`trace
      ensures trace == old(trace) + TopicFanout(subscribers, key, state)
    {
      if key in subscribers {
        var ls := subscribers[key];
        var value := Lookup(state, key);
        var j := 0;
        while j < |ls|
          invariant 0 <= j <= |ls|
          invariant trace == old(trace) + Broadcast(ls[..j], value)
        {
          BroadcastStep(ls, j, value);
          trace := trace + [Event(ls[j], value)];
          j := j + 1;
        }
        assert ls[..j] == ls;
      }
    }

    /** Register `l` on `topic` (a set: at most once), replay the current
        value to it when that value is truthy, and hand back the handle. */
    method Subscribe(topic: string, l: ListenerId) returns (u: Subscription)
      requires Valid()
      modifies this
      ensures Valid()
      ensures u == Subscription(topic, l)
      ensures state == old(state)
      ensures subscribers == old(subscribers)[topic := Insert(if topic in old(subscribers) then old(subscribers)[topic] else [], l)]
      ensures trace == old(trace) + (if Truthy(Lookup(state, topic)) then [Event(l, Lookup(state, topic))] else [])
    {
      var ls := if topic in subscribers then subscribers[topic] else [];
      subscribers := subscribers[topic := Insert(ls, l)];
      var current := Lookup(state, topic);
      if Truthy(current) {
        trace := trace + [Event(l, current)];
      }
      u := Subscription(topic, l);
    }

    /** The closure returned by `subscribe`. */
    method Unsubscribe(u: Subscription)
      requires Valid()
      modifies this
      ensures Valid()
      ensures state == old(state) && trace == old(trace)
      ensures u.topic in old(subscribers) ==>
                subscribers == old(subscribers)[u.topic := Delete(old(subscribers)[u.topic], u.listener)]
      ensures u.topic !in old(subscribers) ==> subscribers == old(subscribers)
    {
      if u.topic in subscribers {
        var ls := subscribers[u.topic];
        if u.listener in ls {
          var i :| 0 <= i < |ls| && ls[i] == u.listener;
          DeleteMember(ls, u.listener, i);
        }
        subscribers := subscribers[u.topic := Delete(ls, u.listener)];
      }
    }

    /** `get()`: the current snapshot, which always holds every default topic. */
    function Get(): (s: map<string, Value>)
      reads this
      requires Valid()
      ensures DefaultTopics <= s.Keys
    {
      state
    }
  }

  /** Unsubscribing removes that listener from that topic only, and calling
      the same unsubscribe again is a no-op. */
  lemma UnsubscribeExact(subs: map<string, seq<ListenerId>>, u: Subscription)
    requires u.topic in subs
    ensures var after := subs[u.topic := Delete(subs[u.topic], u.listener)];
            && u.listener !in after[u.topic]
            && (forall x :: x in after[u.topic] <==> x in subs[u.topic] && x != u.listener)
            && (forall t :: t in subs && t != u.topic ==> after[t] == subs[t])
            && after[u.topic := Delete(after[u.topic], u.listener)] == after
  {
    DeleteTwice(subs[u.topic], u.listener);
  }
}
