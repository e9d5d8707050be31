/** The parameter store: a grouped configuration tree, the writes still
    waiting for the vehicle's acknowledgement, and the acknowledgements
    themselves, which arrive after a random delay and so in any order. */
module Parameters {
  import opened Common

  // ---------------------------------------------------------------------
  // Dotted paths: `path.split('.')`

  /** `s.split('.')`: the pieces between the dots, empty ones included. */
  function Split(s: string): (r: seq<string>)
    ensures |r| >= 1
    ensures forall i :: 0 <= i < |r| ==> '.' !in r[i]
  {
    if s == [] then [""]
    else if s[0] == '.' then [""] + Split(s[1..])
    else
      var rest := Split(s[1..]);
      [[s[0]] + rest[0]] + rest[1..]
  }

  /** `parts.join('.')`. */
  function Join(parts: seq<string>): string
    requires |parts| >= 1
  {
    if |parts| == 1 then parts[0] else parts[0] + "." + Join(parts[1..])
  }

  /** Splitting loses nothing: joining the pieces gives the path back. */
  lemma {:induction false} JoinSplit(s: string)
    ensures Join(Split(s)) == s
  {
    if s != [] {
      JoinSplit(s[1..]);
      if s[0] == '.' {
        assert [""] + Split(s[1..]) == [""] + Split(s[1..]);
        assert ([""] + Split(s[1..]))[1..] == Split(s[1..]);
      } else {
        var rest := Split(s[1..]);
        var r := [[s[0]] + rest[0]] + rest[1..];
        if |rest| == 1 {
          assert r == [[s[0]] + rest[0]];
        } else {
          assert r[1..] == rest[1..];
          assert Join(rest) == rest[0] + "." + Join(rest[1..]);
        }
        assert [s[0]] + s[1..] == s;
      }
    }
  }

  /** A piece without a dot splits to itself. */
  lemma {:induction false} SplitNoDot(a: string)
    requires '.' !in a
    ensures Split(a) == [a]
  {
    if a != [] {
      assert '.' !in a[1..] by { assert forall i :: 0 <= i < |a[1..]| ==> a[1..][i] == a[i + 1]; }
      SplitNoDot(a[1..]);
      assert [a[0]] + a[1..] == a;
    }
  }

  /** Splitting at the first dot. */
  lemma {:induction false} SplitAtFirstDot(a: string, t: string)
    requires '.' !in a
    ensures Split(a + "." + t) == [a] + Split(t)
  {
    if a == [] {
      assert a + "." + t == "." + t;
      assert ("." + t)[1..] == t;
    } else {
      assert '.' !in a[1..] by { assert forall i :: 0 <= i < |a[1..]| ==> a[1..][i] == a[i + 1]; }
      SplitAtFirstDot(a[1..], t);
      assert (a + "." + t)[1..] == a[1..] + "." + t;
      assert [a[0]] + a[1..] == a;
    }
  }

  /** Joining dot-free pieces and splitting again gives the pieces back. */
  lemma {:induction false} SplitJoin(parts: seq<string>)
    requires |parts| >= 1
    requires forall i :: 0 <= i < |parts| ==> '.' !in parts[i]
    ensures Split(Join(parts)) == parts
  {
    if |parts| == 1 {
      SplitNoDot(parts[0]);
    } else {
      SplitJoin(parts[1..]);
      SplitAtFirstDot(parts[0], Join(parts[1..]));
    }
  }

  // ---------------------------------------------------------------------
  // The configuration tree

  /** A parameter is a number or a group of named parameters. */
  datatype Node = Num(x: real) | Group(entries: map<string, Node>)

  /** `this.params`: the top-level object. */
  type Tree = map<string, Node>

  /** The three groups the store starts with; every default parameter sits
      one level down, in a group. */
  function Defaults(): (t: Tree)
    ensures t.Keys == {"velocity", "pid", "sensors"}
    ensures forall g :: g in t ==> t[g].Group? && forall k :: k in t[g].entries ==> t[g].entries[k].Num?
  {
    map[
      "velocity" := Group(map["max_linear" := Num(2.0), "max_angular" := Num(1.5), "acceleration" := Num(0.5)]),
      "pid" := Group(map["kp" := Num(1.2), "ki" := Num(0.05), "kd" := Num(0.4)]),
      "sensors" := Group(map["lidar_offset_x" := Num(0.2), "lidar_offset_z" := Num(0.1)])
    ]
  }

  /** `params[group][key]`, when there is such a parameter. */
  function At(t: Tree, group: string, key: string): Option<Node>
  {
    if group in t && t[group].Group? && key in t[group].entries then Some(t[group].entries[key]) else None
  }

  /** What `current` holds in the walk of `handleACK`: an object, a number,
      `undefined`, or nothing because reading a property of `undefined`
      threw a TypeError. */
  datatype Cursor = AtGroup(entries: map<string, Node>) | AtNumber | AtUndefined | Thrown

  /** `current = current[k]`. A number has no such property; `undefined`
      throws. */
  function Read(c: Cursor, k: string): (r: Cursor)
    ensures c.AtUndefined? || c.Thrown? ==> r.Thrown?
    ensures r.AtGroup? ==> c.AtGroup? && k in c.entries && c.entries[k] == Group(r.entries)
  {
    match c
    case AtGroup(m) =>
      if k !in m then AtUndefined
      else if m[k].Num? then AtNumber
      else AtGroup(m[k].entries)
    case AtNumber => AtUndefined
    case AtUndefined => Thrown
    case Thrown => Thrown
  }

  /** The cursor after reading `keys` one after the other. */
  function Walk(c: Cursor, keys: seq<string>): (r: Cursor)
    decreases |keys|
    ensures c.Thrown? ==> r.Thrown?
    ensures r.AtGroup? && keys != [] ==> c.AtGroup? && keys[0] in c.entries && c.entries[keys[0]].Group?
  {
    if keys == [] then c else Walk(Read(c, keys[0]), keys[1..])
  }

  /** One more step of the loop reads one more key. */
  lemma {:induction false} WalkSnoc(c: Cursor, keys: seq<string>, k: string)
    decreases |keys|
    ensures Walk(c, keys + [k]) == Read(Walk(c, keys), k)
  {
    if keys != [] {
      assert (keys + [k])[1..] == keys[1..] + [k];
      WalkSnoc(Read(c, keys[0]), keys[1..], k);
    }
  }

  /** Once the walk has left the objects it never finds one again. */
  lemma {:induction false} WalkStaysOff(c: Cursor, keys: seq<string>)
    requires !c.AtGroup?
    ensures !Walk(c, keys).AtGroup?
    decreases |keys|
  {
    if keys != [] {
      WalkStaysOff(Read(c, keys[0]), keys[1..]);
    }
  }

  /** `current[last] = value` at the end of the walk along `keys`, in a
      strict-mode module: the write succeeds only into an object, and then
      only that one property changes. `None` is the TypeError. */
  function Assign(t: Tree, keys: seq<string>, v: real): (r: Option<Tree>)
    requires |keys| >= 1
    ensures r.Some? ==> r.value.Keys == t.Keys + {keys[0]}
    ensures r.Some? ==> forall g :: g in t && g != keys[0] ==> r.value[g] == t[g]
    ensures r.Some? && |keys| == 1 ==> r.value[keys[0]] == Num(v)
    decreases |keys|
  {
    if |keys| == 1 then Some(t[keys[0] := Num(v)])
    else if keys[0] in t && t[keys[0]].Group? then
      match Assign(t[keys[0]].entries, keys[1..], v)
      case Some(child) => Some(t[keys[0] := Group(child)])
      case None => None
    else None
  }

  /** The write of `handleACK` succeeds exactly when its walk ends on an
      object. */
  lemma {:induction false} AssignIffParentIsObject(t: Tree, keys: seq<string>, v: real)
    requires |keys| >= 1
    ensures Assign(t, keys, v).Some? <==> Walk(AtGroup(t), keys[..|keys| - 1]).AtGroup?
    decreases |keys|
  {
    var n := |keys| - 1;
    if n > 0 {
      var front := keys[..n];
      assert front[0] == keys[0] && front[1..] == keys[1..][..n - 1];
      var next := Read(AtGroup(t), keys[0]);
      assert Walk(AtGroup(t), front) == Walk(next, keys[1..][..n - 1]);
      if keys[0] in t && t[keys[0]].Group? {
        AssignIffParentIsObject(t[keys[0]].entries, keys[1..], v);
      } else {
        WalkStaysOff(next, keys[1..][..n - 1]);
      }
    }
  }

  /** For `group.key` with an existing group, the ACK writes the value at
      that key and changes no other key of the group and no other group. */
  lemma AckWritesGroupKey(t: Tree, group: string, key: string, v: real)
    requires '.' !in group && '.' !in key
    requires group in t && t[group].Group?
    ensures var r := Assign(t, Split(group + "." + key), v);
            && r.Some?
            && r.value == t[group := Group(t[group].entries[key := Num(v)])]
            && r.value[group].entries[key] == Num(v)
            && (forall g :: g in t && g != group ==> r.value[g] == t[g])
            && (forall k :: k in t[group].entries && k != key ==> r.value[group].entries[k] == t[group].entries[k])
  {
    SplitAtFirstDot(group, key);
    SplitNoDot(key);
    assert Split(group + "." + key) == [group, key];
    assert [group, key][1..] == [key];
  }

  /** A path whose group does not exist, or whose parent is a number, makes
      `handleACK` throw before it writes anything. */
  lemma AckToMissingGroupThrows(t: Tree, group: string, key: string, v: real)
    requires '.' !in group && '.' !in key
    requires group !in t || t[group].Num?
    ensures Assign(t, Split(group + "." + key), v).None?
  {
    SplitAtFirstDot(group, key);
    SplitNoDot(key);
    assert Split(group + "." + key) == [group, key];
  }

  // ---------------------------------------------------------------------
  // The store as a state machine: what `get()` returns

  datatype Snapshot = Snapshot(params: Tree, pending: map<string, real>)

  /** `updateParam(path, v)`: the value is recorded as pending; the tree
      waits for the ACK. */
  function RequestWrite(s: Snapshot, path: string, v: real): (r: Snapshot)
    ensures r.params == s.params
    ensures path in r.pending && r.pending[path] == v
    ensures r.pending.Keys == s.pending.Keys + {path}
  {
    s.(pending := s.pending[path := v])
  }

  /** `handleACK(path, v)`: commit, then forget the pending entry for the
      path whatever value it holds. A TypeError leaves both untouched. */
  function Acknowledge(s: Snapshot, path: string, v: real): (r: Snapshot)
    ensures r == s || path !in r.pending
    ensures Assign(s.params, Split(path), v).None? ==> r == s
    ensures r.pending.Keys <= s.pending.Keys
  {
    match Assign(s.params, Split(path), v)
    case Some(t) => Snapshot(t, s.pending - {path})
    case None => s
  }

  /** A write shows as pending at once, overwriting any earlier pending value,
      and the committed tree is untouched until the ACK. */
  lemma PendingVisibility(s: Snapshot, path: string, v: real)
    ensures var r := RequestWrite(s, path, v);
            && r.pending[path] == v && r.params == s.params
            && (forall p :: p in s.pending && p != path ==> p in r.pending && r.pending[p] == s.pending[p])
            && r.pending.Keys == s.pending.Keys + {path}
  {
  }

  /** An ACK deletes the path from pending even when a newer write left a
      different value there, and leaves every other path's entry alone. */
  lemma AckClearsNewerPending(s: Snapshot, group: string, key: string, older: real, newer: real)
    requires '.' !in group && '.' !in key
    requires group in s.params && s.params[group].Group?
    ensures var path := group + "." + key;
            var r := Acknowledge(RequestWrite(s, path, newer), path, older);
            && path !in r.pending
            && At(r.params, group, key) == Some(Num(older))
            && (forall p :: p in s.pending && p != path ==> p in r.pending && r.pending[p] == s.pending[p])
  {
    AckWritesGroupKey(s.params, group, key, older);
  }

  /** A single write followed by its own ACK commits the value and clears
      the pending entry. */
  lemma EventualCommit(s: Snapshot, group: string, key: string, v: real)
    requires '.' !in group && '.' !in key
    requires group in s.params && s.params[group].Group?
    ensures var path := group + "." + key;
            var r := Acknowledge(RequestWrite(s, path, v), path, v);
            && At(r.params, group, key) == Some(Num(v))
            && path !in r.pending
  {
    AckWritesGroupKey(s.params, group, key, v);
  }

  /** Two writes to one path whose ACKs arrive newest first: the older ACK
      fires last and wins, so the committed value regresses to the older
      value although the newer one was requested last, and nothing is left
      pending to show it. */
  lemma StaleAckRegresses(s: Snapshot, group: string, key: string, v1: real, v2: real)
    requires '.' !in group && '.' !in key
    requires group in s.params && s.params[group].Group?
    requires v1 != v2
    ensures var path := group + "." + key;
            var requested := RequestWrite(RequestWrite(s, path, v1), path, v2);
            var r := Acknowledge(Acknowledge(requested, path, v2), path, v1);
            && requested.pending[path] == v2
            && At(r.params, group, key) == Some(Num(v1)) && At(r.params, group, key) != Some(Num(v2))
            && path !in r.pending
  {
    var path := group + "." + key;
    var requested := RequestWrite(RequestWrite(s, path, v1), path, v2);
    AckWritesGroupKey(requested.params, group, key, v2);
    var mid := Acknowledge(requested, path, v2);
    AckWritesGroupKey(mid.params, group, key, v1);
  }

  // ---------------------------------------------------------------------
  // The store

  class ParameterStore {
    var params: Tree
    /** `pendingACK`: path -> value. */
    var pending: map<string, real>
    /** The `Set` of callbacks, in insertion order. */
    var subscribers: seq<ListenerId>
    /** The ACK callbacks scheduled by `setTimeout` and not yet run. */
    var outstanding: seq<(string, real)>
    /** Every listener call made so far, in order. */
    var trace: seq<Event<Snapshot>>
    /** The value most recently requested for each path. */
    ghost var latest: map<string, real>

    ghost predicate Valid()
      reads this
    {
      && NoDup(subscribers)
      && forall p :: p in pending ==> p in latest && pending[p] == latest[p]
    }

    constructor ()
      ensures Valid()
      ensures params == Defaults() && pending == map[]
      ensures subscribers == [] && outstanding == [] && trace == []
    {
      params := Defaults();
      pending := map[];
      subscribers := [];
      outstanding := [];
      trace := [];
      latest := map[];
    }

    /** `get()`: the tree and a copy of the pending map; every pending
        entry shows the value requested last for its path. */
    function Get(): (s: Snapshot)
      reads this
      requires Valid()
      ensures forall p :: p in s.pending ==> p in latest && s.pending[p] == latest[p]
    {
      Snapshot(params, pending)
    }

    /** Add `l` (once) and call it with the current snapshot. */
    method Subscribe(l: ListenerId)
      requires Valid()
      modifies this`subscribers, this`trace
      ensures Valid()
      ensures subscribers == Insert(old(subscribers), l)
      ensures trace == old(trace) + [Event(l, Get())]
    {
      subscribers := Insert(subscribers, l);
      trace := trace + [Event(l, Get())];
    }

    /** The closure `subscribe` returns: `subscribers.delete(l)`. */
    method Unsubscribe(l: ListenerId) returns (removed: bool)
      requires Valid()
      modifies this`subscribers
      ensures Valid()
      ensures removed == (l in old(subscribers))
      ensures subscribers == Delete(old(subscribers), l)
    {
      removed := l in subscribers;
      if removed {
        var i :| 0 <= i < |subscribers| && subscribers[i] == l;
        DeleteMember(subscribers, l, i);
      }
      subscribers := Delete(subscribers, l);
    }

    /** Call every subscriber, in insertion order, with one snapshot. */
    method Notify()
      requires Valid()
      modifies this`trace
      ensures trace == old(trace) + Broadcast(subscribers, Get())
    {
      var state := Get();
      var i := 0;
      while i < |subscribers|
        invariant 0 <= i <= |subscribers|
        invariant trace == old(trace) + Broadcast(subscribers[..i], state)
      {
        BroadcastStep(subscribers, i, state);
        trace := trace + [Event(subscribers[i], state)];
        i := i + 1;
      }
      assert subscribers[..i] == subscribers;
    }

    /** Mark `path` pending with `v`, notify, and schedule the ACK. */
    method UpdateParam(path: string, v: real)
      requires Valid()
      modifies this
      ensures Valid()
      ensures Get() == RequestWrite(old(Get()), path, v)
      ensures latest == old(latest)[path := v]
      ensures outstanding == old(outstanding) + [(path, v)]
      ensures subscribers == old(subscribers)
      ensures trace == old(trace) + Broadcast(subscribers, Get())
    {
      pending := pending[path := v];
      latest := latest[path := v];
      Notify();
      outstanding := outstanding + [(path, v)];
    }

    /** Walk to the parent object, write the value, forget the pending
        entry, notify. A walk that does not end on an object throws the
        TypeError, and then nothing changes (`ok` is false). */
    method HandleAck(path: string, v: real) returns (ok: bool)
      requires Valid()
      modifies this`params, this`pending, this`trace
      ensures Valid()
      ensures ok == Assign(old(params), Split(path), v).Some?
      ensures Get() == Acknowledge(old(Get()), path, v)
      ensures trace == old(trace) + (if ok then Broadcast(subscribers, Get()) else [])
    {
      var keys := Split(path);
      var current := AtGroup(params);
      var i := 0;
      while i < |keys| - 1
        invariant 0 <= i <= |keys| - 1
        invariant current == Walk(AtGroup(params), keys[..i])
        invariant params == old(params) && pending == old(pending) && trace == old(trace)
      {
        WalkSnoc(AtGroup(params), keys[..i], keys[i]);
        assert keys[..i + 1] == keys[..i] + [keys[i]];
        current := Read(current, keys[i]);
        i := i + 1;
      }
      AssignIffParentIsObject(params, keys, v);
      if !current.AtGroup? {
        ok := false;
        return;
      }
      params := Assign(params, keys, v).value;
      pending := pending - {path};
      Notify();
      ok := true;
    }

    /** The environment runs one scheduled ACK callback, any of them: the
        delays are random, so the order is arbitrary. */
    method DeliverAck(k: nat) returns (ok: bool)
      requires Valid() && k < |outstanding|
      modifies this
      ensures Valid()
      ensures outstanding == old(outstanding)[..k] + old(outstanding)[k + 1..]
      ensures Get() == Acknowledge(old(Get()), old(outstanding)[k].0, old(outstanding)[k].1)
      ensures ok == Assign(old(params), Split(old(outstanding)[k].0), old(outstanding)[k].1).Some?
      ensures subscribers == old(subscribers)
      ensures trace == old(trace) + (if ok then Broadcast(subscribers, Get()) else [])
    {
      var (path, v) := outstanding[k];
      outstanding := outstanding[..k] + outstanding[k + 1..];
      ok := HandleAck(path, v);
    }
  }

  /** The regression from the defaults: writes of 2.0 and then 3.0 to
      `pid.kp`, acknowledged newest first. */
  lemma DefaultsStaleAck()
    ensures var requested := RequestWrite(RequestWrite(Snapshot(Defaults(), map[]), "pid.kp", 2.0), "pid.kp", 3.0);
            var r := Acknowledge(Acknowledge(requested, "pid.kp", 3.0), "pid.kp", 2.0);
            At(r.params, "pid", "kp") == Some(Num(2.0)) && "pid.kp" !in r.pending
  {
    var s0 := Snapshot(Defaults(), map[]);
    assert "pid" in s0.params && s0.params["pid"].Group?;
    StaleAckRegresses(s0, "pid", "kp", 2.0, 3.0);
    assert "pid" + "." + "kp" == "pid.kp";
  }

  /** The regression, driven through the store: two writes to `pid.kp`,
      their ACKs delivered newest first, leave the older value committed. */
  method StaleAckScenario() returns (committed: Node, stillPending: bool)
    ensures committed == Num(2.0) && !stillPending
  {
    var store := new ParameterStore();
    DefaultsStaleAck();
    store.UpdateParam("pid.kp", 2.0);
    store.UpdateParam("pid.kp", 3.0);
    assert store.outstanding[1] == ("pid.kp", 3.0);
    var _ := store.DeliverAck(1);
    assert store.outstanding == [("pid.kp", 2.0)];
    var _ := store.DeliverAck(0);
    assert At(store.params, "pid", "kp") == Some(Num(2.0));
    committed := store.params["pid"].entries["kp"];
    stillPending := "pid.kp" in store.pending;
  }
}
