/** Plumbing shared by the three stores: optional values, listener identities,
    the trace of notifications a store hands to its listeners, and the
    insertion-ordered set that a JavaScript `Set` of callbacks is. */
module Common {

  datatype Option<T> = None | Some(value: T)

  /** A listener (a callback in the source) is identified by an opaque number. */
  type ListenerId = nat

  /** One synchronous call `listener(payload)`. */
  datatype Event<P> = Event(listener: ListenerId, payload: P)

  /** Calling every listener of `ls`, in order, with the same payload. */
  function Broadcast<P>(ls: seq<ListenerId>, payload: P): (r: seq<Event<P>>)
    ensures |r| == |ls|
    ensures forall i :: 0 <= i < |ls| ==> r[i] == Event(ls[i], payload)
  {
    seq(|ls|, i requires 0 <= i < |ls| => Event(ls[i], payload))
  }

  /** Calling one more listener extends the broadcast by one call. */
  lemma BroadcastStep<P>(ls: seq<ListenerId>, j: nat, payload: P)
    requires j < |ls|
    ensures Broadcast(ls[..j + 1], payload) == Broadcast(ls[..j], payload) + [Event(ls[j], payload)]
  {
    var a := Broadcast(ls[..j + 1], payload);
    var b := Broadcast(ls[..j], payload) + [Event(ls[j], payload)];
    assert |a| == |b|;
    forall k | 0 <= k < |a| ensures a[k] == b[k] {
      if k < j { assert ls[..j + 1][k] == ls[..j][k]; }
    }
  }

  /** No listener occurs twice: the shape of a JavaScript `Set`. */
  predicate NoDup(ls: seq<ListenerId>)
  {
    forall i, j :: 0 <= i < j < |ls| ==> ls[i] != ls[j]
  }

  /** `Set.prototype.add`: appends a new member, ignores one already present. */
  function Insert(ls: seq<ListenerId>, l: ListenerId): (r: seq<ListenerId>)
    requires NoDup(ls)
    ensures NoDup(r)
    ensures l in r
    ensures forall x :: x in r <==> x in ls || x == l
    ensures l in ls ==> r == ls
    ensures l !in ls ==> r == ls + [l]
  {
    if l in ls then ls else ls + [l]
  }

  /** `Set.prototype.delete`: removes `l` and keeps the others in their order. */
  function Delete(ls: seq<ListenerId>, l: ListenerId): (r: seq<ListenerId>)
    ensures l !in r
    ensures forall x :: x in r <==> x in ls && x != l
    ensures |r| <= |ls|
    ensures l !in ls ==> r == ls
  {
    if ls == [] then []
    else if ls[0] == l then Delete(ls[1..], l)
    else [ls[0]] + Delete(ls[1..], l)
  }

  /** Deleting a member of a set takes exactly its one position out. */
  lemma DeleteMember(ls: seq<ListenerId>, l: ListenerId, i: nat)
    requires NoDup(ls)
    requires i < |ls| && ls[i] == l
    ensures Delete(ls, l) == ls[..i] + ls[i + 1..]
    ensures NoDup(Delete(ls, l))
  {
    assert l !in ls[..i] && l !in ls[i + 1..];
    DeleteAt(ls, l, i);
    DropKeepsNoDup(ls, i);
  }

  /** Deleting a value that occurs only at position `i` takes that position out. */
  lemma {:induction false} DeleteAt(ls: seq<ListenerId>, l: ListenerId, i: nat)
    requires i < |ls| && ls[i] == l
    requires l !in ls[..i] && l !in ls[i + 1..]
    ensures Delete(ls, l) == ls[..i] + ls[i + 1..]
  {
    if i == 0 {
      assert ls[..0] + ls[1..] == ls[1..];
    } else {
      assert ls[0] == ls[..i][0];
      assert ls[1..][..i - 1] == ls[1..i];
      assert ls[1..][i..] == ls[i + 1..];
      assert l !in ls[1..i];
      DeleteAt(ls[1..], l, i - 1);
      assert [ls[0]] + ls[1..i] == ls[..i];
    }
  }

  /** Taking one position out of a set leaves a set. */
  lemma DropKeepsNoDup(ls: seq<ListenerId>, i: nat)
    requires NoDup(ls) && i < |ls|
    ensures NoDup(ls[..i] + ls[i + 1..])
  {
    var r := ls[..i] + ls[i + 1..];
    forall a, b | 0 <= a < b < |r| ensures r[a] != r[b] {
      var ia := if a < i then a else a + 1;
      var ib := if b < i then b else b + 1;
      assert r[a] == ls[ia] && r[b] == ls[ib];
    }
  }

  /** Adding a listener already registered changes nothing, so a second
      `add` of the same callback leaves a single registration. */
  lemma InsertTwice(ls: seq<ListenerId>, l: ListenerId)
    requires NoDup(ls)
    ensures Insert(Insert(ls, l), l) == Insert(ls, l)
    ensures |Insert(Insert(ls, l), l)| == |ls| + (if l in ls then 0 else 1)
  {
  }

  /** A second delete of the same listener is a no-op. */
  lemma DeleteTwice(ls: seq<ListenerId>, l: ListenerId)
    ensures Delete(Delete(ls, l), l) == Delete(ls, l)
  {
  }
}
