/** The two listener registries: event name -> ordered list of listeners.

    `On` and `Off` mutate these in the client (see client.dfy); this module
    gives the map each of them produces and what that map means.
 */
module Registry {
  import opened Packets

  /** A listener delegate, standing for its class under `Delegate.Equals`
      (same target and same method): two ids are equal exactly when the
      delegates compare equal, so `Off` with a fresh delegate for the same
      method removes the one registered earlier. */
  type ListenerId = nat

  type Handlers = map<Value, seq<ListenerId>>

  /** The list a dispatch for `name` walks: empty for a null or unregistered name. */
  function Listeners(m: Handlers, name: Option<Value>): seq<ListenerId>
  {
    if name.Some? && name.value in m then m[name.value] else []
  }

  /** Position of the first occurrence of `x` in `s`. */
  function IndexOf(s: seq<ListenerId>, x: ListenerId): (i: nat)
    requires x in s
    ensures i < |s| && s[i] == x && x !in s[..i]
  {
    if s[0] == x then 0
    else
      var j := IndexOf(s[1..], x);
      assert s[..j + 1] == [s[0]] + s[1..][..j];
      j + 1
  }

  /** `List<T>.Remove`: drops the first element equal to `x` and keeps the order
      of the others; a list without `x` is returned as it is. */
  function RemoveFirst(s: seq<ListenerId>, x: ListenerId): (r: seq<ListenerId>)
    ensures x !in s ==> r == s
    ensures x in s ==> r == s[..IndexOf(s, x)] + s[IndexOf(s, x) + 1..]
  {
    if s == [] then []
    else if s[0] == x then s[1..]
    else
      var r := [s[0]] + RemoveFirst(s[1..], x);
      assert x in s ==> s[..IndexOf(s, x)] == [s[0]] + s[1..][..IndexOf(s[1..], x)];
      r
  }

  /** What `On` leaves in the registry: a null name changes nothing; otherwise a
      new name first gets an empty list, then the callback is appended to it. */
  function Add(m: Handlers, name: Option<Value>, cb: ListenerId): (m': Handlers)
    ensures name.None? ==> m' == m
    ensures name.Some? ==> m'.Keys == m.Keys + {name.value}
    ensures name.Some? ==> Listeners(m', name) == Listeners(m, name) + [cb]
    ensures forall k :: k in m && (name.None? || k != name.value) ==> m'[k] == m[k]
  {
    if name.None? then m
    else
      var list := if name.value in m then m[name.value] else [];
      m[name.value := list + [cb]]
  }

  /** What `Off` leaves in the registry: a null or unregistered name changes
      nothing; otherwise only the first occurrence of the callback leaves that
      name's list, and the entry stays even when its list becomes empty. */
  function Remove(m: Handlers, name: Option<Value>, cb: ListenerId): (m': Handlers)
    ensures m'.Keys == m.Keys
    ensures name.None? || name.value !in m ==> m' == m
    ensures name.Some? && name.value in m ==> m'[name.value] == RemoveFirst(m[name.value], cb)
    ensures forall k :: k in m && (name.None? || k != name.value) ==> m'[k] == m[k]
  {
    if name.Some? && name.value in m then m[name.value := RemoveFirst(m[name.value], cb)]
    else m
  }

  /** Removing an element just appended to a list that did not hold it gives the list back. */
  lemma {:induction false} RemoveFirstOfAppended(s: seq<ListenerId>, x: ListenerId)
    requires x !in s
    ensures RemoveFirst(s + [x], x) == s
  {
    if s != [] {
      assert (s + [x])[1..] == s[1..] + [x];
      RemoveFirstOfAppended(s[1..], x);
    }
  }

  /** Removal is by delegate equality and takes one copy: the multiset of
      listeners loses exactly one `x` when it had one, and nothing otherwise. */
  lemma {:induction false} RemoveFirstTakesOneCopy(s: seq<ListenerId>, x: ListenerId)
    ensures multiset(RemoveFirst(s, x)) == multiset(s) - multiset{x}
  {
    if s != [] {
      assert s == [s[0]] + s[1..];
      assert multiset(s) == multiset{s[0]} + multiset(s[1..]);
      if s[0] != x {
        RemoveFirstTakesOneCopy(s[1..], x);
        assert RemoveFirst(s, x) == [s[0]] + RemoveFirst(s[1..], x);
        assert multiset(RemoveFirst(s, x)) == multiset{s[0]} + multiset(RemoveFirst(s[1..], x));
      }
    }
  }

  /** `Off` undoes an `On` of a callback the name did not already hold, and the
      name stays registered. */
  lemma OffUndoesOn(m: Handlers, name: Value, cb: ListenerId)
    requires cb !in Listeners(m, Some(name))
    ensures name in Remove(Add(m, Some(name), cb), Some(name), cb)
    ensures Listeners(Remove(Add(m, Some(name), cb), Some(name), cb), Some(name)) == Listeners(m, Some(name))
  {
    RemoveFirstOfAppended(Listeners(m, Some(name)), cb);
  }

  /** A callback registered once is no longer listed after one `Off`; one
      registered twice is still listed. */
  lemma OffRemovesOneRegistration(m: Handlers, name: Value, cb: ListenerId)
    requires name in m
    ensures multiset(m[name])[cb] == 1 ==> cb !in Listeners(Remove(m, Some(name), cb), Some(name))
    ensures multiset(m[name])[cb] >= 2 ==> cb in Listeners(Remove(m, Some(name), cb), Some(name))
  {
    RemoveFirstTakesOneCopy(m[name], cb);
    var r: seq<ListenerId> := Listeners(Remove(m, Some(name), cb), Some(name));
    assert multiset(m[name])[cb] >= 1 ==> multiset(r)[cb] + 1 == multiset(m[name])[cb];
  }
}
