/** The value view of the profiler's address-keyed list: the (key, value)
    pairs of the nodes in list order, head first.  Keys are addresses that
    the C code compares with `==`, never dereferences. */
module AssocList {

  /** A C pointer value, compared by address; 0 stands for NULL. */
  type Ptr = nat

  const NULL: Ptr := 0

  datatype Option<+T> = None | Some(value: T)

  /** Position of the first pair whose key is `key`, or |s| when there is none:
      the node a linear scan from the head stops at. */
  function FirstIndex<V>(s: seq<(Ptr, V)>, key: Ptr): (i: nat)
    ensures i <= |s|
    ensures i < |s| ==> s[i].0 == key
    ensures forall j :: 0 <= j < i ==> s[j].0 != key
  {
    if s == [] then 0
    else if s[0].0 == key then 0
    else 1 + FirstIndex(s[1..], key)
  }

  /** FirstIndex is the only position that a scan stopping at the first match
      can end at: every pair before `i` has another key, and the pair at `i`
      (if any) has key `key`. */
  lemma {:induction false} FirstIndexAt<V>(s: seq<(Ptr, V)>, key: Ptr, i: nat)
    requires i <= |s|
    requires forall j :: 0 <= j < i ==> s[j].0 != key
    requires i < |s| ==> s[i].0 == key
    ensures FirstIndex(s, key) == i
  {
    if s != [] && i > 0 {
      FirstIndexAt(s[1..], key, i - 1);
    }
  }

  /** Some pair has key `key`. */
  predicate HasKey<V>(s: seq<(Ptr, V)>, key: Ptr)
  {
    exists i :: 0 <= i < |s| && s[i].0 == key
  }

  /** No key occurs twice. */
  ghost predicate KeysUnique<V>(s: seq<(Ptr, V)>)
  {
    forall i, j :: 0 <= i < j < |s| ==> s[i].0 != s[j].0
  }

  /** The value of the first pair with key `key`. */
  function Lookup<V>(s: seq<(Ptr, V)>, key: Ptr): (r: Option<V>)
    ensures r.Some? <==> HasKey(s, key)
    ensures r.Some? ==> exists i :: 0 <= i < |s| && s[i] == (key, r.value)
  {
    var i := FirstIndex(s, key);
    if i < |s| then Some(s[i].1) else None
  }

  /** `s` without its element at position `i` (unchanged when i is out of range). */
  function RemoveAt<T>(s: seq<T>, i: nat): seq<T>
  {
    if i < |s| then s[..i] + s[i + 1..] else s
  }

  /** `s` without the first pair whose key is `key`. */
  function Remove<V>(s: seq<(Ptr, V)>, key: Ptr): (r: seq<(Ptr, V)>)
    ensures |r| == if HasKey(s, key) then |s| - 1 else |s|
    ensures !HasKey(s, key) ==> r == s
  {
    RemoveAt(s, FirstIndex(s, key))
  }

  /** Removing a present key drops exactly one pair and keeps the others in
      order; removing an absent key changes nothing. */
  lemma RemoveShape<V>(s: seq<(Ptr, V)>, key: Ptr)
    ensures HasKey(s, key) ==> |Remove(s, key)| == |s| - 1
    ensures HasKey(s, key) ==>
              forall k :: 0 <= k < |s| - 1 ==>
                Remove(s, key)[k] == if k < FirstIndex(s, key) then s[k] else s[k + 1]
    ensures !HasKey(s, key) ==> Remove(s, key) == s
  {
  }

  /** Looking up in a list with a pair prepended. */
  lemma LookupPrepend<V>(p: (Ptr, V), s: seq<(Ptr, V)>, key: Ptr)
    ensures Lookup([p] + s, key) == if p.0 == key then Some(p.1) else Lookup(s, key)
  {
    assert ([p] + s)[1..] == s;
  }

  /** Removing one key does not change what any other key maps to. */
  lemma LookupRemoveOther<V>(s: seq<(Ptr, V)>, key: Ptr, other: Ptr)
    requires key != other
    ensures Lookup(Remove(s, key), other) == Lookup(s, other)
  {
    var i := FirstIndex(s, key);
    if i < |s| {
      var r := s[..i] + s[i + 1..];
      assert forall k :: 0 <= k < |r| ==> r[k] == if k < i then s[k] else s[k + 1];
      // the first `other` moves down by one when it lies beyond the removed pair
      var j := FirstIndex(s, other);
      var j' := if j < i then j else j - 1;
      FirstIndexAt(r, other, j');
    }
  }

  /** With unique keys, a removed key is gone and the keys stay unique. */
  lemma RemoveUnique<V>(s: seq<(Ptr, V)>, key: Ptr)
    requires KeysUnique(s)
    ensures !HasKey(Remove(s, key), key)
    ensures Lookup(Remove(s, key), key) == None
    ensures KeysUnique(Remove(s, key))
  {
    var i := FirstIndex(s, key);
    var r := Remove(s, key);
    if i < |s| {
      assert forall k :: 0 <= k < |r| ==> r[k] == if k < i then s[k] else s[k + 1];
      forall k | 0 <= k < |r|
        ensures r[k].0 != key
      {
        if k >= i {
          assert s[i].0 == key && i < k + 1;
        }
      }
    }
  }

  /** Prepending a pair whose key is absent keeps the keys unique. */
  lemma PrependUnique<V>(p: (Ptr, V), s: seq<(Ptr, V)>)
    requires KeysUnique(s) && !HasKey(s, p.0)
    ensures KeysUnique([p] + s)
  {
    var r := [p] + s;
    forall i, j | 0 <= i < j < |r|
      ensures r[i].0 != r[j].0
    {
      assert r[j] == s[j - 1];
      if i > 0 {
        assert r[i] == s[i - 1];
      }
    }
  }
}
