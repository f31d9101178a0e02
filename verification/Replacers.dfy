/** The LRU replacer: a linked list with stable nodes and an index from value to list node. */
module Replacers {
  import opened Options
  import opened Sequences

  /** A list node; `id` stands for its address, which is what a list iterator holds. */
  datatype Node<T> = Node(id: nat, value: T)

  /** What `lru_list_.end()` points at: no node. */
  const END: nat := 0

  function Values<T>(list: seq<Node<T>>): (r: seq<T>)
    ensures |r| == |list|
    ensures forall i :: 0 <= i < |r| ==> r[i] == list[i].value
  {
    seq(|list|, i requires 0 <= i < |list| => list[i].value)
  }

  /** Every node is indexed under its value. */
  ghost predicate Indexed<T(!new)>(list: seq<Node<T>>, index: map<T, nat>)
  {
    forall i :: 0 <= i < |list| ==> list[i].value in index && index[list[i].value] == list[i].id
  }

  /** No two nodes share an address. */
  ghost predicate Apart<T(!new)>(list: seq<Node<T>>, nextId: nat)
  {
    && END < nextId
    && (forall i :: 0 <= i < |list| ==> END < list[i].id < nextId)
    && (forall i, j :: 0 <= i < j < |list| ==> list[i].id != list[j].id)
  }

  ghost predicate Consistent<T(!new)>(list: seq<Node<T>>, index: map<T, nat>, nextId: nat)
  {
    && Indexed(list, index)
    && Apart(list, nextId)
    && (forall v :: v in index ==> v in Values(list))
  }

  /** List and index hold the same duplicate-free set. */
  lemma SameSet<T(!new)>(list: seq<Node<T>>, index: map<T, nat>, nextId: nat)
    requires Consistent(list, index, nextId)
    ensures NoDup(Values(list))
    ensures forall v :: v in index <==> v in Values(list)
    ensures |index| == |list|
  {
    KeyCount(list, index, nextId);
  }

  lemma {:induction false} KeyCount<T(!new)>(list: seq<Node<T>>, index: map<T, nat>, nextId: nat)
    requires Consistent(list, index, nextId)
    ensures |index| == |list|
  {
    if list == [] {
      assert index.Keys == {} by {
        assert forall v :: v in index ==> v in Values(list);
      }
    } else {
      var n := |list| - 1;
      var last := list[n].value;
      var rest := index - {last};
      assert rest.Keys == index.Keys - {last};
      forall v | v in rest
        ensures v in Values(list[..n])
      {
        var k :| 0 <= k < |list| && Values(list)[k] == v;
        assert Values(list[..n])[k] == v;
      }
      KeyCount(list[..n], rest, nextId);
      assert |index.Keys| == |rest.Keys| + 1;
    }
  }

  /** The node an index entry names is the one holding the value. */
  lemma NodeOf<T(!new)>(list: seq<Node<T>>, index: map<T, nat>, nextId: nat, t: T)
    requires Consistent(list, index, nextId) && t in index
    ensures exists k :: 0 <= k < |list| && list[k].id == index[t]
    ensures forall k :: 0 <= k < |list| && list[k].id == index[t] ==> list[k].value == t
  {
    var j :| 0 <= j < |list| && Values(list)[j] == t;
    assert list[j].id == index[t];
  }

  function Erased<T>(list: seq<Node<T>>, k: nat): (r: seq<Node<T>>)
    requires k < |list|
    ensures |r| == |list| - 1
    ensures forall i :: 0 <= i < |r| ==> r[i] == list[if i < k then i else i + 1]
  {
    list[..k] + list[k + 1..]
  }

  lemma ErasedValues<T>(list: seq<Node<T>>, k: nat)
    requires k < |list| && NoDup(Values(list))
    ensures Values(Erased(list, k)) == Without(Values(list), list[k].value)
  {
    WithoutAt(Values(list), k);
    assert Values(Erased(list, k)) == Values(list)[..k] + Values(list)[k + 1..];
  }

  lemma ErasedParts<T(!new)>(list: seq<Node<T>>, index: map<T, nat>, nextId: nat, k: nat)
    requires Indexed(list, index) && Apart(list, nextId) && k < |list|
    ensures Apart(Erased(list, k), nextId)
    ensures Indexed(Erased(list, k), index - {list[k].value})
  {
    hide Erased;
  }

  lemma EraseConsistent<T(!new)>(list: seq<Node<T>>, index: map<T, nat>, nextId: nat, k: nat)
    requires Consistent(list, index, nextId) && k < |list|
    ensures Consistent(Erased(list, k), index - {list[k].value}, nextId)
    ensures Values(Erased(list, k)) == Without(Values(list), list[k].value)
    ensures list[k].value !in index - {list[k].value}
  {
    SameSet(list, index, nextId);
    ErasedValues(list, k);
    ErasedParts(list, index, nextId, k);
    hide Erased, Values, Indexed, Apart, Without;
  }

  /** The order after `put(t)`: `t` moves to the front; a full list that lacks it drops its back. */
  function AfterPut<T(==)>(order: seq<T>, capacity: nat, t: T): seq<T>
    requires capacity > 0
  {
    if t in order then [t] + Without(order, t)
    else if capacity == |order| then [t] + Front(order)
    else [t] + order
  }

  class LruReplacer<T(==, !new)> {
    var list: seq<Node<T>>
    var index: map<T, nat>
    var nextId: nat
    const capacity: nat

    ghost predicate Valid()
      reads this
    {
      capacity > 0 && Consistent(list, index, nextId)
    }

    ghost function Order(): seq<T>
      reads this
    {
      Values(list)
    }

    constructor (cap: nat)
      requires cap > 0
      ensures Valid() && Order() == [] && capacity == cap
    {
      list, index, nextId, capacity := [], map[], END + 1, cap;
    }

    /** `lru_list_.erase(iter); dir_.erase(t)` */
    method Erase(t: T)
      requires Valid() && t in index
      modifies this
      ensures Valid() && nextId == old(nextId)
      ensures Order() == Without(old(Order()), t) && t !in index
    {
      hide Consistent, Values, Erased, Without;
      NodeOf(list, index, nextId, t);
      var id := index[t];
      var k :| 0 <= k < |list| && list[k].id == id;
      EraseConsistent(list, index, nextId, k);
      list := Erased(list, k);
      index := index - {t};
    }

    /** `lru_list_.push_front(t); dir_.emplace(t, lru_list_.begin())` */
    method PushFront(t: T)
      requires Valid() && t !in index
      modifies this
      ensures Valid() && Order() == [t] + old(Order())
    {
      var id := nextId;
      ghost var was := list;
      list := [Node(id, t)] + list;
      index := index[t := id];
      nextId := nextId + 1;
      assert Values(list) == [t] + Values(was);
    }

    method PopBack() returns (t: T)
      requires Valid() && list != []
      modifies this
      ensures Valid() && t !in index
      ensures old(Order()) == Order() + [t]
    {
      var n := |list| - 1;
      t := list[n].value;
      SameSet(list, index, nextId);
      index := index - {t};
      list := list[..n];
      assert old(Values(list)) == Values(list) + [t];
    }

    method Put(t: T)
      requires Valid()
      modifies this
      ensures Valid()
      ensures Order() == AfterPut(old(Order()), capacity, t)
    {
      SameSet(list, index, nextId);
      if t in index {
        Erase(t);
      } else if capacity == |list| {
        var dropped := PopBack();
      }
      PushFront(t);
    }

    method Remove(t: T)
      requires Valid()
      modifies this
      ensures Valid()
      ensures Order() == Without(old(Order()), t)
    {
      SameSet(list, index, nextId);
      if t in index {
        Erase(t);
      }
    }

    method Victim() returns (t: Option<T>)
      requires Valid()
      modifies this
      ensures Valid()
      ensures old(Order()) == [] ==> t == None && Order() == []
      ensures old(Order()) != [] ==> t.Some? && old(Order()) == Order() + [t.value]
    {
      if list != [] {
        var v := PopBack();
        t := Some(v);
      } else {
        t := None;
      }
    }
  }

  // ---------------------------------------------------------------- touch

  datatype Lists<T> = Lists(list: seq<Node<T>>, index: map<T, nat>, nextId: nat)

  /** `touch(t)`: the node is erased, the index entry is set to the list's head as it is then, and
      only after that a new node for `t` is pushed. */
  function Touch<T(==)>(s: Lists<T>, t: T, k: nat): Lists<T>
    requires t in s.index ==> k < |s.list|
  {
    if t !in s.index then s
    else
      var rest := Erased(s.list, k);
      Lists([Node(s.nextId, t)] + rest,
            s.index[t := if rest == [] then END else rest[0].id],
            s.nextId + 1)
  }

  /** `touch` leaves list and index in agreement exactly when it has nothing to touch. */
  lemma TouchConsistentIff<T(!new)>(s: Lists<T>, t: T, k: nat)
    requires Consistent(s.list, s.index, s.nextId)
    requires t in s.index ==> k < |s.list| && s.list[k].id == s.index[t]
    ensures var r := Touch(s, t, k); Consistent(r.list, r.index, r.nextId) <==> t !in s.index
  {
    if t in s.index {
      var r := Touch(s, t, k);
      assert r.list[0] == Node(s.nextId, t);
      assert r.index[t] != s.nextId;
    }
  }
}
