/** The hash list: a list of keyed entries with a hash map over it. */
module Hashlist {
  import opened ListWalk
  import opened LinkedList
  import opened HashTable
  import opened IndexedLists

  // ----- The insertion-ordered map it implements

  /** A key looks up to the data last put under it, and no put disturbs another key. */
  lemma LookupPut<D>(items: seq<Item<D>>, key: string, data: D, other: string)
    requires DistinctKeys(items)
    ensures DistinctKeys(PutItems(items, key, data))
    ensures Lookup(PutItems(items, key, data), other) == if other == key then Some(data) else Lookup(items, other)
  {
    var p, after := Position(items, key), PutItems(items, key, data);
    assert p == |items| ==> after[p] == Item(key, data);
    forall i | 0 <= i < |items| ensures after[i].key == items[i].key && (i != p ==> after[i] == items[i]) {}
    var q := Position(items, other);
    if other == key {
      SamePosition(after, key, p);
    } else if q < |items| {
      SamePosition(after, other, q);
    } else {
      NoPosition(after, other);
    }
  }

  lemma SamePosition<D>(c: seq<Item<D>>, key: string, at: nat)
    requires at < |c| && c[at].key == key && forall i :: 0 <= i < at ==> c[i].key != key
    ensures Position(c, key) == at
  {}

  lemma LookupRemove<D>(items: seq<Item<D>>, key: string, other: string)
    requires DistinctKeys(items)
    ensures DistinctKeys(RemoveItems(items, key))
    ensures Lookup(RemoveItems(items, key), other) == if other == key then None else Lookup(items, other)
  {
    var p, after := Position(items, key), RemoveItems(items, key);
    if p < |items| {
      WithoutAt(items, p);
      var q := Position(items, other);
      hide Without;
      if other == key {
        NoPosition(after, key);
      } else if q < |items| {
        SamePosition(after, other, if q < p then q else q - 1);
      } else {
        NoPosition(after, other);
      }
    }
  }

  // ----- The order of the keys

  function Keys<D>(items: seq<Item<D>>): (k: seq<string>)
    ensures |k| == |items| && forall i :: 0 <= i < |k| ==> k[i] == items[i].key
  {
    seq(|items|, i requires 0 <= i < |items| => items[i].key)
  }

  /** The keys but one, in order. */
  function Dropped(keys: seq<string>, key: string): seq<string> {
    if keys == [] then []
    else (if keys[0] == key then [] else [keys[0]]) + Dropped(keys[1..], key)
  }

  lemma {:induction false} DroppedAt(keys: seq<string>, p: nat)
    requires p < |keys| && forall i :: 0 <= i < |keys| && i != p ==> keys[i] != keys[p]
    ensures Dropped(keys, keys[p]) == Without(keys, p)
  {
    if p == 0 {
      NoneDropped(keys[1..], keys[0]);
    } else {
      DroppedAt(keys[1..], p - 1);
      assert Without(keys, p) == [keys[0]] + Without(keys[1..], p - 1);
    }
  }

  lemma {:induction false} NoneDropped(keys: seq<string>, key: string)
    requires key !in keys
    ensures Dropped(keys, key) == keys
  {
    if keys != [] {
      NoneDropped(keys[1..], key);
    }
  }

  /** A key put again keeps its place, and a new one goes last. */
  lemma KeysPut<D>(items: seq<Item<D>>, key: string, data: D)
    ensures Keys(PutItems(items, key, data)) == Keys(items) + if key in Keys(items) then [] else [key]
  {
    var p := Position(items, key);
    assert p < |items| ==> Keys(items)[p] == key;
    assert Keys(PutItems(items, key, data)) == if p < |items| then Keys(items) else Keys(items) + [key];
  }

  /** A remove leaves the other keys as they stand. */
  lemma KeysRemove<D>(items: seq<Item<D>>, key: string)
    requires DistinctKeys(items)
    ensures Keys(RemoveItems(items, key)) == Dropped(Keys(items), key)
  {
    var p, keys := Position(items, key), Keys(items);
    if p < |items| {
      DroppedAt(keys, p);
      assert Keys(Without(items, p)) == Without(keys, p);
    } else {
      NoneDropped(keys, key);
    }
  }

  class VisHashlist<D> {
    const store: IndexedList<D>

    ghost predicate Valid()
      reads store, store.Repr, store.list, store.list.nodes, store.index, store.index.table
    {
      store.Valid() && store.front == 1
    }

    constructor (hash: (Key, nat) -> nat, size: nat)
      requires 0 < size && forall k :: hash(k, size) < size
      ensures Valid() && store.items == [] && fresh(store.Repr)
    {
      store := new IndexedList(hash, size);
    }

    method Put(key: string, data: D)
      requires Valid()
      modifies store.Repr
      ensures Valid() && fresh(store.Repr - old(store.Repr))
      ensures store.items == PutItems(old(store.items), key, data)
    {
      hide IndexedList.Valid, Position;
      var le, at := store.Find(key);
      if le != null {
        store.SetData(le, data, at);
      } else {
        store.Append(key, data);
      }
    }

    method Get(key: string) returns (r: Option<D>)
      requires Valid()
      ensures r == Lookup(store.items, key)
    {
      hide Position;
      var le, at := store.Find(key);
      if le == null {
        r := None;
      } else {
        r := Some(le.data.data);
      }
    }

    /** Removes a key; the data it had goes to the destroyer. */
    method Remove(key: string) returns (destroyed: seq<D>)
      requires Valid()
      modifies store.Repr
      ensures Valid() && store.Repr == old(store.Repr)
      ensures store.items == RemoveItems(old(store.items), key)
      ensures destroyed == if Lookup(old(store.items), key).None? then [] else [Lookup(old(store.items), key).value]
    {
      hide IndexedList.Valid, Position;
      var le, at := store.Find(key);
      if le == null {
        destroyed := [];
      } else {
        var cursor, data := store.Drop(le, at);
        destroyed := [data];
      }
    }

    /** One round of the destroy loop, on the head: the entries before and after it are noted first. */
    method DestroyRound(le: Node<D>) returns (prev: ListEntry?<KeyedEntry<D>>, last: bool, data: D)
      requires Valid() && store.items != [] && |store.items| == |store.list.nodes| && le == store.list.nodes[0]
      modifies store.Repr
      ensures Valid() && store.Repr == old(store.Repr)
      ensures store.items == old(store.items)[1..] && data == old(store.items)[0].data
      ensures prev == null && (last <==> store.items == [])
    {
      hide IndexedList.Valid;
      var next, cursor;
      prev, next := store.Neighbours(le, 0);
      last := next == null;
      cursor, data := store.Drop(le, 0);
    }

    /** The cursor step from NULL, to the head. */
    method Step(cursor: ListEntry?<KeyedEntry<D>>) returns (le: ListEntry?<KeyedEntry<D>>, more: bool)
      requires Valid() && cursor == null
      ensures |store.items| == |store.list.nodes| && more == (store.items != [])
      ensures le == if more then store.list.nodes[0] else null
    {
      var elem;
      le, elem := store.list.Next(cursor, -1);
      more := elem.Some?;
    }

    /** The destroy loop: each round removes the head and, through the NULL `prev` of the head, starts
        over. Every entry goes to the destroyer once, in order, and both structures end empty. */
    method Destroy() returns (destroyed: seq<D>)
      requires Valid()
      modifies store.Repr
      ensures Valid() && store.items == []
      ensures destroyed == Datas(old(store.items))
    {
      hide IndexedList.Valid;
      destroyed := [];
      ghost var items := store.items;
      var le, more := Step(null);
      while more
        invariant Valid() && store.Repr == old(store.Repr)
        invariant |destroyed| <= |items| && store.items == items[|destroyed|..]
        invariant destroyed == Datas(items)[..|destroyed|]
        invariant |store.items| == |store.list.nodes| && more == (store.items != [])
        invariant le == if more then store.list.nodes[0] else null
        decreases |items| - |destroyed|
      {
        var prev, last, data := DestroyRound(le);
        destroyed := destroyed + [data];
        if last {
          break;
        }
        le, more := Step(prev);
      }
    }
  }
}
