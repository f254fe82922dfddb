/** A list of keyed entries together with a hash map from each key to the list entry that carries it:
    the pair of structures that the hash list and the cache keep in agreement. */
module IndexedLists {
  import opened ListWalk
  import opened LinkedList
  import opened HashTable

  datatype Item<D> = Item(key: string, data: D)

  /** The position of the first item with a key, or the number of items. */
  function Position<D>(c: seq<Item<D>>, key: string): (p: nat)
    ensures p <= |c|
    ensures p < |c| ==> c[p].key == key
    ensures forall i :: 0 <= i < p ==> c[i].key != key
  {
    if c == [] || c[0].key == key then 0 else 1 + Position(c[1..], key)
  }

  ghost predicate DistinctKeys<D>(c: seq<Item<D>>) {
    forall i, j :: 0 <= i < j < |c| ==> c[i].key != c[j].key
  }

  lemma PositionAt<D>(c: seq<Item<D>>, key: string, at: nat)
    requires DistinctKeys(c) && at < |c| && c[at].key == key
    ensures Position(c, key) == at
  {}

  lemma NoPosition<D>(c: seq<Item<D>>, key: string)
    requires forall i :: 0 <= i < |c| ==> c[i].key != key
    ensures Position(c, key) == |c|
  {}

  /** The data of the items, in order. */
  function Datas<D>(items: seq<Item<D>>): (d: seq<D>)
    ensures |d| == |items| && forall i :: 0 <= i < |d| ==> d[i] == items[i].data
  {
    seq(|items|, i requires 0 <= i < |items| => items[i].data)
  }

  /** An existing key keeps its place and gets the new data; a new key goes last. */
  function PutItems<D>(items: seq<Item<D>>, key: string, data: D): seq<Item<D>> {
    var p := Position(items, key);
    if p < |items| then items[p := Item(key, data)] else items + [Item(key, data)]
  }

  function Lookup<D>(items: seq<Item<D>>, key: string): Option<D> {
    var p := Position(items, key);
    if p < |items| then Some(items[p].data) else None
  }

  function RemoveItems<D>(items: seq<Item<D>>, key: string): seq<Item<D>> {
    var p := Position(items, key);
    if p < |items| then Without(items, p) else items
  }

  // ----- How many entries at the front have no back link

  /** Entries are linked back from position `front` on: those before it were the head, or behind the head,
      when a request reset moved an entry to the head. */
  predicate Fronted(backs: seq<bool>, front: nat) {
    && FrontFits(front, |backs|)
    && forall i :: 0 <= i < |backs| ==> (backs[i] <==> front <= i)
  }

  predicate FrontFits(front: nat, n: nat) {
    front == 1 || 1 <= front <= n
  }

  /** Whether an entry can be taken out without losing those in front of it. */
  predicate Removable(front: nat, at: nat) {
    at == 0 || front <= at
  }

  function FrontWithout(front: nat, at: nat): nat {
    if at == 0 && front > 1 then front - 1 else front
  }

  function FrontMoved(front: nat, at: nat, n: nat): nat {
    if n <= 1 then front else if at > 0 then front + 1 else if front < 2 then 2 else front
  }

  lemma FrontedWithout(backs: seq<bool>, front: nat, at: nat)
    requires Fronted(backs, front) && at < |backs| && Removable(front, at)
    ensures Headed(backs) && Tied(backs, at) && Fronted(BacksAfter(backs, at), FrontWithout(front, at))
    ensures Fronted([false] + BacksAfter(backs, at), FrontMoved(front, at, |backs|))
  {
    UnchainedAt(Relinked(backs, at), backs, at);
    hide Unchained;
  }

  lemma FrontedAppend(backs: seq<bool>, front: nat)
    requires Fronted(backs, front)
    ensures Fronted(backs + [backs != []], front)
  {}

  /** No key occurs twice among the items, and the map sends the key of every item to its list entry
      alone and holds nothing else. */
  ghost predicate IndexedBy<D, N>(items: seq<Item<D>>, nodes: seq<N>, store: map<Key, seq<N>>) {
    && |nodes| == |items| && DistinctKeys(items)
    && (forall i {:trigger items[i]} :: 0 <= i < |items| ==> ValuesIn(store, StringKey(items[i].key)) == [nodes[i]])
    && (forall s :: Position(items, s) == |items| ==> ValuesIn(store, StringKey(s)) == [])
  }

  lemma NothingIndexed<D, N>(nodes: seq<N>, store: map<Key, seq<N>>)
    requires nodes == [] && store == map[]
    ensures IndexedBy<D, N>([], nodes, store)
  {}

  lemma IndexedLookup<D, N>(items: seq<Item<D>>, nodes: seq<N>, store: map<Key, seq<N>>, key: string)
    requires IndexedBy(items, nodes, store)
    ensures |nodes| == |items|
    ensures var at := Position(items, key);
      ValuesIn(store, StringKey(key)) == if at < |items| then [nodes[at]] else []
  {}

  lemma IndexedAppend<D, N>(items: seq<Item<D>>, nodes: seq<N>, store: map<Key, seq<N>>,
                            item: Item<D>, node: N, after: map<Key, seq<N>>)
    requires IndexedBy(items, nodes, store) && Position(items, item.key) == |items|
    requires after == PutIn(store, StringKey(item.key), node)
    ensures IndexedBy(items + [item], nodes + [node], after)
  {
    var d := items + [item];
    assert d[|items|] == item;
    hide Position;
    forall s | Position(d, s) == |d| ensures ValuesIn(after, StringKey(s)) == [] {
      forall i | 0 <= i < |items| ensures items[i].key != s {
        assert d[i] == items[i];
      }
      NoPosition(items, s);
    }
  }

  lemma IndexedUpdate<D, N>(items: seq<Item<D>>, nodes: seq<N>, store: map<Key, seq<N>>, at: nat, data: D)
    requires IndexedBy(items, nodes, store) && at < |items|
    ensures IndexedBy(items[at := Item(items[at].key, data)], nodes, store)
  {
    var d := items[at := Item(items[at].key, data)];
    forall s | Position(d, s) == |d| ensures Position(items, s) == |items| {
      forall i | 0 <= i < |items| ensures items[i].key != s {
        assert d[i].key == items[i].key;
      }
      NoPosition(items, s);
    }
    hide Position, ValuesIn;
  }

  lemma IndexedWithout<D, N>(items: seq<Item<D>>, nodes: seq<N>, store: map<Key, seq<N>>, at: nat,
                             after: map<Key, seq<N>>)
    requires IndexedBy(items, nodes, store) && at < |items|
    requires after == RemoveFrom(store, StringKey(items[at].key))
    ensures IndexedBy(Without(items, at), Without(nodes, at), after)
  {
    var d := Without(items, at);
    WithoutAt(items, at);
    WithoutAt(nodes, at);
    hide Position, ValuesIn, Without;
    forall s | Position(d, s) == |d| ensures ValuesIn(after, StringKey(s)) == [] {
      if s != items[at].key {
        forall i | 0 <= i < |items| ensures items[i].key != s {
          if i < at { assert d[i] == items[i]; }
          if i > at { assert d[i - 1] == items[i]; }
        }
        NoPosition(items, s);
      }
    }
  }

  lemma IndexedMoved<D, N>(items: seq<Item<D>>, nodes: seq<N>, store: map<Key, seq<N>>, at: nat)
    requires IndexedBy(items, nodes, store) && at < |items|
    ensures IndexedBy(ToFront(items, at), ToFront(nodes, at), store)
  {
    hide Position, ValuesIn, ToFront;
    ToFrontAt(items, at);
    ToFrontAt(nodes, at);
    var d := ToFront(items, at);
    forall s | Position(d, s) == |d| ensures Position(items, s) == |items| {
      NoPosition(items, s);
    }
  }

  class KeyedEntry<D> {
    const key: string
    var data: D

    constructor (key: string, data: D)
      ensures this.key == key && this.data == data
    {
      this.key, this.data := key, data;
    }
  }

  type Node<D> = ListEntry<KeyedEntry<D>>

  /** The nodes carry the items in order. */
  ghost predicate Carries<D>(nodes: seq<Node<D>>, items: seq<Item<D>>)
    reads nodes`data, DatasOf(nodes)
  {
    && |nodes| == |items|
    && (forall i {:trigger nodes[i]} :: 0 <= i < |items| ==>
      nodes[i].data.key == items[i].key && nodes[i].data.data == items[i].data)
  }

  ghost predicate Owns<D>(repr: set<object>, nodes: seq<Node<D>>)
    reads nodes`data
  {
    forall i {:trigger nodes[i]} :: 0 <= i < |nodes| ==> nodes[i] in repr && nodes[i].data in repr
  }

  lemma CarriesWithout<D>(repr: set<object>, nodes: seq<Node<D>>, items: seq<Item<D>>, at: nat)
    requires Carries(nodes, items) && Owns(repr, nodes) && at < |items|
    ensures Carries(Without(nodes, at), Without(items, at)) && Owns(repr, Without(nodes, at))
  {
    WithoutAt(items, at);
    WithoutAt(nodes, at);
    hide Without;
  }

  lemma CarriesMoved<D>(repr: set<object>, nodes: seq<Node<D>>, items: seq<Item<D>>, at: nat)
    requires Carries(nodes, items) && Owns(repr, nodes) && at < |items|
    ensures Carries(ToFront(nodes, at), ToFront(items, at)) && Owns(repr, ToFront(nodes, at))
  {
    ToFrontAt(items, at);
    ToFrontAt(nodes, at);
    hide ToFront;
  }

  // ----- What stays when the walk loses entries

  /** The data held under each key. */
  ghost function ContentsOf<D>(items: seq<Item<D>>): map<string, D> {
    map key | key in (set i | 0 <= i < |items| :: items[i].key) && Position(items, key) < |items|
      :: items[Position(items, key)].data
  }

  ghost function HeldOf<D, N>(items: seq<Item<D>>, nodes: seq<N>): map<string, N>
    requires |nodes| == |items|
  {
    map key | key in (set i | 0 <= i < |items| :: items[i].key) && Position(items, key) < |items|
      :: nodes[Position(items, key)]
  }

  ghost predicate IndexesHeld<N>(held: map<string, N>, store: map<Key, seq<N>>) {
    forall key :: ValuesIn(store, StringKey(key)) == if key in held then [held[key]] else []
  }

  /** The nodes held are among `all`, and carry the entries. */
  ghost predicate Carrying<D>(all: set<Node<D>>, held: map<string, Node<D>>, entries: map<string, KeyedEntry<D>>)
    reads all`data
  {
    && held.Keys == entries.Keys
    && forall key :: key in held ==> held[key] in all && held[key].data == entries[key]
  }

  /** The entries are among `carried`, and carry the keys and the data. */
  ghost predicate Holds<D>(carried: set<KeyedEntry<D>>, entries: map<string, KeyedEntry<D>>, contents: map<string, D>)
    reads carried`data
  {
    && entries.Keys == contents.Keys
    && forall key :: key in entries ==>
      entries[key] in carried && entries[key].key == key && entries[key].data == contents[key]
  }

  ghost predicate AllIn(repr: set<object>, a: set<object>, b: set<object>) {
    a <= repr && b <= repr
  }

  lemma AllInWith(repr: set<object>, a: set<object>, b: set<object>, x: object, y: object)
    requires AllIn(repr, a, b)
    ensures AllIn(repr + {x, y}, a + {x}, b + {y})
  {}

  ghost function NodesIn<N>(nodes: seq<N>): set<N> {
    set n | n in nodes
  }

  ghost function EntriesIn<D>(nodes: seq<Node<D>>): set<KeyedEntry<D>>
    reads nodes`data
  {
    set n | n in nodes :: n.data
  }

  ghost function EntriesOf<D>(held: map<string, Node<D>>): map<string, KeyedEntry<D>>
    reads held.Values`data
  {
    map key | key in held :: held[key].data
  }

  lemma KeyHeldIff<D>(items: seq<Item<D>>, key: string)
    ensures key in (set i | 0 <= i < |items| :: items[i].key) <==> Position(items, key) < |items|
  {
    var p := Position(items, key);
    assert p < |items| ==> items[p].key == key;
  }

  lemma HeldIndexed<D, N>(items: seq<Item<D>>, nodes: seq<N>, store: map<Key, seq<N>>)
    requires IndexedBy(items, nodes, store)
    ensures IndexesHeld(HeldOf(items, nodes), store)
  {
    hide ValuesIn, Position, IndexedBy;
    IndexedLookup(items, nodes, store, "");
    forall key ensures ValuesIn(store, StringKey(key))
                    == if key in HeldOf(items, nodes) then [HeldOf(items, nodes)[key]] else [] {
      KeyHeldIff(items, key);
      IndexedLookup(items, nodes, store, key);
    }
  }

  lemma HeldAt<D, N>(items: seq<Item<D>>, nodes: seq<N>)
    requires |nodes| == |items| && DistinctKeys(items)
    ensures
      var h := HeldOf(items, nodes);
      && (forall i :: 0 <= i < |items| ==> items[i].key in h && h[items[i].key] == nodes[i])
      && h.Keys == (set i | 0 <= i < |items| :: items[i].key)
      && forall key :: key in h ==> h[key] in nodes
  {
    var h := HeldOf(items, nodes);
    hide Position;
    forall i | 0 <= i < |items| ensures items[i].key in h && h[items[i].key] == nodes[i] {
      PositionAt(items, items[i].key, i);
    }
  }

  lemma HeldCount<D, N>(items: seq<Item<D>>, nodes: seq<N>)
    requires |nodes| == |items| && DistinctKeys(items)
    ensures |HeldOf(items, nodes)| == |items|
  {
    hide HeldOf, DistinctKeys;
    HeldAt(items, nodes);
    KeyCount(items);
    assert |HeldOf(items, nodes)| == |HeldOf(items, nodes).Keys|;
  }

  lemma {:induction false} KeyCount<D>(items: seq<Item<D>>)
    requires DistinctKeys(items)
    ensures |set i | 0 <= i < |items| :: items[i].key| == |items|
  {
    if items != [] {
      var last := |items| - 1;
      KeyCount(items[..last]);
      var before := set i | 0 <= i < last :: items[..last][i].key;
      assert (set i | 0 <= i < |items| :: items[i].key) == before + {items[last].key};
    }
  }

  lemma HoldsItems<D>(repr: set<object>, items: seq<Item<D>>, nodes: seq<Node<D>>)
    requires Carries(nodes, items) && Owns(repr, nodes)
    ensures
      var held := HeldOf(items, nodes);
      var all, carried := NodesIn(nodes), EntriesIn(nodes);
      && Carrying(all, held, EntriesOf(held)) && Holds(carried, EntriesOf(held), ContentsOf(items))
      && AllIn(repr, all, carried)
  {
    hide Position;
  }

  lemma CarryingWith<D>(all: set<Node<D>>, held: map<string, Node<D>>, entries: map<string, KeyedEntry<D>>, key: string,
                        node: Node<D>)
    requires Carrying(all, held, entries)
    ensures Carrying(all + {node}, held[key := node], entries[key := node.data])
  {
    assert held[key := node].Keys == held.Keys + {key} == entries[key := node.data].Keys;
  }

  lemma HoldsWith<D>(carried: set<KeyedEntry<D>>, entries: map<string, KeyedEntry<D>>, contents: map<string, D>,
                     key: string, entry: KeyedEntry<D>)
    requires Holds(carried, entries, contents) && entry.key == key
    ensures Holds(carried + {entry}, entries[key := entry], contents[key := entry.data])
  {
    assert entries[key := entry].Keys == entries.Keys + {key} == contents[key := entry.data].Keys;
  }

  lemma SameSize<D, N>(held: map<string, N>, contents: map<string, D>)
    requires held.Keys == contents.Keys
    ensures |held| == |contents|
  {
    assert |held| == |held.Keys| && |contents| == |contents.Keys|;
  }

  lemma HeldWith<N>(held: map<string, N>, key: string, node: N)
    requires key !in held
    ensures |held[key := node]| == |held| + 1
  {
    var h := held[key := node];
    assert h.Keys == held.Keys + {key};
    assert |h| == |h.Keys| && |held| == |held.Keys|;
  }

  lemma IndexedDistinct<D, N>(items: seq<Item<D>>, nodes: seq<N>, store: map<Key, seq<N>>)
    requires IndexedBy(items, nodes, store)
    ensures DistinctKeys(items) && |nodes| == |items|
  {}

  lemma HeldAppended<N>(held: map<string, N>, store: map<Key, seq<N>>, key: string, node: N,
                        after: map<Key, seq<N>>)
    requires IndexesHeld(held, store) && key !in held && after == PutIn(store, StringKey(key), node)
    ensures IndexesHeld(held[key := node], after)
  {}

  class IndexedList<D> {
    const list: VisList<KeyedEntry<D>>
    const index: HashMap<Node<D>>
    ghost var items: seq<Item<D>>
    ghost var front: nat
    ghost var all: set<Node<D>>
    ghost var carried: set<KeyedEntry<D>>
    ghost var held: map<string, Node<D>>
    ghost var entries: map<string, KeyedEntry<D>>
    ghost var contents: map<string, D>
    ghost var Repr: set<object>

    ghost predicate Owned()
      reads this, list, list.nodes, index
    {
      && this in Repr && list in Repr && index in Repr && index.table != null && index.table in Repr
      && Owns(Repr, list.nodes)
    }

    ghost predicate Valid()
      reads this, Repr, list, list.nodes, index, index.table
    {
      && Owned() && list.Linked() && index.Valid() && Fronted(list.backs, front)
      && |list.backs| == |list.nodes| == |items|
      && Carries(list.nodes, items) && IndexedBy(items, list.nodes, index.store)
    }

    constructor (hash: (Key, nat) -> nat, tablesize: nat)
      requires 0 < tablesize && forall k :: hash(k, tablesize) < tablesize
      ensures Valid() && items == [] && front == 1 && fresh(Repr)
    {
      hide VisList.Linked, HashMap.Valid, IndexedBy;
      list := new VisList();
      index := new HashMap.WithTable(hash, tablesize);
      items, front := [], 1;
      new;
      hide VisList.Backward;
      Repr := {this, list, index, index.table};
      NothingIndexed<D, Node<D>>(list.nodes, index.store);
    }

    /** The list entry a key is indexed to, and its position. */
    method Find(key: string) returns (le: ListEntry?<KeyedEntry<D>>, ghost at: nat)
      requires Valid()
      ensures at == Position(items, key)
      ensures le == if at < |items| then list.nodes[at] else null
      ensures |items| == |list.nodes|
    {
      hide VisList.Linked, HashMap.Valid, Position, IndexedBy;
      at := Position(items, key);
      IndexedLookup(items, list.nodes, index.store, key);
      var found := index.Get(StringKey(key));
      le := if found.None? then null else found.value;
    }

    /** The traversal steps around an entry at a known position. */
    method Neighbours(le: Node<D>, ghost at: nat)
      returns (prev: ListEntry?<KeyedEntry<D>>, next: ListEntry?<KeyedEntry<D>>)
      requires Valid() && at < |items| == |list.nodes| && le == list.nodes[at]
      ensures prev == if 0 < at && front <= at then list.nodes[at - 1] else null
      ensures next == if at + 1 == |items| then null else list.nodes[at + 1]
    {
      hide HashMap.Valid, IndexedBy, VisList.Forward, VisList.Backward;
      assert list.backs[at] <==> front <= at;
      var elem;
      prev, elem := list.Prev(le, at);
      next, elem := list.Next(le, at);
    }

    method Last() returns (le: Node<D>)
      requires Valid() && items != []
      ensures |items| == |list.nodes| && le == list.nodes[|items| - 1]
    {
      hide HashMap.Valid, IndexedBy, Owned, VisList.Backward;
      le := list.tail;
    }

    /** Whether unchaining the entry would take it for the head although it is not. */
    method TakenForHead(le: Node<D>, ghost at: nat) returns (taken: bool)
      requires Valid() && at < |items| && le == list.nodes[at]
      ensures taken <==> !Removable(front, at)
    {
      hide HashMap.Valid, IndexedBy, Owned;
      taken := le.prev == null && le != list.head;
    }

    method DataAt(le: Node<D>, ghost at: nat) returns (data: D)
      requires Valid() && at < |items| && le == list.nodes[at]
      ensures data == items[at].data
    {
      hide HashMap.Valid, IndexedBy, VisList.Linked;
      data := le.data.data;
    }

    method IndexNode(le: Node<D>, ghost item: Item<D>, ghost was: seq<Node<D>>)
      requires index.Valid() && index.table != null && IndexedBy(items, was, index.store)
      requires Position(items, item.key) == |items| && le.data.key == item.key
      modifies index, index.table
      ensures index.Valid() && index.table == old(index.table)
      ensures IndexedBy(items + [item], was + [le], index.store)
    {
      hide HashMap.Valid, PutIn, Position, IndexedBy;
      index.Put(StringKey(le.data.key), le);
      IndexedAppend(items, was, old(index.store), item, le, index.store);
    }

    method UnindexNode(key: string, ghost at: nat)
      requires index.Valid() && index.table != null && IndexedBy(items, list.nodes, index.store)
      requires at < |items| == |list.nodes| && key == items[at].key
      modifies index, index.table
      ensures index.Valid() && index.table == old(index.table)
      ensures IndexedBy(Without(items, at), Without(list.nodes, at), index.store)
    {
      hide HashMap.Valid, RemoveFrom, Position, IndexedBy, Without;
      var found, none := index.Remove(StringKey(key), false);
      IndexedWithout(items, list.nodes, old(index.store), at, index.store);
    }

    /** A new last entry, indexed by its key. */
    method Append(key: string, data: D)
      requires Valid() && Position(items, key) == |items|
      modifies Repr
      ensures Valid() && fresh(Repr - old(Repr))
      ensures items == old(items) + [Item(key, data)] && front == old(front)
    {
      hide VisList.Linked, HashMap.Valid, Position, IndexedBy, Fronted;
      FrontedAppend(list.backs, front);
      var entry := new KeyedEntry(key, data);
      ghost var was := list.nodes;
      list.AddLinked(entry);
      var le: Node<D> := list.tail;
      IndexNode(le, Item(key, data), was);
      items := items + [Item(key, data)];
      Repr := Repr + {le, entry};
      assert Carries(list.nodes, items) && Owns(Repr, list.nodes);
    }

    /** Replaces the data of an entry in place. */
    method SetData(le: Node<D>, data: D, ghost at: nat)
      requires Valid() && at < |items| && le == list.nodes[at]
      modifies Repr
      ensures Valid() && Repr == old(Repr) && list.nodes == old(list.nodes) && front == old(front)
      ensures items == old(items)[at := Item(old(items)[at].key, data)]
    {
      hide VisList.Linked, HashMap.Valid, ValuesIn, Position;
      IndexedUpdate(items, list.nodes, index.store, at, data);
      var entry := le.data;
      entry.data := data;
      items := items[at := Item(items[at].key, data)];
    }

    /** Takes an entry out of both structures, the map first; its data goes to the destroyer. */
    method Drop(le: Node<D>, ghost at: nat) returns (cursor: ListEntry?<KeyedEntry<D>>, data: D)
      requires Valid() && at < |items| && le == list.nodes[at] && Removable(front, at)
      modifies Repr
      ensures Valid() && Repr == old(Repr)
      ensures items == Without(old(items), at) && data == old(items)[at].data
      ensures front == FrontWithout(old(front), at)
      ensures list.nodes == Without(old(list.nodes), at)
      ensures cursor == if at < |items| then list.nodes[at] else null
    {
      hide VisList.Linked, HashMap.Valid, Position, IndexedBy, Fronted, Without, BacksAfter;
      WithoutAt(list.nodes, at);
      FrontedWithout(list.backs, front, at);
      CarriesWithout(Repr, list.nodes, items, at);
      var entry := le.data;
      UnindexNode(entry.key, at);
      data := entry.data;
      cursor := list.DeleteAt(le, at);
      items := Without(items, at);
      front := FrontWithout(front, at);
      assert Carries(list.nodes, items) && Owns(Repr, list.nodes);
    }

    /** Moves an entry to the head of the list; the map is not affected. */
    method Move(le: Node<D>, ghost at: nat)
      requires Valid() && at < |items| && le == list.nodes[at] && Removable(front, at)
      modifies Repr
      ensures Valid() && Repr == old(Repr)
      ensures items == ToFront(old(items), at) && front == FrontMoved(old(front), at, |items|)
    {
      hide VisList.Linked, HashMap.Valid, IndexedBy, Fronted, ToFront, BacksAfter, FrontMoved;
      FrontedWithout(list.backs, front, at);
      CarriesMoved(Repr, list.nodes, items, at);
      IndexedMoved(items, list.nodes, index.store, at);
      list.MoveTied(le, at);
      items := ToFront(items, at);
      front := FrontMoved(front, at, |items|);
      assert Carries(list.nodes, items);
    }

    // ----- Once the walk has lost entries

    /** Every key held leads through the map to its own node, and the node carries the key's data; of the
        list only the count and where the pointers stay are known. */
    ghost predicate Indexed()
      reads this, list, all, carried, index, index.table
    {
      && this in Repr && list in Repr && index in Repr && index.table != null && index.table in Repr
      && AllIn(Repr, all, carried)
      && index.Valid() && IndexesHeld(held, index.store)
      && Carrying(all, held, entries) && Holds(carried, entries, contents)
      && list.Closed(all) && list.count == |held|
    }

    /** Forgets the walk: what is known of a list that lost nothing yet is more than this. */
    ghost method Forget()
      requires Valid()
      modifies `all, `carried, `held, `entries, `contents
      ensures Indexed() && Repr == old(Repr) && contents == ContentsOf(items)
    {
      hide VisList.Forward, VisList.Backward, VisList.Closed, HashMap.Valid, IndexedBy, Fronted, Carries, Owns;
      hide IndexesHeld, Holds, Carrying, HeldOf, ContentsOf, EntriesOf;
      IndexedDistinct(items, list.nodes, index.store);
      HoldsItems(Repr, items, list.nodes);
      HeldIndexed(items, list.nodes, index.store);
      HeldCount(items, list.nodes);
      list.WalkIsClosed();
      var h := HeldOf(items, list.nodes);
      var e := EntriesOf(h);
      assert NodesIn(list.nodes) == set n | n in list.nodes;
      all, carried := NodesIn(list.nodes), EntriesIn(list.nodes);
      held, entries, contents := h, e, ContentsOf(items);
    }

    method FindHeld(key: string) returns (le: ListEntry?<KeyedEntry<D>>)
      requires Indexed()
      ensures le == if key in held then held[key] else null
    {
      hide HashMap.Valid;
      var found := index.Get(StringKey(key));
      le := if found.None? then null else found.value;
    }

    lemma KeysHeld()
      requires Indexed()
      ensures held.Keys == contents.Keys
    {}

    /** Whether the list counts more than `n` entries: as many as there are keys. */
    method CountAbove(n: int) returns (above: bool)
      requires Indexed()
      ensures above <==> |contents| > n
    {
      hide HashMap.Valid, VisList.Closed, IndexesHeld;
      SameSize(held, contents);
      above := list.count > n;
    }

    method DataOfHeld(le: Node<D>, ghost key: string) returns (data: D)
      requires Indexed() && key in held && le == held[key]
      ensures key in contents && data == contents[key]
    {
      hide HashMap.Valid, VisList.Closed, IndexesHeld;
      data := le.data.data;
    }

    method SetDataOfHeld(le: Node<D>, data: D, ghost key: string)
      requires Indexed() && key in held && le == held[key]
      modifies Repr
      ensures Indexed() && Repr == old(Repr) && contents == old(contents)[key := data]
      ensures held == old(held)
    {
      hide HashMap.Valid, VisList.Closed, IndexesHeld;
      var entry := le.data;
      entry.data := data;
      contents := contents[key := data];
    }

    method MoveHeld(le: Node<D>, ghost key: string)
      requires Indexed() && key in held && le == held[key]
      modifies Repr
      ensures Indexed() && Repr == old(Repr) && contents == old(contents)
    {
      hide HashMap.Valid, VisList.Closed, IndexesHeld, Holds;
      list.MoveAnyway(le, all);
    }

    method AppendHeld(key: string, data: D)
      requires Indexed() && key !in held
      modifies Repr
      ensures Indexed() && fresh(Repr - old(Repr)) && contents == old(contents)[key := data]
    {
      hide HashMap.Valid, VisList.Closed, IndexesHeld, Carrying, Holds;
      var le := ListHeld(key, data);
      IndexHeld(key, le);
      Hold(key, le);
    }

    /** The new entry goes last in the list. */
    method ListHeld(key: string, data: D) returns (le: Node<D>)
      requires Indexed() && key !in held
      modifies list, all`next
      ensures fresh(le) && fresh(le.data) && le.data.key == key && le.data.data == data
      ensures list.Closed(all + {le}) && list.count == |held| + 1
      ensures Carrying(all, held, entries) && Holds(carried, entries, contents)
      ensures index.Valid() && IndexesHeld(held, index.store)
    {
      hide HashMap.Valid, VisList.Closed, IndexesHeld, Carrying, Holds;
      var entry := new KeyedEntry(key, data);
      list.AddAnyway(entry, all);
      le := list.tail;
    }

    /** And its key leads to it. */
    method IndexHeld(key: string, le: Node<D>)
      requires index.Valid() && index.table != null && IndexesHeld(held, index.store) && key !in held
      modifies index, index.table
      ensures index.Valid() && index.table == old(index.table) && index.table != null
      ensures IndexesHeld(held[key := le], index.store)
    {
      hide HashMap.Valid, PutIn, IndexesHeld, ValuesIn;
      index.Put(StringKey(key), le);
      HeldAppended(held, old(index.store), key, le, index.store);
    }

    /** Notes the new node and what it carries. */
    ghost method Hold(key: string, le: Node<D>)
      requires this in Repr && list in Repr && index in Repr && index.table != null && index.table in Repr
      requires AllIn(Repr, all, carried) && key !in held && le.data.key == key
      requires index.Valid() && IndexesHeld(held[key := le], index.store)
      requires list.Closed(all + {le}) && list.count == |held| + 1
      requires Carrying(all, held, entries) && Holds(carried, entries, contents)
      modifies `Repr, `all, `carried, `held, `entries, `contents
      ensures Indexed() && Repr == old(Repr) + {le, le.data} && contents == old(contents)[key := le.data.data]
    {
      hide HashMap.Valid, VisList.Closed, IndexesHeld, Carrying, Holds, AllIn;
      AllInWith(Repr, all, carried, le, le.data);
      CarryingWith(all, held, entries, key, le);
      HoldsWith(carried, entries, contents, key, le.data);
      HeldWith(held, key, le);
      Repr := Repr + {le, le.data};
      all, carried := all + {le}, carried + {le.data};
      held, entries := held[key := le], entries[key := le.data];
      contents := contents[key := le.data.data];
    }
  }
}
