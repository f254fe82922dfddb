/** The chained hash table. String keys are not looked up before a put, so each string key holds its
    values in the order they were put; integer keys hold one value. */
module HashTable {
  import opened ListWalk
  import opened LinkedList

  datatype Key = IntegerKey(n: nat) | StringKey(s: string)

  datatype ChainEntry<V> = ChainEntry(key: Key, data: V)

  /** The data of a chain's entries for one key, in chain order. */
  function DataOf<V>(chain: seq<ChainEntry<V>>, key: Key): seq<V> {
    if chain == [] then []
    else (if chain[0].key == key then [chain[0].data] else []) + DataOf(chain[1..], key)
  }

  lemma DataOfCons<V>(first: ChainEntry<V>, rest: seq<ChainEntry<V>>, key: Key)
    ensures DataOf([first] + rest, key) == (if first.key == key then [first.data] else []) + DataOf(rest, key)
  {
    assert ([first] + rest)[1..] == rest;
  }

  lemma DataOfNone<V>(key: Key)
    ensures DataOf<V>([], key) == []
  {}

  lemma {:induction false} DataOfConcat<V>(a: seq<ChainEntry<V>>, b: seq<ChainEntry<V>>, key: Key)
    ensures DataOf(a + b, key) == DataOf(a, key) + DataOf(b, key)
  {
    hide DataOf;
    if a == [] {
      DataOfNone<V>(key);
      assert a + b == b;
    } else {
      DataOfConcat(a[1..], b, key);
      DataOfCons(a[0], a[1..], key);
      DataOfCons(a[0], a[1..] + b, key);
      assert a == [a[0]] + a[1..] && a + b == [a[0]] + (a[1..] + b);
    }
  }

  lemma DataOfOne<V>(e: ChainEntry<V>, key: Key)
    ensures DataOf([e], key) == if e.key == key then [e.data] else []
  {
    assert [e][1..] == [];
  }

  /** A chain split at one of its entries. */
  lemma DataOfAt<V>(chain: seq<ChainEntry<V>>, i: nat, key: Key)
    requires i < |chain|
    ensures DataOf(chain, key)
         == DataOf(chain[..i], key)
          + (if chain[i].key == key then [chain[i].data] else []) + DataOf(chain[i + 1..], key)
    ensures DataOf(chain[..i + 1], key)
         == DataOf(chain[..i], key) + (if chain[i].key == key then [chain[i].data] else [])
  {
    assert chain == chain[..i] + [chain[i]] + chain[i + 1..];
    assert chain[..i + 1] == chain[..i] + [chain[i]];
    DataOfConcat(chain[..i] + [chain[i]], chain[i + 1..], key);
    DataOfConcat(chain[..i], [chain[i]], key);
    DataOfOne(chain[i], key);
  }

  lemma DataOfAppend<V>(chain: seq<ChainEntry<V>>, e: ChainEntry<V>, key: Key)
    ensures DataOf(chain + [e], key) == DataOf(chain, key) + if e.key == key then [e.data] else []
  {
    DataOfConcat(chain, [e], key);
    DataOfOne(e, key);
  }

  lemma DataOfWithout<V>(chain: seq<ChainEntry<V>>, i: nat, key: Key)
    requires i < |chain|
    ensures DataOf(Without(chain, i), key) == DataOf(chain[..i], key) + DataOf(chain[i + 1..], key)
  {
    DataOfConcat(chain[..i], chain[i + 1..], key);
  }

  lemma DataOfDrop<V>(chain: seq<ChainEntry<V>>, i: nat, key: Key)
    requires i < |chain| && DataOf(chain[..i], chain[i].key) == []
    ensures DataOf(chain, key)
         == (if chain[i].key == key then [chain[i].data] else []) + DataOf(Without(chain, i), key)
  {
    hide DataOf, Without;
    DataOfAt(chain, i, key);
    DataOfWithout(chain, i, key);
  }

  lemma DataOfUpdate<V>(chain: seq<ChainEntry<V>>, i: nat, data: V, key: Key)
    requires i < |chain|
    ensures DataOf(chain[i := chain[i].(data := data)], key)
         == DataOf(chain[..i], key) + (if chain[i].key == key then [data] else []) + DataOf(chain[i + 1..], key)
  {
    var after := chain[i := chain[i].(data := data)];
    DataOfAt(after, i, key);
    assert after[..i] == chain[..i] && after[i + 1..] == chain[i + 1..];
  }

  lemma DataOfReplaced<V>(chain: seq<ChainEntry<V>>, i: nat, data: V, key: Key)
    requires i < |chain|
    requires DataOf(chain[..i], chain[i].key) == DataOf(chain[i + 1..], chain[i].key) == []
    ensures DataOf(chain[i := chain[i].(data := data)], key)
         == if key == chain[i].key then [data] else DataOf(chain, key)
  {
    hide DataOf;
    DataOfAt(chain, i, key);
    DataOfUpdate(chain, i, data, key);
  }

  /** The walk along a chain: the position of the first entry with the key, or the end. */
  method FindFirst<V>(chain: seq<ChainEntry<V>>, key: Key) returns (i: nat)
    ensures i <= |chain| && DataOf(chain[..i], key) == []
    ensures i < |chain| ==> chain[i].key == key
    ensures i == |chain| ==> DataOf(chain, key) == []
  {
    i := 0;
    while i < |chain| && chain[i].key != key
      invariant i <= |chain| && DataOf(chain[..i], key) == []
    {
      DataOfAt(chain, i, key);
      i := i + 1;
    }
    assert chain[..|chain|] == chain;
  }

  /** The values stored under a key, oldest first. */
  ghost function ValuesIn<V>(store: map<Key, seq<V>>, key: Key): seq<V> {
    if key in store then store[key] else []
  }

  /** The abstract store after a put: an integer key holds the new value alone, a string key holds it
      behind the values it had. */
  ghost function PutIn<V>(store: map<Key, seq<V>>, key: Key, data: V): map<Key, seq<V>> {
    store[key := if key.IntegerKey? then [data] else ValuesIn(store, key) + [data]]
  }

  /** The abstract store after a remove: the oldest value of the key is gone. */
  ghost function RemoveFrom<V>(store: map<Key, seq<V>>, key: Key): map<Key, seq<V>> {
    if ValuesIn(store, key) == [] then store else store[key := ValuesIn(store, key)[1..]]
  }

  /** Each key occurs in the bag as often as it has values. */
  ghost predicate Counted<V>(store: map<Key, seq<V>>, bag: multiset<Key>) {
    forall k :: bag[k] == |ValuesIn(store, k)|
  }

  lemma CountedChange<V>(store: map<Key, seq<V>>, bag: multiset<Key>, key: Key, values: seq<V>)
    requires Counted(store, bag)
    ensures Counted(store[key := values], bag[key := |values|])
    ensures |bag[key := |values|]| == |bag| - |ValuesIn(store, key)| + |values|
  {
    assert bag[key] == |ValuesIn(store, key)|;
  }

  lemma OneValue<V>(store: map<Key, seq<V>>, bag: multiset<Key>, key: Key, data: V)
    requires Counted(store, bag) && |ValuesIn(store, key)| == 1
    ensures Counted(store[key := [data]], bag)
  {}

  // ----- Whole runs of the abstract store

  datatype TableOperation<V> = PutValue(key: Key, data: V) | RemoveOldest(key: Key, destroy: bool)

  ghost function After<V>(ops: seq<TableOperation<V>>): map<Key, seq<V>> {
    if ops == [] then map[]
    else
      match ops[|ops| - 1]
      case PutValue(key, data) => PutIn(After(ops[..|ops| - 1]), key, data)
      case RemoveOldest(key, _) => RemoveFrom(After(ops[..|ops| - 1]), key)
  }

  /** All values put under a key, in order. */
  ghost function PutUnder<V>(ops: seq<TableOperation<V>>, key: Key): seq<V> {
    if ops == [] then []
    else
      PutUnder(ops[..|ops| - 1], key)
      + match ops[|ops| - 1] case PutValue(k, data) => (if k == key then [data] else []) case RemoveOldest(_, _) => []
  }

  /** All values removed from a key, in order. */
  ghost function RemovedFrom<V>(ops: seq<TableOperation<V>>, key: Key): seq<V> {
    if ops == [] then []
    else
      var held := ValuesIn(After(ops[..|ops| - 1]), key);
      RemovedFrom(ops[..|ops| - 1], key) + if Removes(ops[|ops| - 1], key) && held != [] then [held[0]] else []
  }

  predicate Removes<V>(op: TableOperation<V>, key: Key) {
    op.RemoveOldest? && op.key == key
  }

  /** What an operation answers: whether a remove found the key, and what it handed to the destroyer. */
  datatype TableAnswer<V> = TableAnswer(found: bool, destroyed: seq<V>)

  ghost function AnswerTo<V>(store: map<Key, seq<V>>, op: TableOperation<V>): TableAnswer<V> {
    match op
    case PutValue(_, _) => TableAnswer(false, [])
    case RemoveOldest(key, destroy) =>
      var held := ValuesIn(store, key);
      TableAnswer(held != [], if destroy && held != [] then [held[0]] else [])
  }

  ghost function Answers<V>(ops: seq<TableOperation<V>>): (r: seq<TableAnswer<V>>)
    ensures |r| == |ops|
  {
    if ops == [] then [] else Answers(ops[..|ops| - 1]) + [AnswerTo(After(ops[..|ops| - 1]), ops[|ops| - 1])]
  }

  /** What the answers to the removes of a key hand over, when all of them ask for it. */
  ghost function HandedOver<V>(ops: seq<TableOperation<V>>, key: Key): seq<V> {
    if ops == [] then []
    else
      var last := |ops| - 1;
      HandedOver(ops[..last], key) + if Removes(ops[last], key) then Answers(ops)[last].destroyed else []
  }

  /** The values handed over are the values removed, in order. */
  lemma {:induction false} AnswersHandOver<V>(ops: seq<TableOperation<V>>, key: Key)
    requires forall i :: 0 <= i < |ops| && ops[i].RemoveOldest? ==> ops[i].destroy
    ensures HandedOver(ops, key) == RemovedFrom(ops, key)
  {
    if ops != [] {
      AnswersHandOver(ops[..|ops| - 1], key);
    }
  }

  /** Over every run a string key is a queue: what was removed and then what is held is what was put. */
  lemma {:induction false} StringKeysAreQueues<V>(ops: seq<TableOperation<V>>, s: string)
    ensures RemovedFrom(ops, StringKey(s)) + ValuesIn(After(ops), StringKey(s)) == PutUnder(ops, StringKey(s))
  {
    if ops != [] {
      StringKeysAreQueues(ops[..|ops| - 1], s);
      var before := After(ops[..|ops| - 1]);
      match ops[|ops| - 1] {
        case PutValue(key, data) => QueuePut(before, key, data, s);
        case RemoveOldest(key, _) => QueueRemove(before, key, s);
      }
      hide ValuesIn, PutIn, RemoveFrom;
    }
  }

  lemma QueuePut<V>(store: map<Key, seq<V>>, key: Key, data: V, s: string)
    ensures ValuesIn(PutIn(store, key, data), StringKey(s))
         == ValuesIn(store, StringKey(s)) + if key == StringKey(s) then [data] else []
  {}

  lemma QueueRemove<V>(store: map<Key, seq<V>>, key: Key, s: string)
    ensures
      var held := ValuesIn(store, StringKey(s));
      held == (if key == StringKey(s) && held != [] then [held[0]] else [])
        + ValuesIn(RemoveFrom(store, key), StringKey(s))
  {}

  /** Over every run an integer key holds the value last put, unless it was removed since. */
  lemma {:induction false} IntegerKeysHoldTheLast<V>(ops: seq<TableOperation<V>>, n: nat)
    ensures ValuesIn(After(ops), IntegerKey(n)) == LastUnder(ops, IntegerKey(n))
  {
    if ops != [] {
      IntegerKeysHoldTheLast(ops[..|ops| - 1], n);
    }
  }

  ghost function LastUnder<V>(ops: seq<TableOperation<V>>, key: Key): (r: seq<V>)
    ensures |r| <= 1
  {
    if ops == [] then []
    else
      match ops[|ops| - 1]
      case PutValue(k, data) => (if k == key then [data] else LastUnder(ops[..|ops| - 1], key))
      case RemoveOldest(k, _) => (if k == key then [] else LastUnder(ops[..|ops| - 1], key))
  }

  /** Any run of puts and removes on a new map is the run of the abstract store, answers included. */
  method RunMap<V>(hash: (Key, nat) -> nat, tablesize: nat, ops: seq<TableOperation<V>>)
    returns (m: HashMap<V>, answers: seq<TableAnswer<V>>)
    requires 0 < tablesize && forall k :: hash(k, tablesize) < tablesize
    ensures m.Valid() && m.store == After(ops) && answers == Answers(ops)
  {
    hide HashMap.Valid, PutIn, RemoveFrom;
    m := new HashMap(hash, tablesize);
    answers := [];
    for i := 0 to |ops|
      invariant fresh(m) && (m.table != null ==> fresh(m.table)) && m.Valid()
      invariant m.store == After(ops[..i]) && answers == Answers(ops[..i])
    {
      assert ops[..i + 1][..i] == ops[..i];
      match ops[i] {
        case PutValue(key, data) =>
          m.Put(key, data);
          answers := answers + [TableAnswer(false, [])];
        case RemoveOldest(key, destroy) =>
          var found, destroyed := m.Remove(key, destroy);
          answers := answers + [TableAnswer(found, destroyed)];
      }
    }
    assert ops[..|ops|] == ops;
  }

  class HashMap<V> {
    const hash: (Key, nat) -> nat
    var tablesize: nat
    var size: int
    var table: array?<seq<ChainEntry<V>>>
    ghost var store: map<Key, seq<V>>
    ghost var bag: multiset<Key>

    /** What the table holds for a key. */
    ghost function Held(key: Key): seq<V>
      reads this, table
    {
      if table == null || hash(key, tablesize) >= table.Length then []
      else DataOf(table[hash(key, tablesize)], key)
    }

    ghost predicate Valid()
      reads this, table
    {
      && 0 < tablesize
      && (table != null ==> table.Length == tablesize)
      && (forall k :: hash(k, tablesize) < tablesize)
      && (forall k :: ValuesIn(store, k) == Held(k))
      && (forall n :: |ValuesIn(store, IntegerKey(n))| <= 1)
      && size == |bag| && Counted(store, bag)
    }

    /** `hash` stands for the two hash functions reduced into the table, for any table size. */
    constructor (hash: (Key, nat) -> nat, tablesize: nat)
      requires 0 < tablesize && forall k :: hash(k, tablesize) < tablesize
      ensures Valid() && table == null && size == 0 && store == map[]
      ensures this.hash == hash && this.tablesize == tablesize
    {
      this.hash, this.tablesize, size, table := hash, tablesize, 0, null;
      bag, store := multiset{}, map[];
    }

    /** A map whose table size is chosen at once, so that its table exists from the start. */
    constructor WithTable(hash: (Key, nat) -> nat, tablesize: nat)
      requires 0 < tablesize && forall k :: hash(k, tablesize) < tablesize
      ensures Valid() && table != null && fresh(table) && store == map[]
    {
      this.hash, this.tablesize, size, table := hash, tablesize, 0, null;
      bag, store := multiset{}, map[];
      new;
      SetTableSize(tablesize);
    }

    /** Sets up every bucket by doubling copies of the first one. */
    method CreateTable()
      requires Valid() && table == null
      modifies this`table
      ensures Valid() && table != null && fresh(table)
      ensures forall i :: 0 <= i < table.Length ==> table[i] == []
    {
      var t := new seq<ChainEntry<V>>[tablesize];
      t[0] := [];
      var i := 1;
      while i < tablesize
        invariant 1 <= i
        invariant forall p :: 0 <= p < i && p < tablesize ==> t[p] == t[0] == []
        decreases tablesize - i
      {
        var n := if i + i > tablesize then tablesize - i else i;
        forall p | i <= p < i + n {
          t[p] := t[0];
        }
        i := i * 2;
      }
      table := t;
    }

    /** Choosing the table size of a map that has no table yet. */
    method SetTableSize(tablesize: nat)
      requires Valid() && table == null && 0 < tablesize && forall k :: hash(k, tablesize) < tablesize
      modifies this`tablesize, this`table
      ensures Valid() && this.tablesize == tablesize && table != null && fresh(table)
    {
      this.tablesize := tablesize;
      CreateTable();
    }

    method Put(key: Key, data: V)
      requires Valid()
      modifies this`table, this`size, this`bag, this`store, table
      ensures Valid() && table != null && (if old(table) == null then fresh(table) else table == old(table))
      ensures store == PutIn(old(store), key, data)
      ensures size == if key.IntegerKey? && ValuesIn(old(store), key) != [] then old(size) else old(size) + 1
    {
      hide DataOf, Counted;
      if table == null {
        CreateTable();
      }
      var h := hash(key, tablesize);
      var chain := table[h];
      if key.IntegerKey? {
        var i := FindFirst(chain, key);
        if i < |chain| {
          UpdateEntry(h, i, data);
          return;
        }
      }
      AppendEntry(h, key, data);
    }

    /** Replaces the data of an entry found in its chain. */
    method UpdateEntry(h: nat, i: nat, data: V)
      requires Valid() && table != null && h < tablesize && i < |table[h]|
      requires var e := table[h][i]; e.key.IntegerKey? && hash(e.key, tablesize) == h
      modifies this`store, table
      ensures Valid() && store == PutIn(old(store), old(table[h][i].key), data)
      ensures ValuesIn(old(store), old(table[h][i].key)) != []
    {
      hide DataOf, Counted;
      ghost var chain, key := table[h], table[h][i].key;
      DataOfAt(chain, i, key);
      assert |ValuesIn(store, key)| == 1 && DataOf(chain[..i], key) == DataOf(chain[i + 1..], key) == [];
      table[h] := table[h][i := table[h][i].(data := data)];
      OneValue(store, bag, key, data);
      store := store[key := [data]];
      forall k ensures Held(k) == if k == key then [data] else old(Held(k)) {
        DataOfReplaced(chain, i, data, k);
      }
    }

    method AppendEntry(h: nat, key: Key, data: V)
      requires Valid() && table != null && h == hash(key, tablesize)
      requires key.IntegerKey? ==> ValuesIn(store, key) == []
      modifies this`size, this`bag, this`store, table
      ensures Valid() && size == old(size) + 1
      ensures store == PutIn(old(store), key, data)
    {
      hide DataOf, Counted;
      ghost var chain := table[h];
      table[h] := table[h] + [ChainEntry(key, data)];
      size := size + 1;
      CountedChange(store, bag, key, ValuesIn(store, key) + [data]);
      assert key.IntegerKey? ==> ValuesIn(store, key) + [data] == [data];
      bag := bag[key := |ValuesIn(store, key)| + 1];
      store := store[key := ValuesIn(store, key) + [data]];
      forall k ensures Held(k) == old(Held(k)) + if k == key then [data] else [] {
        DataOfAppend(chain, ChainEntry(key, data), k);
      }
    }

    /** The oldest value of a key. */
    method Get(key: Key) returns (r: Option<V>)
      requires Valid()
      ensures r == if ValuesIn(store, key) == [] then None else Some(ValuesIn(store, key)[0])
    {
      if table == null {
        return None;
      }
      var chain := table[hash(key, tablesize)];
      var i := FindFirst(chain, key);
      if i < |chain| {
        DataOfAt(chain, i, key);
        return Some(chain[i].data);
      }
      return None;
    }

    /** Drops the oldest value of a key, handing it to the destroyer when asked to. */
    method Remove(key: Key, destroy: bool) returns (found: bool, destroyed: seq<V>)
      requires Valid()
      modifies this`size, this`bag, this`store, table
      ensures Valid() && found == (ValuesIn(old(store), key) != [])
      ensures store == RemoveFrom(old(store), key)
      ensures size == if found then old(size) - 1 else old(size)
      ensures destroyed == if found && destroy then [ValuesIn(old(store), key)[0]] else []
    {
      if table == null {
        return false, [];
      }
      var h := hash(key, tablesize);
      var chain := table[h];
      var i := FindFirst(chain, key);
      if i == |chain| {
        return false, [];
      }
      destroyed := if destroy then [chain[i].data] else [];
      DropEntry(h, i);
      return true, destroyed;
    }

    method DropEntry(h: nat, i: nat)
      requires Valid() && table != null && h < tablesize && i < |table[h]|
      requires var e := table[h][i]; hash(e.key, tablesize) == h && DataOf(table[h][..i], e.key) == []
      modifies this`size, this`bag, this`store, table
      ensures Valid() && size == old(size) - 1
      ensures
        var key, values := old(table[h][i].key), ValuesIn(old(store), old(table[h][i].key));
        && values != [] && values[0] == old(table[h][i].data)
        && store == RemoveFrom(old(store), key)
    {
      hide DataOf, Without, Counted;
      ghost var chain, key := table[h], table[h][i].key;
      table[h] := Without(table[h], i);
      size := size - 1;
      DataOfAt(chain, i, key);
      CountedChange(store, bag, key, ValuesIn(store, key)[1..]);
      bag := bag[key := |ValuesIn(store, key)| - 1];
      store := store[key := ValuesIn(store, key)[1..]];
      forall k
        ensures old(Held(k)) == if k == key then [chain[i].data] + Held(k) else Held(k)
      {
        DataOfDrop(chain, i, k);
      }
    }
  }
}
