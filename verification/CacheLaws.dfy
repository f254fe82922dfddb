/** What each operation of the cache does for its caller: which data a key leads to, in which order the keys
    are held, and what goes to the destroyer; and what follows for whole runs. */
module CacheLaws {
  import opened ListWalk
  import opened LinkedList
  import opened HashTable
  import opened IndexedLists
  import opened Hashlist
  import opened Cache

  // ----- One operation

  /** The data and the order of the keys, but for one key. */
  ghost predicate OthersAsIn<D>(items: seq<Item<D>>, before: seq<Item<D>>, key: string) {
    forall other :: other != key ==> Lookup(items, other) == Lookup(before, other)
  }

  /** After a remove the key leads to nothing, and exactly the value that was held has gone to the
      destroyer. */
  lemma RemoveTakesOut<D>(s: CacheState<D>, limit: int, key: string)
    requires Sound(s, limit) && AfterRemove(s, key).Going?
    ensures
      var r := AfterRemove(s, key).s;
      && Lookup(r.items, key) == None && OthersAsIn(r.items, s.items, key)
      && Keys(r.items) == Dropped(Keys(s.items), key)
      && r.destroyed == s.destroyed + (if Lookup(s.items, key).Some? then [Lookup(s.items, key).value] else [])
      && r.overwritten == s.overwritten && r.refused == s.refused
  {
    forall other ensures Lookup(RemoveItems(s.items, key), other)
                         == if other == key then None else Lookup(s.items, other)
    {
      LookupRemove(s.items, key, other);
    }
    KeysRemove(s.items, key);
    hide Keys, Dropped, Position;
  }

  lemma LookupMoved<D>(items: seq<Item<D>>, at: nat, other: string)
    requires DistinctKeys(items) && at < |items|
    ensures Lookup(ToFront(items, at), other) == Lookup(items, other)
  {
    var q, d := Position(items, other), ToFront(items, at);
    ToFrontAt(items, at);
    DistinctMoved(items, at);
    hide ToFront, Position;
    if q < |items| {
      PositionAt(d, other, if q == at then 0 else if q < at then q + 1 else q);
    } else {
      NoPosition(d, other);
    }
  }

  lemma KeysMoved<D>(items: seq<Item<D>>, at: nat)
    requires DistinctKeys(items) && at < |items|
    ensures Keys(ToFront(items, at)) == [items[at].key] + Dropped(Keys(items), items[at].key)
  {
    var keys := Keys(items);
    DroppedAt(keys, at);
    WithoutAt(items, at);
    WithoutAt(keys, at);
    hide Without;
    assert Keys(ToFront(items, at)) == [keys[at]] + Without(keys, at);
  }

  /** The order of the keys after one of them was asked for. */
  function Asked(keys: seq<string>, key: string, reqreset: bool): seq<string> {
    if reqreset && key in keys then [key] + Dropped(keys, key) else keys
  }

  lemma TouchLaw<D>(s: CacheState<D>, at: nat, reqreset: bool)
    requires DistinctKeys(s.items) && at < |s.items| && Touch(s, at, reqreset).Going?
    ensures
      var r := Touch(s, at, reqreset).s;
      && (forall other :: Lookup(r.items, other) == Lookup(s.items, other))
      && Keys(r.items) == Asked(Keys(s.items), s.items[at].key, reqreset)
      && r.destroyed == s.destroyed && r.overwritten == s.overwritten && r.refused == s.refused
  {
    forall other ensures Lookup(ToFront(s.items, at), other) == Lookup(s.items, other) {
      LookupMoved(s.items, at, other);
    }
    KeysMoved(s.items, at);
    assert Keys(s.items)[at] == s.items[at].key;
    hide ToFront, Dropped, Lookup;
  }

  /** A get takes nothing out; with `reqreset` its key becomes the first one. */
  lemma GetKeeps<D>(s: CacheState<D>, c: Setting, key: string)
    requires Sound(s, c.limit) && AfterGet(s, c.reqreset, key).Going?
    ensures
      var r := AfterGet(s, c.reqreset, key).s;
      && (forall other :: Lookup(r.items, other) == Lookup(s.items, other))
      && Keys(r.items) == Asked(Keys(s.items), key, c.reqreset)
      && r.destroyed == s.destroyed && r.overwritten == s.overwritten && r.refused == s.refused
  {
    hide Touch, Position;
    var p := Position(s.items, key);
    if p < |s.items| {
      TouchLaw(s, p, c.reqreset);
    }
  }

  /** The last key of a full cache, which a put evicts. */
  function Evicted<D>(s: CacheState<D>, limit: int): Option<string> {
    if s.items != [] && |s.items| >= limit then Some(s.items[|s.items| - 1].key) else None
  }

  lemma LookupLast<D>(items: seq<Item<D>>, other: string)
    requires DistinctKeys(items) && items != []
    ensures
      var last := |items| - 1;
      && Lookup(items, items[last].key) == Some(items[last].data)
      && Lookup(items[..last], other) == if other == items[last].key then None else Lookup(items, other)
  {
    hide Position;
    var last := |items| - 1;
    var q := Position(items, other);
    PositionAt(items, items[last].key, last);
    if q < last {
      PositionAt(items[..last], other, q);
    } else {
      NoPosition(items[..last], other);
    }
  }

  /** Room is made: the last entry of a full cache is gone, to the destroyer. */
  lemma EvictLaw<D>(s: CacheState<D>, limit: int)
    requires Sound(s, limit) && 1 <= limit && Evict(s, limit).Going?
    ensures
      var r, gone := Evict(s, limit).s, Evicted(s, limit);
      && Sound(r, limit) && |r.items| < limit
      && (forall other :: Lookup(r.items, other) == if Some(other) == gone then None else Lookup(s.items, other))
      && Keys(r.items) == (if gone.Some? then Keys(s.items)[..|s.items| - 1] else Keys(s.items))
      && (gone.Some? ==> Lookup(s.items, gone.value).Some?)
      && r.destroyed == s.destroyed + (if gone.Some? then [Lookup(s.items, gone.value).value] else [])
      && r.overwritten == s.overwritten && r.refused == s.refused
  {
    if Evicted(s, limit).Some? {
      var last := |s.items| - 1;
      forall other ensures Lookup(s.items[..last], other)
                           == if other == s.items[last].key then None else Lookup(s.items, other)
      {
        LookupLast(s.items, other);
      }
      LookupLast(s.items, s.items[last].key);
      hide Lookup, Keys;
      assert Without(s.items, last) == s.items[..last];
      RoomMade(TakeOut(s, last), limit);
      assert Keys(s.items[..last]) == Keys(s.items)[..last];
    }
  }

  /** A value overwritten in place, if the key is held. */
  lemma InsertLaw<D>(s: CacheState<D>, limit: int, reqreset: bool, key: string, data: D)
    requires Sound(s, limit) && |s.items| < limit && Insert(s, reqreset, key, data).Going?
    ensures
      var r, held := Insert(s, reqreset, key, data).s, Lookup(s.items, key);
      && Lookup(r.items, key) == Some(data) && OthersAsIn(r.items, s.items, key)
      && Keys(r.items) == (if held.Some? then Asked(Keys(s.items), key, reqreset) else Keys(s.items) + [key])
      && r.destroyed == s.destroyed && r.refused == s.refused
      && r.overwritten == s.overwritten + (if held.Some? then [held.value] else [])
  {
    hide Touch, Position, Asked;
    var p, after := Position(s.items, key), PutItems(s.items, key, data);
    forall other
      ensures DistinctKeys(after) && Lookup(after, other) == if other == key then Some(data) else Lookup(s.items, other)
    {
      LookupPut(s.items, key, data, other);
    }
    KeysPut(s.items, key, data);
    assert key in Keys(s.items) <==> p < |s.items| by {
      assert p < |s.items| ==> Keys(s.items)[p] == key;
    }
    assert Keys(s.items) + [] == Keys(s.items);
    if p < |s.items| {
      TouchLaw(s.(items := after, overwritten := s.overwritten + [s.items[p].data]), p, reqreset);
    }
  }

  /** After a put into a cache with room for one the key leads to the data, whatever was held under it
      before. The last key of a full cache is gone, even for a put that overwrites; no other key is touched.
      What was held goes to the destroyer if it is evicted and is overwritten if it is not. A held key keeps
      its place, or becomes the first one with `reqreset`; a new one goes last. */
  lemma PutStores<D>(s: CacheState<D>, c: Setting, key: string, data: D)
    requires Sound(s, c.limit) && AfterPut(s, c, key, data).Going?
    ensures c.limit < 1 ==> AfterPut(s, c, key, data).s == s.(refused := s.refused + [data])
    ensures c.limit >= 1 ==>
      var r, gone, held := AfterPut(s, c, key, data).s, Evicted(s, c.limit), Lookup(s.items, key);
      var keys := if gone.Some? then Keys(s.items)[..|s.items| - 1] else Keys(s.items);
      && Lookup(r.items, key) == Some(data)
      && (forall other :: other != key ==>
            Lookup(r.items, other) == if Some(other) == gone then None else Lookup(s.items, other))
      && (gone.Some? ==> Lookup(s.items, gone.value).Some?)
      && r.destroyed == s.destroyed + (if gone.Some? then [Lookup(s.items, gone.value).value] else [])
      && r.overwritten == s.overwritten + (if held.Some? && Some(key) != gone then [held.value] else [])
      && r.refused == s.refused
      && Keys(r.items) ==
          (if held.Some? && Some(key) != gone then Asked(keys, key, c.reqreset) else keys + [key])
  {
    if 1 <= c.limit {
      EvictLaw(s, c.limit);
      InsertLaw(Evict(s, c.limit).s, c.limit, c.reqreset, key, data);
      hide Evict, Insert, Lookup, Asked, Evicted;
    }
  }

  // ----- Runs

  /** Neither a put nor a remove of the key. */
  predicate Leaves<D>(op: Operation<D>, key: string) {
    op.Get? || op.key != key
  }

  /** The value last put under a key and not removed since. */
  function LastKept<D>(ops: seq<Operation<D>>, key: string): Option<D> {
    if ops == [] then None
    else if Leaves(ops[|ops| - 1], key) then LastKept(ops[..|ops| - 1], key)
    else if ops[|ops| - 1].Put? then Some(ops[|ops| - 1].data)
    else None
  }

  /** Some put since the last put or remove of the key evicted it. */
  ghost predicate EvictedSince<D>(c: Setting, ops: seq<Operation<D>>, key: string) {
    exists i :: 0 <= i < |ops| && EvictsAt(c, ops, key, i) && forall j :: i <= j < |ops| ==> Leaves(ops[j], key)
  }

  /** Put number `i` comes to a full cache whose last key this is. */
  predicate EvictsAt<D>(c: Setting, ops: seq<Operation<D>>, key: string, i: nat)
    requires i < |ops|
  {
    ops[i].Put? && Evicted(Run(Empty(), c, ops[..i]).s, c.limit) == Some(key)
  }

  lemma EvictedSinceLast<D>(c: Setting, ops: seq<Operation<D>>, op: Operation<D>, key: string)
    ensures EvictedSince(c, ops + [op], key) <==>
      Leaves(op, key) && (EvictedSince(c, ops, key) || EvictsAt(c, ops + [op], key, |ops|))
  {
    var all := ops + [op];
    assert all[..|ops|] == ops;
    forall i | 0 <= i < |ops| ensures EvictsAt(c, all, key, i) == EvictsAt(c, ops, key, i) {
      assert all[..i] == ops[..i];
    }
    hide EvictsAt, Leaves;
    if EvictedSince(c, all, key) {
      var i :| 0 <= i < |all| && EvictsAt(c, all, key, i) && forall j :: i <= j < |all| ==> Leaves(all[j], key);
      assert Leaves(all[|ops|], key);
      if i < |ops| {
        assert EvictsAt(c, ops, key, i) && forall j :: i <= j < |ops| ==> Leaves(all[j], key) && all[j] == ops[j];
      }
    }
    if Leaves(op, key) && EvictedSince(c, ops, key) {
      var i :| 0 <= i < |ops| && EvictsAt(c, ops, key, i) && forall j :: i <= j < |ops| ==> Leaves(ops[j], key);
      assert EvictsAt(c, all, key, i) && forall j :: i <= j < |all| ==> Leaves(all[j], key);
    }
    if Leaves(op, key) && EvictsAt(c, all, key, |ops|) {
      assert forall j :: |ops| <= j < |all| ==> all[j] == op;
    }
  }

  /** What a key leads to after an operation. */
  lemma StepLookup<D>(s: CacheState<D>, c: Setting, op: Operation<D>, key: string)
    requires 1 <= c.limit && Sound(s, c.limit) && Step(s, c, op).Going?
    ensures Lookup(Step(s, c, op).s.items, key) ==
      if !Leaves(op, key) then (if op.Put? then Some(op.data) else None)
      else if op.Put? && Evicted(s, c.limit) == Some(key) then None
      else Lookup(s.items, key)
  {
    hide AfterGet, AfterPut, AfterRemove, Lookup, Evicted, Keys, Sound;
    match op
    case Get(k) => GetKeeps(s, c, k);
    case Remove(k) => RemoveTakesOut(s, c.limit, k);
    case Put(k, data) => PutStores(s, c, k, data);
  }

  /** Over every run that loses no entry, a key leads to the value last put under it and not removed since,
      unless that was evicted. So after a remove it leads to nothing until the next put. */
  lemma {:induction false} RunKeepsLastPut<D>(c: Setting, ops: seq<Operation<D>>, key: string)
    requires 1 <= c.limit && Run(Empty(), c, ops).Going?
    ensures Lookup(Run(Empty(), c, ops).s.items, key) ==
      if EvictedSince(c, ops, key) then None else LastKept(ops, key)
  {
    if ops == [] {
      assert !EvictedSince(c, ops, key);
    } else {
      hide Step, Run, Lookup, Evicted, Sound, EvictedSince;
      var before, op := ops[..|ops| - 1], ops[|ops| - 1];
      assert ops == before + [op];
      RunOfMore(Empty(), c, before, op);
      RunKeepsLastPut(c, before, key);
      RunSoundFromEmpty(c, before);
      EvictedSinceLast(c, before, op, key);
      StepLookup(Run(Empty(), c, before).s, c, op, key);
    }
  }

  lemma RunSoundFromEmpty<D>(c: Setting, ops: seq<Operation<D>>)
    ensures Sound(Run(Empty(), c, ops).s, c.limit)
  {
    RunSound(Empty(), c, ops);
  }

  /** Over every run on a new cache that loses no entry, each get answers with the value last put under its
      key and not removed since, unless that was evicted. */
  method AnswerRun<D>(hash: (Key, nat) -> nat, size: nat, reqreset: bool, ops: seq<Operation<D>>)
    returns (answers: seq<Option<D>>, losing: bool)
    requires 0 < size && forall k :: hash(k, size) < size
    ensures losing == Run<D>(Empty(), Setting(size, reqreset), ops).Losing?
    ensures !losing ==> |answers| == |ops| && forall i :: 0 <= i < |ops| && ops[i].Get? ==>
      answers[i] == if EvictedSince(Setting(size, reqreset), ops[..i], ops[i].key) then None
                    else LastKept(ops[..i], ops[i].key)
  {
    var cache := new VisCache(hash, size, reqreset);
    answers, losing := cache.Perform(ops);
    ghost var c := Setting(size, reqreset);
    if !losing {
      forall i | 0 <= i < |ops| && ops[i].Get?
        ensures answers[i] == if EvictedSince(c, ops[..i], ops[i].key) then None else LastKept(ops[..i], ops[i].key)
      {
        StillGoing(c, ops, i);
        RunKeepsLastPut(c, ops[..i], ops[i].key);
      }
    }
  }

  lemma {:induction false} StillGoing<D>(c: Setting, ops: seq<Operation<D>>, i: nat)
    requires i <= |ops| && Run<D>(Empty(), c, ops).Going?
    ensures Run<D>(Empty(), c, ops[..i]).Going?
  {
    if i < |ops| {
      StillGoing(c, ops[..|ops| - 1], i);
      assert ops[..|ops| - 1][..i] == ops[..i];
    } else {
      assert ops[..i] == ops;
    }
  }
}
