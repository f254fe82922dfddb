/** The size-limited cache, without ageing: new entries go to the tail of the list, and the tail is also
    where entries are evicted. With `reqreset` a get, or a put that overwrites, moves its entry to the head. */
module Cache {
  import opened ListWalk
  import opened LinkedList
  import opened HashTable
  import opened IndexedLists

  /** What the cache holds, how many entries at the front are not linked back, and where every value put
      into it has gone: handed to the destroyer, overwritten in place, or refused because the cache has no
      room at all. */
  datatype CacheState<D> = CacheState(
    items: seq<Item<D>>, front: nat, destroyed: seq<D>, overwritten: seq<D>, refused: seq<D>)

  datatype Operation<D> = Put(key: string, data: D) | Remove(key: string) | Get(key: string)

  /** `Losing` is the state in which the C code goes on to unchain an entry that it takes for the head of
      the list although it is not, and so loses the entries in front of it; it does not check for that. */
  datatype Progress<D> = Going(s: CacheState<D>) | Losing(s: CacheState<D>)

  datatype Setting = Setting(limit: int, reqreset: bool)

  function Empty<D>(): CacheState<D> {
    CacheState([], 1, [], [], [])
  }

  /** An entry leaves the cache, and its value goes to the destroyer. */
  function TakeOut<D>(s: CacheState<D>, at: nat): CacheState<D>
    requires at < |s.items|
  {
    s.(items := Without(s.items, at), front := FrontWithout(s.front, at),
       destroyed := s.destroyed + [s.items[at].data])
  }

  function TryTakeOut<D>(s: CacheState<D>, at: nat): Progress<D>
    requires at < |s.items|
  {
    if Removable(s.front, at) then Going(TakeOut(s, at)) else Losing(s)
  }

  /** Eviction: the last entries go, until there is room for one more below the limit. */
  function Evict<D>(s: CacheState<D>, limit: int): Progress<D>
    requires 1 <= limit
    decreases |s.items|
  {
    if |s.items| <= limit - 1 then Going(s)
    else if !Removable(s.front, |s.items| - 1) then Losing(s)
    else Evict(TakeOut(s, |s.items| - 1), limit)
  }

  /** A request for an entry: with `reqreset` it becomes the first one. */
  function Touch<D>(s: CacheState<D>, at: nat, reqreset: bool): Progress<D>
    requires at < |s.items|
  {
    if !reqreset then Going(s)
    else if !Removable(s.front, at) then Losing(s)
    else Going(s.(items := ToFront(s.items, at), front := FrontMoved(s.front, at, |s.items|)))
  }

  function Insert<D>(s: CacheState<D>, reqreset: bool, key: string, data: D): Progress<D> {
    var p := Position(s.items, key);
    var t := s.(items := PutItems(s.items, key, data));
    if p < |s.items| then Touch(t.(overwritten := s.overwritten + [s.items[p].data]), p, reqreset)
    else Going(t)
  }

  function AfterPut<D>(s: CacheState<D>, c: Setting, key: string, data: D): Progress<D> {
    if c.limit < 1 then Going(s.(refused := s.refused + [data]))
    else
      var e := Evict(s, c.limit);
      if e.Losing? then e else Insert(e.s, c.reqreset, key, data)
  }

  function AfterRemove<D>(s: CacheState<D>, key: string): Progress<D> {
    var p := Position(s.items, key);
    if p < |s.items| then TryTakeOut(s, p) else Going(s)
  }

  function AfterGet<D>(s: CacheState<D>, reqreset: bool, key: string): Progress<D> {
    var p := Position(s.items, key);
    if p < |s.items| then Touch(s, p, reqreset) else Going(s)
  }

  function Step<D>(s: CacheState<D>, c: Setting, op: Operation<D>): Progress<D> {
    match op
    case Put(key, data) => AfterPut(s, c, key, data)
    case Remove(key) => AfterRemove(s, key)
    case Get(key) => AfterGet(s, c.reqreset, key)
  }

  /** A run, up to where it would lose entries. */
  function Run<D>(s: CacheState<D>, c: Setting, ops: seq<Operation<D>>): Progress<D> {
    if ops == [] then Going(s)
    else
      var r := Run(s, c, ops[..|ops| - 1]);
      if r.Losing? then r else Step(r.s, c, ops[|ops| - 1])
  }

  // ----- Laws of every run

  ghost predicate Sound<D>(s: CacheState<D>, limit: int) {
    DistinctKeys(s.items) && (s.items == [] || |s.items| <= limit) && FrontFits(s.front, |s.items|)
  }

  function Kept(n: nat, limit: int): (k: nat)
    requires 1 <= limit
    ensures k <= n
  {
    if n <= limit - 1 then n else limit - 1
  }

  lemma {:induction false} EvictShape<D>(s: CacheState<D>, limit: int)
    requires 1 <= limit && FrontFits(s.front, |s.items|)
    ensures
      var r := Evict(s, limit);
      && |r.s.items| <= |s.items| && r.s.items == s.items[..|r.s.items|] && FrontFits(r.s.front, |r.s.items|)
      && r.s.overwritten == s.overwritten && r.s.refused == s.refused
      && (r.Going? ==> |r.s.items| == Kept(|s.items|, limit))
      && (s.front == 1 ==> r.Going? && r.s.front == 1)
    decreases |s.items|
  {
    var last := |s.items| - 1;
    if |s.items| > limit - 1 && Removable(s.front, last) {
      EvictShape(TakeOut(s, last), limit);
    }
  }

  lemma DistinctMoved<D>(items: seq<Item<D>>, at: nat)
    requires DistinctKeys(items) && at < |items|
    ensures DistinctKeys(ToFront(items, at))
  {
    ToFrontAt(items, at);
    hide ToFront;
  }

  lemma TouchSound<D>(s: CacheState<D>, limit: int, at: nat, reqreset: bool)
    requires Sound(s, limit) && at < |s.items|
    ensures Sound(Touch(s, at, reqreset).s, limit)
  {
    DistinctMoved(s.items, at);
  }

  lemma TakeOutSound<D>(s: CacheState<D>, limit: int, at: nat)
    requires Sound(s, limit) && at < |s.items| && Removable(s.front, at)
    ensures Sound(TakeOut(s, at), limit)
  {
    WithoutAt(s.items, at);
    hide Without;
  }

  lemma InsertSound<D>(s: CacheState<D>, limit: int, reqreset: bool, key: string, data: D)
    requires Sound(s, limit) && |s.items| < limit
    ensures Sound(Insert(s, reqreset, key, data).s, limit)
  {
    var p := Position(s.items, key);
    if p < |s.items| {
      var t := s.(items := PutItems(s.items, key, data), overwritten := s.overwritten + [s.items[p].data]);
      TouchSound(t, limit, p, reqreset);
    }
    hide Touch;
  }

  lemma StepSound<D>(s: CacheState<D>, c: Setting, op: Operation<D>)
    requires Sound(s, c.limit)
    ensures Sound(Step(s, c, op).s, c.limit)
  {
    hide Position, Touch, Insert, TakeOut;
    match op
    case Get(key) =>
      var p := Position(s.items, key);
      if p < |s.items| { TouchSound(s, c.limit, p, c.reqreset); }
    case Remove(key) =>
      var p := Position(s.items, key);
      if p < |s.items| && Removable(s.front, p) { TakeOutSound(s, c.limit, p); }
    case Put(key, data) =>
      if 1 <= c.limit {
        EvictShape(s, c.limit);
        hide Evict;
        if Evict(s, c.limit).Going? {
          InsertSound(Evict(s, c.limit).s, c.limit, c.reqreset, key, data);
        }
      }
  }

  /** No key is ever held twice and the size never exceeds the limit. */
  lemma {:induction false} RunSound<D>(s: CacheState<D>, c: Setting, ops: seq<Operation<D>>)
    requires Sound(s, c.limit)
    ensures Sound(Run(s, c, ops).s, c.limit)
  {
    if ops != [] {
      RunSound(s, c, ops[..|ops| - 1]);
      StepSound(Run(s, c, ops[..|ops| - 1]).s, c, ops[|ops| - 1]);
    }
  }

  /** Every value that was ever put, counted with multiplicity. */
  function Accounted<D>(s: CacheState<D>): multiset<D> {
    multiset(Datas(s.items)) + multiset(s.destroyed) + multiset(s.overwritten) + multiset(s.refused)
  }

  function PutData<D>(ops: seq<Operation<D>>): seq<D> {
    if ops == [] then []
    else PutData(ops[..|ops| - 1]) + (if ops[|ops| - 1].Put? then [ops[|ops| - 1].data] else [])
  }

  lemma DatasConcat<D>(a: seq<Item<D>>, b: seq<Item<D>>)
    ensures Datas(a + b) == Datas(a) + Datas(b)
  {}

  lemma DatasOne<D>(item: Item<D>)
    ensures Datas([item]) == [item.data]
  {}

  lemma DatasSplit<D>(c: seq<Item<D>>, p: nat)
    requires p < |c|
    ensures Datas(c) == Datas(c[..p]) + [c[p].data] + Datas(c[p + 1..])
  {
    hide Datas;
    var front, back := c[..p], c[p + 1..];
    assert c == front + [c[p]] + back;
    DatasConcat(front + [c[p]], back);
    DatasConcat(front, [c[p]]);
    DatasOne(c[p]);
  }

  lemma DatasWithout<D>(c: seq<Item<D>>, p: nat)
    requires p < |c|
    ensures multiset(Datas(Without(c, p))) + multiset{c[p].data} == multiset(Datas(c))
  {
    hide Datas;
    DatasSplit(c, p);
    DatasConcat(c[..p], c[p + 1..]);
  }

  lemma DatasMoved<D>(c: seq<Item<D>>, p: nat)
    requires p < |c|
    ensures multiset(Datas(ToFront(c, p))) == multiset(Datas(c))
  {
    hide Datas;
    DatasWithout(c, p);
    DatasConcat([c[p]], Without(c, p));
    DatasOne(c[p]);
    hide Without;
  }

  lemma {:induction false} EvictConserves<D>(s: CacheState<D>, limit: int)
    requires 1 <= limit
    ensures Accounted(Evict(s, limit).s) == Accounted(s)
    decreases |s.items|
  {
    if |s.items| > limit - 1 && Removable(s.front, |s.items| - 1) {
      EvictConserves(TakeOut(s, |s.items| - 1), limit);
      DatasWithout(s.items, |s.items| - 1);
      hide Datas, Without;
    }
  }

  lemma TouchConserves<D>(s: CacheState<D>, at: nat, reqreset: bool)
    requires at < |s.items|
    ensures Accounted(Touch(s, at, reqreset).s) == Accounted(s)
  {
    DatasMoved(s.items, at);
    hide Datas, ToFront;
  }

  lemma InsertConserves<D>(s: CacheState<D>, reqreset: bool, key: string, data: D)
    ensures Accounted(Insert(s, reqreset, key, data).s) == Accounted(s) + multiset{data}
  {
    hide Datas, Position, Touch;
    var p := Position(s.items, key);
    if p < |s.items| {
      var after := s.items[p := Item(key, data)];
      DatasSplit(s.items, p);
      DatasSplit(after, p);
      assert after[..p] == s.items[..p] && after[p + 1..] == s.items[p + 1..];
      TouchConserves(s.(items := after, overwritten := s.overwritten + [s.items[p].data]), p, reqreset);
    } else {
      DatasConcat(s.items, [Item(key, data)]);
      DatasOne(Item(key, data));
    }
  }

  lemma StepConserves<D>(s: CacheState<D>, c: Setting, op: Operation<D>)
    ensures
      var r := Step(s, c, op);
      r.Going? ==> Accounted(r.s) == Accounted(s) + if op.Put? then multiset{op.data} else multiset{}
  {
    hide Datas, Position, Evict, Insert, Without, Touch;
    match op
    case Get(key) =>
      var p := Position(s.items, key);
      if p < |s.items| { TouchConserves(s, p, c.reqreset); }
    case Remove(key) =>
      var p := Position(s.items, key);
      if p < |s.items| { DatasWithout(s.items, p); }
    case Put(key, data) =>
      if 1 <= c.limit {
        EvictConserves(s, c.limit);
        InsertConserves(Evict(s, c.limit).s, c.reqreset, key, data);
      }
  }

  /** Over every run from an empty cache that loses no entries, each value put is held, was overwritten in
      place, was refused, or went to the destroyer, exactly once. */
  lemma {:induction false} RunConserves<D>(c: Setting, ops: seq<Operation<D>>)
    ensures var r := Run(Empty(), c, ops); r.Going? ==> Accounted(r.s) == multiset(PutData(ops))
  {
    if ops != [] {
      RunConserves(c, ops[..|ops| - 1]);
      StepConserves(Run(Empty(), c, ops[..|ops| - 1]).s, c, ops[|ops| - 1]);
    }
  }

  // ----- When entries are lost

  /** The entry that an operation unchains without its being linked back, behind other entries. */
  predicate Endangered<D>(s: CacheState<D>, key: string) {
    var p := Position(s.items, key);
    0 < p < |s.items| && p < s.front
  }

  /** With its tail entry evicted, if it is full. */
  function Roomy<D>(s: CacheState<D>, limit: int): CacheState<D> {
    if s.items != [] && |s.items| >= limit then TakeOut(s, |s.items| - 1) else s
  }

  /** An operation loses entries exactly when the entry it takes out or moves to the head is behind the
      first one and among those that were there before: for a put, the tail entry of a full cache, or the
      entry that it overwrites. */
  lemma StepLosesIff<D>(s: CacheState<D>, c: Setting, op: Operation<D>)
    requires Sound(s, c.limit)
    ensures Step(s, c, op).Losing? <==>
      match op
      case Get(key) => c.reqreset && Endangered(s, key)
      case Remove(key) => Endangered(s, key)
      case Put(key, _) =>
        1 <= c.limit && ((|s.items| == c.limit >= 2 && s.front == c.limit)
                         || (c.reqreset && Endangered(Roomy(s, c.limit), key)))
  {
    hide Position, ToFront, Without;
    if op.Put? && 1 <= c.limit {
      var r := Roomy(s, c.limit);
      if |s.items| == c.limit {
        RoomMade(r, c.limit);
      }
    }
  }

  lemma RoomMade<D>(s: CacheState<D>, limit: int)
    requires 1 <= limit && |s.items| <= limit - 1
    ensures Evict(s, limit) == Going(s)
  {}

  /** Without `reqreset` no run from an empty cache ever loses an entry. */
  lemma {:induction false} NoResetNoLoss<D>(c: Setting, ops: seq<Operation<D>>)
    requires !c.reqreset
    ensures Run(Empty<D>(), c, ops).Going? && Run(Empty<D>(), c, ops).s.front == 1
  {
    if ops != [] {
      NoResetNoLoss<D>(c, ops[..|ops| - 1]);
      var before := Run(Empty<D>(), c, ops[..|ops| - 1]).s;
      RunSound(Empty<D>(), c, ops[..|ops| - 1]);
      StepWithoutReset(before, c, ops[|ops| - 1]);
      hide Step, Sound;
    }
  }

  lemma StepWithoutReset<D>(s: CacheState<D>, c: Setting, op: Operation<D>)
    requires !c.reqreset && Sound(s, c.limit) && s.front == 1
    ensures Step(s, c, op).Going? && Step(s, c, op).s.front == 1
  {
    if 1 <= c.limit {
      EvictShape(s, c.limit);
    }
    hide Position, Evict, Without;
  }

  /** With `reqreset`, asking for one entry, then for another, and then for the first one again loses
      entries, whatever happened before. */
  lemma AskingAgainLoses<D>(s: CacheState<D>, limit: int, a: string, b: string)
    requires Sound(s, limit) && a != b
    requires Position(s.items, a) < |s.items| && Position(s.items, b) < |s.items|
    ensures Run(s, Setting(limit, true), [Get(a), Get(b), Get(a)]).Losing?
  {
    var c := Setting(limit, true);
    RunOfThree(s, c, Get(a), Get(b), Get(a));
    var r := Step(s, c, Get(a));
    if r.Going? {
      AfterAsking(s, limit, a, b);
      AfterAsking(r.s, limit, b, a);
      hide Position, ToFront, Sound;
    }
  }

  lemma RunOfThree<D>(s: CacheState<D>, c: Setting, x: Operation<D>, y: Operation<D>, z: Operation<D>)
    ensures
      var r := Step(s, c, x);
      var t := if r.Losing? then r else Step(r.s, c, y);
      Run(s, c, [x, y, z]) == if t.Losing? then t else Step(t.s, c, z)
  {
    hide Step;
    RunOfMore(s, c, [], x);
    RunOfMore(s, c, [x], y);
    RunOfMore(s, c, [x, y], z);
    assert [] + [x] == [x] && [x] + [y] == [x, y] && [x, y] + [z] == [x, y, z];
  }

  lemma RunOfMore<D>(s: CacheState<D>, c: Setting, ops: seq<Operation<D>>, op: Operation<D>)
    ensures var r := Run(s, c, ops); Run(s, c, ops + [op]) == if r.Losing? then r else Step(r.s, c, op)
  {
    assert (ops + [op])[..|ops|] == ops;
  }

  /** The entry asked for is the first one, another one that is held is behind it, and the one that was
      first before is endangered. */
  lemma AfterAsking<D>(s: CacheState<D>, limit: int, a: string, b: string)
    requires Sound(s, limit) && a != b
    requires Position(s.items, a) < |s.items| && Position(s.items, b) < |s.items|
    ensures
      var r := Step(s, Setting(limit, true), Get(a));
      r.Going? ==>
        && Sound(r.s, limit) && |r.s.items| == |s.items| && r.s.front >= 2
        && Position(r.s.items, a) == 0 && 0 < Position(r.s.items, b) < |r.s.items|
        && (Position(s.items, b) == 0 ==> Position(r.s.items, b) == 1)
  {
    hide ToFront, Position;
    StepSound(s, Setting(limit, true), Get(a));
    var p, q := Position(s.items, a), Position(s.items, b);
    ToFrontAt(s.items, p);
    var d := ToFront(s.items, p);
    DistinctMoved(s.items, p);
    PositionAt(d, a, 0);
    PositionAt(d, b, if q < p then q + 1 else q);
  }

  /** How often a run of gets brings another entry to the head. */
  function Changes<D>(s: CacheState<D>, c: Setting, ops: seq<Operation<D>>): nat {
    if ops == [] then 0
    else
      var rest := ops[..|ops| - 1];
      Changes(s, c, rest) + if ops[|ops| - 1].Get? && Held(Run(s, c, rest).s, ops[|ops| - 1].key) then 1 else 0
  }

  /** The key is held, but not in front. */
  predicate Held<D>(s: CacheState<D>, key: string) {
    0 < Position(s.items, key) < |s.items|
  }

  /** A run of gets that loses nothing brings another entry to the head fewer times than there are entries:
      each time it does, one more entry becomes endangered. */
  lemma {:induction false} FewChanges<D>(s: CacheState<D>, limit: int, ops: seq<Operation<D>>)
    requires Sound(s, limit) && forall i :: 0 <= i < |ops| ==> ops[i].Get?
    requires Run(s, Setting(limit, true), ops).Going?
    ensures
      var r := Run(s, Setting(limit, true), ops).s;
      |r.items| == |s.items| && Changes(s, Setting(limit, true), ops) + s.front <= r.front
    ensures s.items != [] ==> Changes(s, Setting(limit, true), ops) < |s.items|
  {
    var c := Setting(limit, true);
    RunSound(s, c, ops);
    if ops != [] {
      FewChanges(s, limit, ops[..|ops| - 1]);
    }
    hide Position, ToFront, DistinctKeys;
  }

  // ----- Puts of distinct keys

  /** The puts of a sequence of items. */
  function Puts<D>(items: seq<Item<D>>): (ops: seq<Operation<D>>)
    ensures |ops| == |items| && forall i :: 0 <= i < |ops| ==> ops[i] == Put(items[i].key, items[i].data)
  {
    seq(|items|, i requires 0 <= i < |items| => Put(items[i].key, items[i].data))
  }

  /** Eviction works against the newest entries: after any number of puts of distinct keys, a full cache
      holds the first entries it was given and, behind them, the last one. */
  lemma {:induction false} FirstKeysStay<D>(c: Setting, items: seq<Item<D>>)
    requires 1 <= c.limit && DistinctKeys(items)
    ensures
      var r := Run(Empty(), c, Puts(items));
      r.Going? && r.s.front == 1 && r.s.items ==
        if |items| <= c.limit then items else items[..c.limit - 1] + [items[|items| - 1]]
  {
    hide AfterPut, Position, Run, Puts;
    RunOfNone<D>(c);
    if items == [] {
      assert Puts(items) == [];
    } else {
      var last := |items| - 1;
      FirstKeysStay(c, items[..last]);
      RunOfPuts(c, items);
      LastPut(c, items, Run(Empty(), c, Puts(items[..last])).s);
    }
  }

  lemma RunOfNone<D>(c: Setting)
    ensures Run(Empty<D>(), c, []) == Going(Empty())
  {}

  lemma RunOfPuts<D>(c: Setting, items: seq<Item<D>>)
    requires items != []
    ensures
      var last := |items| - 1;
      var r := Run(Empty(), c, Puts(items[..last]));
      Run(Empty(), c, Puts(items)) == if r.Losing? then r else AfterPut(r.s, c, items[last].key, items[last].data)
  {
    hide AfterPut;
    assert Puts(items)[..|items| - 1] == Puts(items[..|items| - 1]);
  }

  lemma LastPut<D>(c: Setting, items: seq<Item<D>>, s: CacheState<D>)
    requires 1 <= c.limit && DistinctKeys(items) && items != [] && s.front == 1
    requires
      var last := |items| - 1;
      s.items == if last <= c.limit then items[..last] else items[..c.limit - 1] + [items[last - 1]]
    ensures
      var last := |items| - 1;
      var r := AfterPut(s, c, items[last].key, items[last].data);
      r.Going? && r.s.front == 1 && r.s.items ==
        if |items| <= c.limit then items else items[..c.limit - 1] + [items[last]]
  {
    hide Evict, Position, Touch;
    var last := |items| - 1;
    EvictShape(s, c.limit);
    var evicted := Evict(s, c.limit).s;
    var kept := Kept(last, c.limit);
    PrefixKept(items, s.items, c.limit);
    NoPosition(evicted.items, items[last].key);
    assert items[..kept] + [items[last]] == if |items| <= c.limit then items else items[..c.limit - 1] + [items[last]];
  }

  lemma PrefixKept<D>(items: seq<Item<D>>, held: seq<Item<D>>, limit: int)
    requires 1 <= limit && items != []
    requires
      var last := |items| - 1;
      held == if last <= limit then items[..last] else items[..limit - 1] + [items[last - 1]]
    ensures held[..Kept(|held|, limit)] == items[..Kept(|items| - 1, limit)]
  {}

  // ----- Gets and puts that evict nothing, whatever the walk loses on the way

  /** The data held under each key. */
  function ContentsAfter<D>(m: map<string, D>, ops: seq<Operation<D>>): map<string, D> {
    if ops == [] then m
    else
      var before := ContentsAfter(m, ops[..|ops| - 1]);
      match ops[|ops| - 1]
      case Put(key, data) => before[key := data]
      case _ => before
  }

  function AnswerFrom<D>(m: map<string, D>, op: Operation<D>): Option<D> {
    if op.Get? && op.key in m then Some(m[op.key]) else None
  }

  /** Nothing is removed, and every put finds room without an eviction. */
  predicate HasRoom<D>(m: map<string, D>, limit: int, ops: seq<Operation<D>>) {
    forall i :: 0 <= i < |ops| ==>
      !ops[i].Remove? && (ops[i].Put? ==> |ContentsAfter(m, ops[..i])| < limit)
  }

  /** The value last put under a key, or what was held before. */
  function LastPutUnder<D>(m: map<string, D>, ops: seq<Operation<D>>, key: string): Option<D> {
    if ops == [] then (if key in m then Some(m[key]) else None)
    else if ops[|ops| - 1].Put? && ops[|ops| - 1].key == key then Some(ops[|ops| - 1].data)
    else LastPutUnder(m, ops[..|ops| - 1], key)
  }

  lemma {:induction false} ContentsAreLastPut<D>(m: map<string, D>, ops: seq<Operation<D>>, key: string)
    ensures AnswerFrom(ContentsAfter(m, ops), Get(key)) == LastPutUnder(m, ops, key)
  {
    if ops != [] {
      ContentsAreLastPut(m, ops[..|ops| - 1], key);
    }
  }

  // ----- The implementation

  class VisCache<D> {
    const store: IndexedList<D>
    var limit: int
    var reqreset: bool
    ghost var destroyed: seq<D>
    ghost var overwritten: seq<D>
    ghost var refused: seq<D>

    ghost predicate Valid()
      reads this, store, store.Repr, store.list, store.list.nodes, store.index, store.index.table
    {
      store.Valid() && this !in store.Repr
    }

    ghost function State(): CacheState<D>
      reads this, store
    {
      CacheState(store.items, store.front, destroyed, overwritten, refused)
    }

    ghost function Reached(losing: bool): Progress<D>
      reads this, store
    {
      if losing then Losing(State()) else Going(State())
    }

    constructor (hash: (Key, nat) -> nat, size: nat, reqreset: bool)
      requires 0 < size && forall k :: hash(k, size) < size
      ensures Valid() && fresh(store.Repr) && limit == size && this.reqreset == reqreset && State() == Empty()
    {
      store := new IndexedList(hash, size);
      this.reqreset := reqreset;
      limit, destroyed, overwritten, refused := size, [], [], [];
    }

    /** Takes an entry out of the index and the list and hands its data to the destroyer, unless that would
        lose the entries in front of it. */
    method RemoveListEntry(le: Node<D>, ghost at: nat) returns (losing: bool)
      requires Valid() && at < |store.items| == |store.list.nodes| && le == store.list.nodes[at]
      modifies this`destroyed, store.Repr
      ensures Valid() && store.Repr == old(store.Repr)
      ensures Reached(losing) == TryTakeOut(old(State()), at)
    {
      hide IndexedList.Valid, Without;
      losing := store.TakenForHead(le, at);
      if !losing {
        var cursor, data := store.Drop(le, at);
        destroyed := destroyed + [data];
      }
    }

    /** Removes tail entries until there is room for one more. */
    method MakeRoom() returns (losing: bool)
      requires Valid() && 1 <= limit
      modifies this`destroyed, store.Repr
      ensures Valid() && store.Repr == old(store.Repr)
      ensures Reached(losing) == Evict(old(State()), limit)
    {
      hide IndexedList.Valid, Evict, Without;
      ghost var goal := Evict(State(), limit);
      var count := Size();
      losing := false;
      while count > limit - 1 && !losing
        invariant Valid() && store.Repr == old(store.Repr)
        invariant count == |store.items|
        invariant if losing then Losing(State()) == goal else Evict(State(), limit) == goal
        decreases count, !losing
      {
        var le := Tail();
        EvictStep(State(), limit);
        losing := RemoveListEntry(le, |store.items| - 1);
        count := Size();
      }
      EvictEnd(State(), limit);
    }

    method Size() returns (count: int)
      requires Valid()
      ensures count == |store.items|
    {
      count := store.list.count;
    }

    method Tail() returns (le: Node<D>)
      requires Valid() && store.items != []
      ensures |store.items| == |store.list.nodes| && le == store.list.nodes[|store.items| - 1]
    {
      hide IndexedList.Valid;
      le := store.Last();
    }

    /** Moves a requested entry to the head, if the cache is set to, and unless that would lose the entries
        in front of it. */
    method HandleRequestReset(le: Node<D>, ghost at: nat) returns (losing: bool)
      requires Valid() && at < |store.items| == |store.list.nodes| && le == store.list.nodes[at]
      modifies store.Repr
      ensures Valid() && store.Repr == old(store.Repr)
      ensures Reached(losing) == Touch(old(State()), at, reqreset)
    {
      hide IndexedList.Valid, ToFront;
      if !reqreset {
        return false;
      }
      losing := store.TakenForHead(le, at);
      if !losing {
        store.Move(le, at);
      }
    }

    method Put(key: string, data: D) returns (losing: bool)
      requires Valid()
      modifies this`destroyed, this`overwritten, this`refused, store.Repr
      ensures Valid() && fresh(store.Repr - old(store.Repr))
      ensures Reached(losing) == AfterPut(old(State()), Setting(limit, reqreset), key, data)
    {
      hide IndexedList.Valid, Evict, Touch;
      if limit < 1 {
        refused := refused + [data];
        return false;
      }
      losing := MakeRoom();
      if losing {
        return;
      }
      losing := StoreUnder(key, data);
    }

    method StoreUnder(key: string, data: D) returns (losing: bool)
      requires Valid()
      modifies this`overwritten, store.Repr
      ensures Valid() && fresh(store.Repr - old(store.Repr))
      ensures Reached(losing) == Insert(old(State()), reqreset, key, data)
    {
      hide IndexedList.Valid, Position, Touch;
      var le, at := store.Find(key);
      if le != null {
        overwritten := overwritten + [store.items[at].data];
        store.SetData(le, data, at);
        losing := HandleRequestReset(le, at);
      } else {
        store.Append(key, data);
        losing := false;
      }
    }

    method Remove(key: string) returns (losing: bool)
      requires Valid()
      modifies this`destroyed, store.Repr
      ensures Valid() && store.Repr == old(store.Repr)
      ensures Reached(losing) == AfterRemove(old(State()), key)
    {
      hide IndexedList.Valid, Position, TryTakeOut;
      var le, at := store.Find(key);
      losing := false;
      if le != null {
        losing := RemoveListEntry(le, at);
      }
    }

    /** The data held for a key. */
    method Get(key: string) returns (r: Option<D>, losing: bool)
      requires Valid()
      modifies store.Repr
      ensures Valid() && store.Repr == old(store.Repr)
      ensures r == Lookup(old(store.items), key)
      ensures Reached(losing) == AfterGet(old(State()), reqreset, key)
    {
      hide IndexedList.Valid, Position, Touch;
      var le, at := store.Find(key);
      if le == null {
        return None, false;
      }
      var data := store.DataAt(le, at);
      losing := HandleRequestReset(le, at);
      return Some(data), losing;
    }

    /** Any run of operations on the object, up to where it would lose entries, is the run of the
        specification, and each get answers with what its key leads to. */
    method Perform(ops: seq<Operation<D>>) returns (answers: seq<Option<D>>, losing: bool)
      requires Valid()
      modifies this`destroyed, this`overwritten, this`refused, store.Repr
      ensures Valid() && fresh(store.Repr - old(store.Repr))
      ensures Reached(losing) == Run(old(State()), Setting(limit, reqreset), ops)
      ensures |answers| <= |ops| && (!losing ==> |answers| == |ops|)
      ensures forall i :: 0 <= i < |answers| ==>
        answers[i] == AnswerAt(old(State()), Setting(limit, reqreset), ops, i)
    {
      hide IndexedList.Valid, Step, Run, AnswerAt;
      ghost var start, c := State(), Setting(limit, reqreset);
      RunOfNothing(start, c, ops);
      losing, answers := false, [];
      for i := 0 to |ops|
        invariant Valid() && fresh(store.Repr - old(store.Repr))
        invariant Reached(losing) == Run(start, c, ops[..i])
        invariant |answers| <= i && (!losing ==> |answers| == i)
        invariant forall j :: 0 <= j < |answers| ==> answers[j] == AnswerAt(start, c, ops, j)
      {
        RunFurther(start, c, ops, i);
        if !losing {
          var answer;
          answer, losing := PerformOne(ops[i]);
          answers := answers + [answer];
        }
      }
      assert ops[..|ops|] == ops;
    }

    // ----- The same operations when the walk may have lost entries

    /** The get of a key: the index leads to its entry, on the walk or lost. */
    method GetAnyway(key: string) returns (r: Option<D>)
      requires store.Indexed()
      modifies store.Repr
      ensures store.Indexed() && store.Repr == old(store.Repr) && store.contents == old(store.contents)
      ensures r == AnswerFrom(old(store.contents), Operation.Get(key))
    {
      hide IndexedList.Indexed;
      var le := store.FindHeld(key);
      store.KeysHeld();
      if le == null {
        return None;
      }
      var data := store.DataOfHeld(le, key);
      if reqreset {
        store.MoveHeld(le, key);
      }
      return Some(data);
    }

    /** A put that finds room: no entry is evicted, so the tail is not looked at. */
    method PutAnyway(key: string, data: D)
      requires store.Indexed() && |store.contents| < limit
      modifies store.Repr
      ensures store.Indexed() && fresh(store.Repr - old(store.Repr))
      ensures store.contents == old(store.contents)[key := data]
    {
      hide IndexedList.Indexed;
      var full := store.CountAbove(limit - 1);
      assert !full;
      var le := store.FindHeld(key);
      store.KeysHeld();
      if le != null {
        store.SetDataOfHeld(le, data, key);
        if reqreset {
          store.MoveHeld(le, key);
        }
      } else {
        store.AppendHeld(key, data);
      }
    }

    /** A run of gets and puts that evicts nothing, with either setting and past every loss: each get answers
        with the value last put. */
    method AnswerAll(ops: seq<Operation<D>>) returns (answers: seq<Option<D>>)
      requires Valid() && HasRoom(ContentsOf(store.items), limit, ops)
      modifies store, store.Repr
      ensures store.Indexed() && |answers| == |ops|
      ensures forall i :: 0 <= i < |ops| && ops[i].Get? ==>
        answers[i] == LastPutUnder(ContentsOf(old(store.items)), ops[..i], ops[i].key)
    {
      hide IndexedList.Indexed, IndexedList.Valid, ContentsAfter, LastPutUnder, ContentsOf;
      ghost var m := ContentsOf(store.items);
      ContentsOfNone(m);
      store.Forget();
      answers := [];
      for i := 0 to |ops|
        invariant store.Indexed() && fresh(store.Repr - old(store.Repr)) && |answers| == i
        invariant store.contents == ContentsAfter(m, ops[..i])
        invariant forall j :: 0 <= j < i && ops[j].Get? ==> answers[j] == LastPutUnder(m, ops[..j], ops[j].key)
      {
        assert ops[..i + 1] == ops[..i] + [ops[i]];
        ContentsAfterOne(m, ops[..i], ops[i]);
        var r := None;
        match ops[i] {
          case Get(key) =>
            ContentsAreLastPut(m, ops[..i], key);
            r := GetAnyway(key);
          case Put(key, data) => PutAnyway(key, data);
          case Remove(_) => assert false;
        }
        answers := answers + [r];
      }
    }

    method PerformOne(op: Operation<D>) returns (answer: Option<D>, losing: bool)
      requires Valid()
      modifies this`destroyed, this`overwritten, this`refused, store.Repr
      ensures Valid() && fresh(store.Repr - old(store.Repr))
      ensures Reached(losing) == Step(old(State()), Setting(limit, reqreset), op)
      ensures answer == if op.Get? then Lookup(old(store.items), op.key) else None
    {
      hide IndexedList.Valid, AfterPut, AfterRemove, AfterGet, Lookup;
      answer := None;
      match op {
        case Put(key, data) => losing := Put(key, data);
        case Remove(key) => losing := Remove(key);
        case Get(key) => answer, losing := Get(key);
      }
    }
  }

  /** The answer to operation number `i` of a run: for a get, what its key leads to. */
  function AnswerAt<D>(s: CacheState<D>, c: Setting, ops: seq<Operation<D>>, i: nat): Option<D>
    requires i < |ops|
  {
    if ops[i].Get? then Lookup(Run(s, c, ops[..i]).s.items, ops[i].key) else None
  }

  lemma RunOfNothing<D>(s: CacheState<D>, c: Setting, ops: seq<Operation<D>>)
    ensures Run(s, c, ops[..0]) == Going(s)
  {}

  lemma RunFurther<D>(s: CacheState<D>, c: Setting, ops: seq<Operation<D>>, i: nat)
    requires i < |ops|
    ensures
      var r := Run(s, c, ops[..i]);
      && Run(s, c, ops[..i + 1]) == (if r.Losing? then r else Step(r.s, c, ops[i]))
      && AnswerAt(s, c, ops, i) == if ops[i].Get? then Lookup(r.s.items, ops[i].key) else None
  {
    assert ops[..i + 1][..i] == ops[..i];
    hide Step;
  }

  lemma ContentsOfNone<D>(m: map<string, D>)
    ensures ContentsAfter(m, []) == m
  {}

  lemma ContentsAfterOne<D>(m: map<string, D>, ops: seq<Operation<D>>, op: Operation<D>)
    ensures ContentsAfter(m, ops + [op]) ==
      if op.Put? then ContentsAfter(m, ops)[op.key := op.data] else ContentsAfter(m, ops)
  {
    assert (ops + [op])[..|ops|] == ops;
  }

  lemma EvictStep<D>(s: CacheState<D>, limit: int)
    requires 1 <= limit < |s.items| + 1
    ensures
      var t := TryTakeOut(s, |s.items| - 1);
      Evict(s, limit) == if t.Losing? then t else Evict(t.s, limit)
  {}

  lemma EvictEnd<D>(s: CacheState<D>, limit: int)
    requires 1 <= limit
    ensures |s.items| <= limit - 1 ==> Evict(s, limit) == Going(s)
  {}
}
