/** The doubly linked list: heap entries with `prev` and `next` pointers, updated in place. */
module LinkedList {
  import opened ListWalk

  datatype Option<+T> = None | Some(value: T)

  class ListEntry<T> {
    var prev: ListEntry?<T>
    var next: ListEntry?<T>
    var data: T

    constructor (data: T)
      ensures prev == null && next == null && this.data == data
    {
      prev, next := null, null;
      this.data := data;
    }
  }

  ghost predicate Distinct<T>(s: seq<T>) {
    forall i, j :: 0 <= i < j < |s| ==> s[i] != s[j]
  }

  lemma DistinctWith<T>(s: seq<T>, k: nat, x: T)
    requires Distinct(s) && x !in s && k <= |s|
    ensures Distinct(With(s, k, x))
  {
    WithAt(s, k, x);
    hide With;
  }

  ghost function Reverse<T>(s: seq<T>): seq<T> {
    if s == [] then [] else Reverse(s[1..]) + [s[0]]
  }

  lemma ReverseNone<T>()
    ensures Reverse<T>([]) == []
  {}

  lemma ReverseStep<T>(d: seq<T>, at: nat)
    requires at < |d|
    ensures Reverse(d[at..]) == Reverse(d[at + 1..]) + [d[at]]
  {
    assert d[at..][1..] == d[at + 1..];
  }

  /** The data of a sequence of entries; it does not depend on how they are linked. */
  ghost function DatasOf<T>(s: seq<ListEntry<T>>): (d: seq<T>)
    reads s`data
    ensures |d| == |s| && forall i :: 0 <= i < |d| ==> d[i] == s[i].data
  {
    if s == [] then [] else [s[0].data] + DatasOf(s[1..])
  }

  lemma DatasUnchained<T>(s: seq<ListEntry<T>>, backs: seq<bool>, k: nat)
    requires k < |s| == |backs|
    ensures DatasOf(Unchained(s, backs, k)) == Unchained(DatasOf(s), backs, k)
  {
    UnchainedAt(s, backs, k);
    UnchainedAt(DatasOf(s), backs, k);
    hide Unchained;
    var d, e := DatasOf(Unchained(s, backs, k)), Unchained(DatasOf(s), backs, k);
    forall i | 0 <= i < |d| ensures d[i] == e[i] {
      assert d[i] == Unchained(s, backs, k)[i].data;
    }
  }

  lemma UnchainedMembers<T>(s: seq<T>, backs: seq<bool>, k: nat)
    requires k < |s| == |backs|
    ensures forall x :: x in Unchained(s, backs, k) ==> x in s
    ensures Distinct(s) ==> Distinct(Unchained(s, backs, k)) && s[k] !in Unchained(s, backs, k)
  {
    UnchainedAt(s, backs, k);
    hide Unchained;
  }

  lemma WholeUnchained<T>(s: seq<T>, backs: seq<bool>, k: nat)
    requires k < |s| == |backs| && Whole(backs)
    ensures Unchained(s, backs, k) == Without(s, k)
  {}

  /** The back links once an entry was put in at `k`. */
  function BacksWith(backs: seq<bool>, k: nat): (r: seq<bool>)
    requires k <= |backs|
    ensures |r| == |backs| + 1
  {
    var w := With(backs, k, k > 0);
    if k + 1 < |w| then w[k + 1 := true] else w
  }

  lemma BacksWithAt(backs: seq<bool>, k: nat)
    requires k <= |backs| && Headed(backs)
    ensures
      var r := BacksWith(backs, k);
      && (forall i :: 0 <= i < k ==> r[i] == backs[i]) && r[k] == (k > 0)
      && (k < |backs| ==> r[k + 1]) && (forall i :: k + 1 < i <= |backs| ==> r[i] == backs[i - 1])
      && Headed(r) && (Whole(backs) ==> Whole(r))
  {
    WithAt(backs, k, k > 0);
  }

  lemma GapBehindHead(rest: seq<bool>)
    requires Headed(rest) && Whole(rest)
    ensures Reach([false] + rest) == if rest == [] then 0 else 1
  {
    var b := [false] + rest;
    forall i | 1 < i < |b| ensures b[i] {
      assert b[i] == rest[i - 1];
    }
    assert rest != [] ==> !b[1];
  }

  class VisList<T> {
    var head: ListEntry?<T>
    var tail: ListEntry?<T>
    var count: int
    /** The entries that the walk from head to tail sees. */
    ghost var nodes: seq<ListEntry<T>>
    /** Which of them have a back link. */
    ghost var backs: seq<bool>

    ghost predicate Forward()
      reads this, nodes
    {
      && Distinct(nodes)
      && head == (if nodes == [] then null else nodes[0])
      && tail == (if nodes == [] then null else nodes[|nodes| - 1])
      && (nodes != [] ==> nodes[|nodes| - 1].next == null)
      && (forall i {:trigger nodes[i].next} :: 0 <= i < |nodes| - 1 ==> nodes[i].next == nodes[i + 1])
    }

    /** Every `prev` pointer names the entry before or is NULL, as `backs` tells; that of the head is NULL. */
    ghost predicate Backward()
      reads this, nodes
    {
      && |backs| == |nodes| && Headed(backs)
      && (forall i {:trigger nodes[i].prev} :: 0 <= i < |nodes| ==>
        nodes[i].prev == if backs[i] then nodes[i - 1] else null)
    }

    /** What every operation keeps, whatever came before it. */
    ghost predicate Walks()
      reads this, nodes
    {
      |backs| == |nodes| && Forward() && Backward()
    }

    /** Every entry counted is on the walk. */
    ghost predicate Linked()
      reads this, nodes
    {
      Walks() && count == |nodes|
    }

    /** A proper doubly linked list: no back link is missing. */
    ghost predicate Valid()
      reads this, nodes
    {
      Linked() && Whole(backs)
    }

    ghost function Datas(): (s: seq<T>)
      reads this`nodes, nodes`data
    {
      DatasOf(nodes)
    }

    constructor ()
      ensures Valid() && nodes == [] && backs == []
    {
      head, tail, count, nodes, backs := null, null, 0, [], [];
    }

    // ----- The pointer writes, from whatever state the pointers are in

    ghost function Only(e: ListEntry?<T>): (r: set<ListEntry<T>>)
      ensures e == null ==> r == {}
      ensures e != null ==> r == {e}
    {
      if e == null then {} else {e}
    }

    method PutLast(le: ListEntry<T>)
      requires (head == null <==> tail == null) && tail != le
      modifies `head, `tail, `count, le`next, le`prev, Only(tail)`next
      ensures head == (if old(head) == null then le else old(head)) && tail == le && count == old(count) + 1
      ensures le.prev == old(tail) && le.next == null && (old(tail) != null ==> old(tail).next == le)
    {
      if head == null {
        head := le;
        tail := le;
        le.prev := null;
        le.next := null;
      } else {
        var prev := tail;
        prev.next := le;
        le.prev := prev;
        le.next := null;
        tail := le;
      }
      count := count + 1;
    }

    method PutFirst(le: ListEntry<T>)
      modifies `head, `tail, `count, le`next, le`prev
      ensures head == le && tail == (if old(head) == null then le else old(tail)) && count == old(count) + 1
      ensures le.prev == null && le.next == old(head)
    {
      if head == null {
        head := le;
        tail := le;
        le.prev := null;
        le.next := null;
      } else {
        var next := head;
        le.next := next;
        head := le;
        le.prev := null;
      }
      count := count + 1;
    }

    method Bypass(le: ListEntry<T>)
      modifies `head, `tail, `count, Only(le.prev)`next, Only(le.next)`prev
      ensures count == old(count) - 1
      ensures head == (if old(le.prev) == null then old(le.next) else old(head))
      ensures tail == (if old(le.next) == null then old(le.prev) else old(tail))
      ensures old(le.prev) != null ==> old(le.prev).next == old(le.next)
      ensures old(le.next) != null ==> old(le.next).prev == old(le.prev)
    {
      var prev, next := le.prev, le.next;
      if prev != null {
        prev.next := next;
      } else {
        head := next;
      }
      if next != null {
        next.prev := prev;
      } else {
        tail := prev;
      }
      count := count - 1;
    }

    // ----- The operations on a list whose walk is known

    /** Appends an entry. */
    method Chain(le: ListEntry<T>)
      requires Walks() && le !in nodes
      modifies this, nodes`next, le`next, le`prev
      ensures Walks() && nodes == old(nodes) + [le] && count == old(count) + 1
      ensures backs == old(backs) + [old(nodes) != []]
      ensures old(Valid()) ==> Valid()
    {
      PutLast(le);
      backs := backs + [nodes != []];
      nodes := nodes + [le];
    }

    method Add(data: T)
      requires Walks()
      modifies this, nodes`next
      ensures Walks() && tail != null && fresh(tail) && nodes == old(nodes) + [tail] && count == old(count) + 1
      ensures tail.data == data
      ensures backs == old(backs) + [old(nodes) != []]
      ensures old(Valid()) ==> Valid()
    {
      var le := new ListEntry(data);
      Chain(le);
    }

    method AddLinked(data: T)
      requires Linked()
      modifies this, nodes`next
      ensures Linked() && tail != null && fresh(tail) && nodes == old(nodes) + [tail] && tail.data == data
      ensures backs == old(backs) + [old(nodes) != []] && |backs| == |nodes|
    {
      hide Forward, Backward;
      Add(data);
    }

    /** Prepends an entry. The old head keeps its NULL `prev`, so the result is a proper list exactly when
        the list was empty; the walk from the head and the count are right all the same. */
    method ChainAtBegin(le: ListEntry<T>)
      requires Walks() && le !in nodes
      modifies this, le`next, le`prev
      ensures Walks() && nodes == [le] + old(nodes) && count == old(count) + 1
      ensures backs == [false] + old(backs)
      ensures Whole(backs) <==> old(nodes) == []
    {
      PutFirst(le);
      nodes := [le] + nodes;
      backs := [false] + backs;
      assert |nodes| > 1 ==> !backs[1];
    }

    /** Entry `k` of a list is bypassed by the pointers in front of it and behind it. */
    ghost predicate BypassedForward(was: seq<ListEntry<T>>, links: seq<bool>, k: nat)
      requires k < |was| == |links| && Headed(links)
      reads `head, `tail, was`next
    {
      var behind: ListEntry?<T> := if k + 1 < |was| then was[k + 1] else null;
      && head == (if links[k] then was[0] else behind)
      && tail == (if k + 1 < |was| then was[|was| - 1] else if links[k] then was[k - 1] else null)
      && (links[k] ==> was[k - 1].next == behind)
      && (k + 1 < |was| ==> was[|was| - 1].next == null)
      && (forall i {:trigger was[i].next} :: 0 <= i < |was| - 1 && i != k && !(i == k - 1 && links[k]) ==>
        was[i].next == was[i + 1])
    }

    ghost predicate BypassedBackward(was: seq<ListEntry<T>>, links: seq<bool>, k: nat)
      requires k < |was| == |links| && Headed(links)
      reads was`prev
    {
      && (k + 1 < |was| ==> was[k + 1].prev == if links[k] then was[k - 1] else null)
      && (forall i {:trigger was[i].prev} :: 0 <= i < |was| && i != k && i != k + 1 ==>
        was[i].prev == if links[i] then was[i - 1] else null)
    }

    lemma ForwardAfter(was: seq<ListEntry<T>>, links: seq<bool>, k: nat)
      requires k < |was| == |links| && Headed(links) && Distinct(was)
      requires BypassedForward(was, links, k) && nodes == Unchained(was, links, k)
      ensures Forward()
    {
      UnchainedAt(was, links, k);
      UnchainedMembers(was, links, k);
      hide Unchained, Distinct;
    }

    lemma BackwardAfter(was: seq<ListEntry<T>>, links: seq<bool>, k: nat)
      requires k < |was| == |links| && Headed(links)
      requires BypassedBackward(was, links, k)
      requires nodes == Unchained(was, links, k) && backs == BacksAfter(links, k)
      ensures Backward()
    {
      UnchainedAt(was, links, k);
      UnchainedAt(Relinked(links, k), links, k);
      WholeAfter(links, k);
      hide Unchained;
    }

    method BypassAt(le: ListEntry<T>, ghost k: nat)
      requires Walks() && k < |nodes| && le == nodes[k]
      modifies `head, `tail, `count, nodes`next, nodes`prev
      ensures count == old(count) - 1
      ensures BypassedForward(nodes, backs, k) && BypassedBackward(nodes, backs, k)
    {
      assert le.prev == (if backs[k] then nodes[k - 1] else null);
      assert le.next == (if k + 1 < |nodes| then nodes[k + 1] else null);
      Bypass(le);
    }

    /** Takes an entry out. An entry with a back link, or the head, goes alone; any other entry is taken for
        the head, and the walk loses everything in front of it, which is still counted. */
    method Unchain(le: ListEntry<T>, ghost k: nat)
      requires Walks() && k < |nodes| && le == nodes[k]
      modifies this, nodes`next, nodes`prev
      ensures Walks() && |old(backs)| == |old(nodes)| && count == old(count) - 1
      ensures nodes == Unchained(old(nodes), old(backs), k) && backs == BacksAfter(old(backs), k)
      ensures old(Valid()) ==> Valid() && nodes == Without(old(nodes), k)
    {
      hide Without, Unchained, BypassedForward, BypassedBackward;
      ghost var was, links := nodes, backs;
      BypassAt(le, k);
      nodes := Unchained(was, links, k);
      backs := BacksAfter(links, k);
      ForwardAfter(was, links, k);
      BackwardAfter(was, links, k);
      hide Forward, Backward;
      WholeAfter(links, k);
      if Whole(links) {
        WholeUnchained(was, links, k);
      }
    }

    /** Moves an entry to the head, as a request reset does. Nothing is lost exactly when the entry is the
        head or has a back link; otherwise the walk loses everything that was in front of it. */
    method MoveToHead(le: ListEntry<T>, ghost k: nat)
      requires Walks() && k < |nodes| && le == nodes[k]
      modifies this, nodes`next, nodes`prev
      ensures Walks() && |old(backs)| == |old(nodes)| && count == old(count)
      ensures nodes == [le] + Unchained(old(nodes), old(backs), k)
      ensures Tied(old(backs), k) ==> nodes == ToFront(old(nodes), k)
      ensures backs == [false] + BacksAfter(old(backs), k)
      ensures |nodes| == |old(nodes)| <==> Tied(old(backs), k)
      ensures !Tied(old(backs), k) ==> |nodes| == |old(nodes)| - k
    {
      Unchain(le, k);
      UnchainedMembers(old(nodes), old(backs), k);
      ChainAtBegin(le);
    }

    /** The move of an entry that goes alone. */
    method MoveTied(le: ListEntry<T>, ghost k: nat)
      requires Linked() && k < |nodes| && le == nodes[k] && Tied(backs, k)
      modifies this, nodes`next, nodes`prev
      ensures Linked() && nodes == ToFront(old(nodes), k) && backs == [false] + BacksAfter(old(backs), k)
      ensures |backs| == |nodes|
    {
      hide ToFront, BacksAfter, Forward, Backward;
      MoveToHead(le, k);
    }

    /** A move on a proper list leaves one gap, behind the new head; the old head is no longer linked back. */
    method MoveOnce(le: ListEntry<T>, ghost k: nat)
      requires Valid() && k < |nodes| && le == nodes[k]
      modifies this, nodes`next, nodes`prev
      ensures Linked() && nodes == ToFront(old(nodes), k)
      ensures Reach(backs) == if |nodes| >= 2 then 1 else 0
    {
      MoveToHead(le, k);
      WholeAfter(old(backs), k);
      WholeUnchained(old(nodes), old(backs), k);
      GapBehindHead(BacksAfter(old(backs), k));
    }

    /** After that, moving another entry keeps every entry counted on the walk exactly when it is not the one
        behind the head. */
    method MoveAgain(le: ListEntry<T>, ghost k: nat)
      requires Linked() && Reach(backs) == 1 && k < |nodes| && le == nodes[k]
      modifies this, nodes`next, nodes`prev
      ensures Walks()
      ensures count == |nodes| <==> le != old(nodes)[1]
      ensures le == old(nodes)[1] ==> nodes == old(nodes)[1..]
    {
      MoveToHead(le, k);
      if k == 1 {
        assert [le] + old(nodes)[2..] == old(nodes)[1..];
      }
    }

    /** Two moves on a proper list lose an entry exactly when the second one moves what was the head before
        the first, or, if the head was moved, what was behind it. */
    method MoveTwice(first: ListEntry<T>, second: ListEntry<T>)
      requires Valid() && |nodes| >= 2 && first in nodes && second in nodes
      modifies this, nodes`next, nodes`prev
      ensures Walks()
      ensures count == |nodes| <==> second != old(nodes)[if first == old(nodes)[0] then 1 else 0]
    {
      hide ToFront, Backward;
      ghost var i, j :| 0 <= i < |nodes| && nodes[i] == first && 0 <= j < |nodes| && nodes[j] == second;
      ghost var was := nodes;
      ToFrontAt(was, i);
      MoveOnce(first, i);
      MoveAgain(second, if j == i then 0 else if j < i then j + 1 else j);
    }

    // ----- The operations on a list whose walk has lost entries

    /** All that is known of the pointers then: they stay among the entries, and neither end is missing. */
    ghost predicate Closed(all: set<ListEntry<T>>)
      reads this, all
    {
      && (if all == {} then head == null && tail == null else head in all && tail in all)
      && (forall n :: n in all ==> Only(n.prev) <= all && Only(n.next) <= all)
    }

    lemma WalkIsClosed()
      requires Walks()
      ensures Closed(set n | n in nodes)
    {
      var all := set n | n in nodes;
      assert nodes != [] ==> nodes[0] in all && nodes[|nodes| - 1] in all;
      forall n | n in all ensures Only(n.prev) <= all && Only(n.next) <= all {
        var i :| 0 <= i < |nodes| && nodes[i] == n;
        assert i + 1 < |nodes| ==> nodes[i + 1] in all;
        assert 0 < i ==> nodes[i - 1] in all;
      }
    }

    /** A request reset of any entry, on the walk or lost. */
    method MoveAnyway(le: ListEntry<T>, ghost all: set<ListEntry<T>>)
      requires Closed(all) && le in all
      modifies `head, `tail, `count, all`next, all`prev
      ensures Closed(all) && count == old(count)
    {
      Bypass(le);
      PutFirst(le);
    }

    method AddAnyway(data: T, ghost all: set<ListEntry<T>>)
      requires Closed(all)
      modifies `head, `tail, `count, all`next
      ensures tail != null && fresh(tail) && tail.data == data && Closed(all + {tail}) && count == old(count) + 1
    {
      var le := new ListEntry(data);
      PutLast(le);
    }

    /** Inserts behind the cursor, or at the head for a NULL cursor; the cursor moves to the entry. The entry
        behind the new one is linked back to it even where it had no back link before. */
    method Insert(le: ListEntry?<T>, data: T) returns (current: ListEntry<T>, ghost k: nat)
      requires Walks() && (le != null ==> le in nodes)
      modifies this, nodes`next, nodes`prev
      ensures Walks() && fresh(current) && current.data == data && k <= |old(nodes)| == |old(backs)|
      ensures nodes == With(old(nodes), k, current) && backs == BacksWith(old(backs), k) && count == old(count) + 1
      ensures if le == null then k == 0 else k > 0 && old(nodes)[k - 1] == le
      ensures old(Valid()) ==> Valid()
    {
      current := new ListEntry(data);
      if head == null && le == null {
        k := 0;
        head := current;
        tail := current;
        count := count + 1;
        nodes, backs := [current], [false];
      } else if le == null {
        k := 0;
        InsertAtHead(current);
      } else {
        k := InsertAfter(le, current);
      }
    }

    method InsertAtHead(current: ListEntry<T>)
      requires Walks() && nodes != [] && current !in nodes && current.prev == null
      modifies this, nodes`prev, current`next
      ensures Walks() && nodes == [current] + old(nodes) && backs == BacksWith(old(backs), 0)
      ensures count == old(count) + 1 && (old(Valid()) ==> Valid())
    {
      BacksWithAt(backs, 0);
      var next := head;
      current.next := next;
      next.prev := current;
      head := current;
      count := count + 1;
      backs := BacksWith(backs, 0);
      hide BacksWith;
      nodes := [current] + nodes;
    }

    /** An entry is spliced in behind entry `at` by the pointers around it. */
    ghost predicate Spliced(was: seq<ListEntry<T>>, links: seq<bool>, at: nat, current: ListEntry<T>)
      requires at < |was| == |links| && Headed(links)
      reads `head, `tail, was`next, was`prev, current`next, current`prev
    {
      var behind: ListEntry?<T> := if at + 1 < |was| then was[at + 1] else null;
      && head == was[0] && tail == (if at + 1 < |was| then was[|was| - 1] else current)
      && was[at].next == current && current.next == behind && current.prev == was[at]
      && (at + 1 < |was| ==> was[at + 1].prev == current && was[|was| - 1].next == null)
      && (forall i {:trigger was[i].next} :: 0 <= i < |was| - 1 && i != at ==> was[i].next == was[i + 1])
      && (forall i {:trigger was[i].prev} :: 0 <= i < |was| && i != at + 1 ==>
        was[i].prev == if links[i] then was[i - 1] else null)
    }

    lemma WalkParts()
      requires Walks()
      ensures Distinct(nodes) && Headed(backs)
    {}

    lemma SplicedWalks(was: seq<ListEntry<T>>, links: seq<bool>, at: nat, current: ListEntry<T>)
      requires at < |was| == |links| && Headed(links) && Distinct(was) && current !in was
      requires Spliced(was, links, at, current)
      requires nodes == With(was, at + 1, current) && backs == BacksWith(links, at + 1)
      ensures Walks()
    {
      WithAt(was, at + 1, current);
      DistinctWith(was, at + 1, current);
      BacksWithAt(links, at + 1);
      hide With, BacksWith, Distinct;
    }

    method Splice(prev: ListEntry<T>, current: ListEntry<T>, ghost at: nat)
      requires Walks() && at < |nodes| && prev == nodes[at] && current !in nodes
      modifies `tail, nodes`next, nodes`prev, current`next, current`prev
      ensures Spliced(nodes, backs, at, current)
    {
      var next := prev.next;
      current.prev := prev;
      current.next := next;
      prev.next := current;
      if next != null {
        next.prev := current;
      } else {
        tail := current;
      }
    }

    method InsertAfter(prev: ListEntry<T>, current: ListEntry<T>) returns (ghost k: nat)
      requires Walks() && prev in nodes && current !in nodes
      modifies this, nodes`next, nodes`prev, current`next, current`prev
      ensures Walks() && 0 < k <= |old(nodes)| == |old(backs)| && old(nodes)[k - 1] == prev
      ensures nodes == With(old(nodes), k, current) && backs == BacksWith(old(backs), k) && count == old(count) + 1
      ensures old(Valid()) ==> Valid()
    {
      hide With, BacksWith, Spliced, Forward, Backward;
      WalkParts();
      ghost var at :| 0 <= at < |nodes| && nodes[at] == prev;
      Splice(prev, current, at);
      count := count + 1;
      ghost var was, links := nodes, backs;
      k := at + 1;
      nodes, backs := With(was, k, current), BacksWith(links, k);
      SplicedWalks(was, links, at, current);
      BacksWithAt(links, k);
    }

    /** Deletes the entry under the cursor and moves the cursor to the entry after it; a NULL cursor is
        an error and changes nothing. */
    method Delete(le: ListEntry?<T>, ghost at: nat) returns (ok: bool, cursor: ListEntry?<T>)
      requires Walks() && (le != null ==> at < |nodes| && le == nodes[at])
      modifies this, nodes`next, nodes`prev
      ensures Walks() && ok == (le != null)
      ensures !ok ==> cursor == null && nodes == old(nodes) && backs == old(backs) && count == old(count)
      ensures ok ==> |old(backs)| == |old(nodes)| && nodes == Unchained(old(nodes), old(backs), at)
      ensures ok ==> backs == BacksAfter(old(backs), at) && count == old(count) - 1
      ensures ok ==> Datas() == Unchained(old(Datas()), old(backs), at)
      ensures ok ==> cursor == if at + 1 < |old(nodes)| then old(nodes)[at + 1] else null
      ensures old(Valid()) ==> Valid() && (ok ==> nodes == Without(old(nodes), at))
    {
      hide DatasOf, Without, Unchained, Backward;
      if le == null {
        return false, null;
      }
      var next := le.next;
      Unchain(le, at);
      DatasUnchained(old(nodes), old(backs), at);
      assert DatasOf(old(nodes)) == old(DatasOf(nodes));
      return true, next;
    }

    /** Deleting an entry that goes alone. */
    method DeleteAt(le: ListEntry<T>, ghost at: nat) returns (cursor: ListEntry?<T>)
      requires Linked() && at < |nodes| && le == nodes[at] && Tied(backs, at)
      modifies this, nodes`next, nodes`prev
      ensures Linked() && nodes == Without(old(nodes), at) && backs == BacksAfter(old(backs), at)
      ensures cursor == if at < |nodes| then nodes[at] else null
      ensures |backs| == |nodes| && (old(Valid()) ==> Valid())
    {
      WithoutAt(nodes, at);
      hide Without, BacksAfter, Forward, Backward;
      var ok;
      ok, cursor := Delete(le, at);
    }

    /** The traversal step from a position, -1 for the NULL cursor: the entry behind, and its data. */
    method Next(le: ListEntry?<T>, ghost at: int) returns (cursor: ListEntry?<T>, elem: Option<T>)
      requires Walks() && -1 <= at < |nodes| && le == if at == -1 then null else nodes[at]
      ensures cursor == if at + 1 < |nodes| then nodes[at + 1] else null
      ensures elem == if at + 1 < |nodes| then Some(nodes[at + 1].data) else None
    {
      cursor := if le == null then head else le.next;
      elem := if cursor == null then None else Some(cursor.data);
    }

    /** The step back from a position, |nodes| for the NULL cursor: the entry in front, unless the back link
        to it is missing. */
    method Prev(le: ListEntry?<T>, ghost at: nat) returns (cursor: ListEntry?<T>, elem: Option<T>)
      requires Walks() && at <= |nodes| && le == if at == |nodes| then null else nodes[at]
      ensures
        var found := at > 0 && (at == |nodes| || backs[at]);
        && cursor == (if found then nodes[at - 1] else null)
        && elem == if found then Some(nodes[at - 1].data) else None
    {
      cursor := if le == null then tail else le.prev;
      elem := if cursor == null then None else Some(cursor.data);
    }

    /** A full traversal head to tail sees the entries in order, once each. */
    method WalkForward() returns (seen: seq<T>)
      requires Walks()
      ensures seen == Datas()
    {
      hide Forward, Backward, DatasOf;
      ghost var d := Datas();
      seen := [];
      var le, elem := Next(null, -1);
      while elem.Some?
        invariant |seen| <= |nodes| && seen == d[..|seen|]
        invariant le == if |seen| < |nodes| then nodes[|seen|] else null
        invariant elem == if |seen| < |nodes| then Some(nodes[|seen|].data) else None
        decreases |nodes| - |seen|
      {
        seen := seen + [elem.value];
        le, elem := Next(le, |seen| - 1);
      }
    }

    /** A full traversal tail to head stops at the first missing back link, so it sees the reverse of the
        entries from there on: all of them exactly when none is missing. */
    method WalkBackward() returns (seen: seq<T>)
      requires Walks()
      ensures seen == Reverse(Datas()[Reach(backs)..])
      ensures |seen| == |nodes| <==> Whole(backs)
    {
      hide Reverse, Reach;
      ghost var d := Datas();
      seen := [];
      ghost var at := |nodes|;
      ReverseNone<T>();
      ReachesHeadIff(backs);
      assert d[at..] == [];
      var le, elem := Prev(null, at);
      while elem.Some?
        invariant Reach(backs) <= at <= |nodes| && seen == Reverse(d[at..]) && |seen| == |nodes| - at
        invariant at == 0 || le == if at > Reach(backs) then nodes[at - 1] else null
        invariant elem == if at > Reach(backs) then Some(nodes[at - 1].data) else None
        decreases at
      {
        at := at - 1;
        ReverseStep(d, at);
        seen := seen + [elem.value];
        le, elem := Prev(le, at);
      }
    }

    /** One round of the collection's destroy loop: the entry behind cursor position `at` has been handed
        to the destroyer and is deleted, and the loop steps on from the entry that followed it. */
    method DestroyRound(le: ListEntry<T>, ghost at: int)
      returns (cursor: ListEntry?<T>, elem: Option<T>, ghost next: int)
      requires Walks() && -1 <= at < |nodes| - 1 && le == nodes[at + 1]
      modifies this, nodes`next, nodes`prev
      ensures Walks() && -1 <= next < |nodes| < |old(nodes)|
      ensures forall i :: 0 <= i < |nodes| ==> nodes[i] in old(nodes)
      ensures cursor == if next + 1 < |nodes| then nodes[next + 1] else null
      ensures elem == if next + 1 < |nodes| then Some(nodes[next + 1].data) else None
      ensures old(DestroyWalk(Datas(), backs, at).left) == DestroyWalk(Datas(), backs, next).left
      ensures old(DestroyWalk(Datas(), backs, at).destroyed) == [le.data] + DestroyWalk(Datas(), backs, next).destroyed
      ensures old(Valid()) ==> Valid()
    {
      hide DestroyWalk, Without, DatasOf, BacksAfter;
      DestroyStep(Datas(), backs, at);
      ghost var was, links := nodes, backs;
      var ok, c := Delete(le, at + 1);
      next := CursorAfter(links, at + 1);
      UnchainedMembers(was, links, at + 1);
      UnchainedAt(was, links, at + 1);
      hide Unchained, Forward, Backward;
      cursor, elem := Next(c, next);
    }

    /** The collection's destroy loop. `destroyed` is what was handed to the destroyer, in order. */
    method DestroyAll() returns (destroyed: seq<T>)
      requires Walks()
      modifies this, nodes`next, nodes`prev
      ensures Walks() && (old(Valid()) ==> Valid())
      ensures
        var o := old(DestroyWalk(Datas(), backs, -1));
        Datas() == o.left && destroyed == o.destroyed
    {
      hide DestroyWalk, DatasOf, Forward, Whole;
      destroyed := [];
      ghost var total := DestroyWalk(Datas(), backs, -1);
      ghost var at := -1;
      var le, elem := Next(null, -1);
      while elem.Some?
        invariant Walks() && (old(Valid()) ==> Valid()) && -1 <= at < |nodes|
        invariant forall i :: 0 <= i < |nodes| ==> nodes[i] in old(nodes)
        invariant le == if at + 1 < |nodes| then nodes[at + 1] else null
        invariant elem == if at + 1 < |nodes| then Some(nodes[at + 1].data) else None
        invariant DestroyWalk(Datas(), backs, at).left == total.left
        invariant destroyed + DestroyWalk(Datas(), backs, at).destroyed == total.destroyed
        decreases |nodes|
      {
        destroyed := destroyed + [elem.value];
        le, elem, at := DestroyRound(le, at);
      }
      DestroyEnd(Datas(), backs, at);
    }
  }
}
