/** Sequences behind a linked list: what taking out an entry leaves when back links are missing, and what a
    loop that asks for the next entry and then deletes it leaves. Deleting already moves the cursor on, so
    each round of that loop passes over one entry. */
module ListWalk {
  import opened BitReversal

  function Without<T>(s: seq<T>, i: nat): (r: seq<T>)
    requires i < |s|
    ensures |r| == |s| - 1
  {
    s[..i] + s[i + 1..]
  }

  function With<T>(s: seq<T>, i: nat, x: T): (r: seq<T>)
    requires i <= |s|
    ensures |r| == |s| + 1
  {
    s[..i] + [x] + s[i..]
  }

  lemma WithoutAt<T>(s: seq<T>, k: nat)
    requires k < |s|
    ensures forall i :: 0 <= i < k ==> Without(s, k)[i] == s[i]
    ensures forall i :: k <= i < |s| - 1 ==> Without(s, k)[i] == s[i + 1]
  {}

  lemma WithAt<T>(s: seq<T>, k: nat, x: T)
    requires k <= |s|
    ensures With(s, k, x)[k] == x
    ensures forall i :: 0 <= i < k ==> With(s, k, x)[i] == s[i]
    ensures forall i :: k < i <= |s| ==> With(s, k, x)[i] == s[i - 1]
  {}

  /** The sequence with one of its elements moved to the front. */
  function ToFront<T>(s: seq<T>, k: nat): (r: seq<T>)
    requires k < |s|
    ensures |r| == |s|
  {
    [s[k]] + Without(s, k)
  }

  /** Where element `i` of the moved sequence was before. */
  function FrontFrom(k: nat, i: nat): nat {
    if i == 0 then k else if i <= k then i - 1 else i
  }

  lemma ToFrontAt<T>(s: seq<T>, k: nat)
    requires k < |s|
    ensures forall i :: 0 <= i < |s| ==> ToFront(s, k)[i] == s[FrontFrom(k, i)]
    ensures forall j :: 0 <= j < |s| ==> s[j] in ToFront(s, k)
  {
    var d := ToFront(s, k);
    WithoutAt(s, k);
    hide Without;
    forall j | 0 <= j < |s| ensures s[j] in d {
      assert d[if j == k then 0 else if j < k then j + 1 else j] == s[j];
    }
  }

  lemma WithoutMultiset<T>(s: seq<T>, i: nat)
    requires i < |s|
    ensures multiset(Without(s, i)) + multiset{s[i]} == multiset(s)
  {
    assert s == s[..i] + [s[i]] + s[i + 1..];
  }

  // ----- Back links: `backs[i]` says whether entry `i` has one

  /** The head has no back link. */
  predicate Headed(backs: seq<bool>) {
    backs != [] ==> !backs[0]
  }

  /** Every entry but the head has one. */
  predicate Whole(backs: seq<bool>) {
    forall i :: 0 < i < |backs| ==> backs[i]
  }

  /** Whether taking out entry `k` takes out that entry alone: it is the head, or it has a back link. */
  predicate Tied(backs: seq<bool>, k: nat)
    requires k < |backs|
  {
    k == 0 || backs[k]
  }

  /** What taking out entry `k` leaves on the walk. An entry without a back link is taken for the head, and
      everything in front of it is lost with it. */
  function Unchained<T>(s: seq<T>, backs: seq<bool>, k: nat): (r: seq<T>)
    requires k < |s| == |backs|
    ensures |r| == if Tied(backs, k) then |s| - 1 else |s| - 1 - k
  {
    if Tied(backs, k) then Without(s, k) else s[k + 1..]
  }

  /** The entry behind inherits the back link of the one taken out. */
  function Relinked(backs: seq<bool>, k: nat): (r: seq<bool>)
    requires k < |backs|
    ensures |r| == |backs|
  {
    if k + 1 < |backs| then backs[k + 1 := backs[k]] else backs
  }

  function BacksAfter(backs: seq<bool>, k: nat): (r: seq<bool>)
    requires k < |backs|
  {
    Unchained(Relinked(backs, k), backs, k)
  }

  lemma UnchainedAt<T>(s: seq<T>, backs: seq<bool>, k: nat)
    requires k < |s| == |backs|
    ensures
      var r := Unchained(s, backs, k);
      && (Tied(backs, k) ==> forall i :: 0 <= i < k ==> r[i] == s[i])
      && (Tied(backs, k) ==> forall i :: k <= i < |r| ==> r[i] == s[i + 1])
      && (!Tied(backs, k) ==> forall i :: 0 <= i < |r| ==> r[i] == s[i + k + 1])
  {
    if Tied(backs, k) {
      WithoutAt(s, k);
    }
  }

  /** Taking out entries makes no new gap. */
  lemma WholeAfter(backs: seq<bool>, k: nat)
    requires k < |backs| && Headed(backs)
    ensures Headed(BacksAfter(backs, k))
    ensures Whole(backs) ==> Tied(backs, k) && Whole(BacksAfter(backs, k))
  {
    UnchainedAt(Relinked(backs, k), backs, k);
  }

  lemma UnchainedMultiset<T>(s: seq<T>, backs: seq<bool>, k: nat)
    requires k < |s| == |backs|
    ensures multiset(Unchained(s, backs, k)) + multiset{s[k]} + multiset(if Tied(backs, k) then [] else s[..k])
         == multiset(s)
  {
    WithoutMultiset(s, k);
    assert s == s[..k] + [s[k]] + s[k + 1..];
  }

  /** The last entry that a walk from the tail along the back links comes to. */
  function Reach(backs: seq<bool>): (first: nat)
    ensures first < |backs| || first == 0 == |backs|
    ensures forall i :: first < i < |backs| ==> backs[i]
    ensures first > 0 ==> !backs[first]
  {
    if |backs| <= 1 then 0
    else if !backs[|backs| - 1] then |backs| - 1
    else
      assert forall i :: 0 <= i < |backs| - 1 ==> backs[..|backs| - 1][i] == backs[i];
      Reach(backs[..|backs| - 1])
  }

  /** The walk from the tail comes to the head exactly when no back link is missing. */
  lemma ReachesHeadIff(backs: seq<bool>)
    ensures Reach(backs) == 0 <==> Whole(backs)
  {
    assert Reach(backs) > 0 ==> !backs[Reach(backs)];
  }

  // ----- The destroy loop

  /** What is left on the walk, what was destroyed, and what was lost on the way. */
  datatype Outcome<T> = Outcome(left: seq<T>, destroyed: seq<T>, lost: seq<T>)

  /** Where the cursor is after the entry behind it was taken out: on the entry that followed, or NULL. */
  function CursorAfter(backs: seq<bool>, next: nat): (at: int)
    requires next < |backs|
    ensures -1 <= at < |BacksAfter(backs, next)|
  {
    if next + 1 == |backs| then -1 else if Tied(backs, next) then next else 0
  }

  /** The loop from cursor position `cursor`, where -1 is the NULL cursor that starts at the head.
      Deleting the last entry leaves the cursor NULL, and the loop begins again. */
  function DestroyWalk<T>(s: seq<T>, backs: seq<bool>, cursor: int): (o: Outcome<T>)
    requires -1 <= cursor < |s| == |backs|
    decreases |s|
  {
    var next := cursor + 1;
    if next == |s| then Outcome(s, [], [])
    else
      var o := DestroyWalk(Unchained(s, backs, next), BacksAfter(backs, next), CursorAfter(backs, next));
      Outcome(o.left, [s[next]] + o.destroyed, (if Tied(backs, next) then [] else s[..next]) + o.lost)
  }

  lemma DestroyStep<T>(s: seq<T>, backs: seq<bool>, cursor: int)
    requires -1 <= cursor < |s| - 1 && |s| == |backs|
    ensures
      var next, w := cursor + 1, DestroyWalk(s, backs, cursor);
      var o := DestroyWalk(Unchained(s, backs, next), BacksAfter(backs, next), CursorAfter(backs, next));
      w.left == o.left && w.destroyed == [s[next]] + o.destroyed
  {}

  lemma DestroyEnd<T>(s: seq<T>, backs: seq<bool>, cursor: int)
    requires -1 <= cursor == |s| - 1 && |s| == |backs|
    ensures DestroyWalk(s, backs, cursor) == Outcome(s, [], [])
  {}

  /** Nothing is destroyed twice, and every entry is destroyed, left or lost. */
  lemma {:induction false} WalkConserves<T>(s: seq<T>, backs: seq<bool>, cursor: int)
    requires -1 <= cursor < |s| == |backs|
    ensures
      var o := DestroyWalk(s, backs, cursor);
      multiset(o.left) + multiset(o.destroyed) + multiset(o.lost) == multiset(s)
    decreases |s|
  {
    var next := cursor + 1;
    if next < |s| {
      UnchainedMultiset(s, backs, next);
      var rest, after, at := Unchained(s, backs, next), BacksAfter(backs, next), CursorAfter(backs, next);
      WalkConserves(rest, after, at);
      ConservesStep(DestroyWalk(rest, after, at), s[next], if Tied(backs, next) then [] else s[..next]);
      hide Unchained, BacksAfter, CursorAfter;
    }
  }

  lemma ConservesStep<T>(o: Outcome<T>, x: T, gone: seq<T>)
    ensures multiset(o.left) + multiset([x] + o.destroyed) + multiset(gone + o.lost)
         == multiset(o.left) + multiset(o.destroyed) + multiset(o.lost) + multiset{x} + multiset(gone)
  {}

  // ----- On a list without gaps

  function WholeWalk<T>(s: seq<T>, cursor: int): (o: Outcome<T>)
    requires -1 <= cursor < |s|
    decreases |s|
  {
    var next := cursor + 1;
    if next == |s| then Outcome(s, [], [])
    else
      var rest := Without(s, next);
      var o := WholeWalk(rest, if next < |rest| then next else -1);
      Outcome(o.left, [s[next]] + o.destroyed, [])
  }

  lemma {:induction false} NothingLost<T>(s: seq<T>, backs: seq<bool>, cursor: int)
    requires -1 <= cursor < |s| == |backs| && Headed(backs) && Whole(backs)
    ensures DestroyWalk(s, backs, cursor) == WholeWalk(s, cursor) && DestroyWalk(s, backs, cursor).lost == []
    decreases |s|
  {
    var next := cursor + 1;
    if next < |s| {
      WholeAfter(backs, next);
      NothingLost(Unchained(s, backs, next), BacksAfter(backs, next), CursorAfter(backs, next));
      hide Whole, Headed;
    }
  }

  /** Every second entry, the first one dropped. */
  function Odds<T>(s: seq<T>): seq<T> {
    if |s| < 2 then [] else [s[1]] + Odds(s[2..])
  }

  /** The list with every second entry behind position `next` dropped, starting with `next` itself. */
  function Kept<T>(s: seq<T>, next: nat): seq<T>
    requires next <= |s|
  {
    s[..next] + Odds(s[next..])
  }

  lemma KeptStep<T>(s: seq<T>, next: nat)
    requires next + 1 < |s|
    ensures Kept(Without(s, next), next + 1) == Kept(s, next)
  {
    var rest := Without(s, next);
    assert rest[next + 1..] == s[next..][2..];
    assert rest[..next + 1] == s[..next] + [s[next..][1]];
  }

  lemma KeptEnd<T>(s: seq<T>, next: nat)
    requires next < |s| <= next + 1
    ensures Kept(s, next) == Without(s, next)
  {}

  /** One pass drops the entries at even distance from the cursor. It is the last pass when it began
      before an even number of entries. */
  lemma {:induction false} OnePass<T>(s: seq<T>, cursor: int)
    requires -1 <= cursor < |s|
    ensures
      var kept := Kept(s, cursor + 1);
      WholeWalk(s, cursor).left ==
        if (|s| - 1 - cursor) % 2 == 0 then kept else WholeWalk(kept, -1).left
    decreases |s|
  {
    var next := cursor + 1;
    if next == |s| {
      assert Kept(s, next) == s;
    } else if next + 1 == |s| {
      KeptEnd(s, next);
    } else {
      KeptStep(s, next);
      hide Kept, Odds;
      OnePass(Without(s, next), next);
    }
  }

  /** How many of `n` entries the loop leaves behind. */
  function Remaining(n: nat): nat {
    if n % 2 == 0 then n / 2 else Remaining(n / 2)
  }

  lemma {:induction false} OddsLength<T>(s: seq<T>)
    ensures |Odds(s)| == |s| / 2
  {
    if |s| >= 2 {
      OddsLength(s[2..]);
    }
  }

  lemma {:induction false} PassesLeave<T>(s: seq<T>)
    ensures |WholeWalk(s, -1).left| == Remaining(|s|)
    decreases |s|
  {
    OnePass(s, -1);
    assert Kept(s, 0) == Odds(s) by { assert s[0..] == s; }
    OddsLength(s);
    if |s| % 2 == 1 {
      PassesLeave(Odds(s));
    }
  }

  /** On a list without gaps the loop loses nothing, and leaves a number of entries that depends on the
      length alone. */
  lemma WalkLeaves<T>(s: seq<T>, backs: seq<bool>)
    requires |s| == |backs| && Headed(backs) && Whole(backs)
    ensures |DestroyWalk(s, backs, -1).left| == Remaining(|s|) && DestroyWalk(s, backs, -1).lost == []
  {
    NothingLost(s, backs, -1);
    PassesLeave(s);
  }

  /** The loop empties such a list exactly when one more than its length is a power of two. */
  lemma WalkEmptiesIff<T>(s: seq<T>, backs: seq<bool>)
    requires |s| == |backs| && Headed(backs) && Whole(backs)
    ensures DestroyWalk(s, backs, -1).left == [] <==> exists k: nat :: |s| + 1 == Pow2(k)
  {
    WalkLeaves(s, backs);
    RemainingZeroIff(|s|);
  }

  lemma {:induction false} RemainingZeroIff(n: nat)
    ensures Remaining(n) == 0 <==> exists k: nat :: n + 1 == Pow2(k)
  {
    if n == 0 {
      assert n + 1 == Pow2(0);
    } else {
      RemainingZeroIff(n / 2);
      if exists k: nat :: n / 2 + 1 == Pow2(k) {
        var k: nat :| n / 2 + 1 == Pow2(k);
        assert n % 2 == 1 ==> n + 1 == Pow2(k + 1);
      }
      if exists k: nat :: n + 1 == Pow2(k) {
        var k: nat :| n + 1 == Pow2(k);
        assert n / 2 + 1 == Pow2(k - 1);
      }
    }
  }
}
