/**
  Dice of the battle engine: faces, the non-increasing order both sides'
  rolls are put in before they are compared, a reference sort, and the
  in-place bubble sort `ordenarDados` of war.c.
 */
module Dice {

  /** A face of a six-sided die, as produced by `rand() % 6 + 1`. */
  predicate IsFace(v: int) {
    1 <= v <= 6
  }

  predicate AllFaces(s: seq<int>) {
    forall i :: 0 <= i < |s| ==> IsFace(s[i])
  }

  /** Highest die first: no later die is higher than an earlier one. */
  predicate SortedDesc(s: seq<int>) {
    forall i, j :: 0 <= i < j < |s| ==> s[i] >= s[j]
  }

  /** Puts `x` in front of the first die of `s` that is not higher than it. */
  function Insert(x: int, s: seq<int>): (r: seq<int>)
    ensures |r| == |s| + 1
  {
    if |s| == 0 || x >= s[0] then [x] + s
    else [s[0]] + Insert(x, s[1..])
  }

  /** Inserting adds exactly one copy of the new die. */
  lemma {:induction false} InsertAddsDie(x: int, s: seq<int>)
    ensures multiset(Insert(x, s)) == multiset(s) + multiset{x}
  {
    if |s| > 0 && x < s[0] {
      InsertAddsDie(x, s[1..]);
      MultisetTail(s);
    }
  }

  /**
    Inserting into a non-increasing roll keeps it non-increasing and leaves
    in front either the new die or the die that was in front before.
   */
  lemma {:induction false} InsertKeepsOrder(x: int, s: seq<int>)
    requires SortedDesc(s)
    ensures SortedDesc(Insert(x, s))
    ensures Insert(x, s)[0] == x || (|s| > 0 && Insert(x, s)[0] == s[0])
  {
    if |s| == 0 || x >= s[0] {
      ConsSorted(x, s);
    } else {
      SortedTail(s);
      InsertKeepsOrder(x, s[1..]);
      ConsSorted(s[0], Insert(x, s[1..]));
    }
  }

  /** A die no lower than the first of a non-increasing roll can go in front of it. */
  lemma ConsSorted(x: int, s: seq<int>)
    requires SortedDesc(s)
    requires |s| == 0 || x >= s[0]
    ensures SortedDesc([x] + s)
  {
  }

  /** Reference definition of the order the engine compares dice in: insertion sort. */
  function SortDesc(s: seq<int>): (r: seq<int>)
    ensures |r| == |s|
  {
    if |s| == 0 then []
    else Insert(s[0], SortDesc(s[1..]))
  }

  /** The reference sort puts a roll highest-first without adding or losing a die. */
  lemma {:induction false} SortDescSortsRoll(s: seq<int>)
    ensures SortedDesc(SortDesc(s))
    ensures multiset(SortDesc(s)) == multiset(s)
  {
    if |s| > 0 {
      SortDescSortsRoll(s[1..]);
      InsertKeepsOrder(s[0], SortDesc(s[1..]));
      InsertAddsDie(s[0], SortDesc(s[1..]));
      MultisetTail(s);
    }
  }

  /** The first die of a non-increasing roll is at least as high as any die in it. */
  lemma HeadIsMax(s: seq<int>, v: int)
    requires SortedDesc(s)
    requires v in multiset(s)
    ensures |s| > 0 && s[0] >= v
  {
    var j :| 0 <= j < |s| && s[j] == v;
  }

  /** Two arrangements of one roll, both non-increasing, start with the same die. */
  lemma HeadsAgree(a: seq<int>, b: seq<int>)
    requires SortedDesc(a) && SortedDesc(b)
    requires multiset(a) == multiset(b)
    requires |a| > 0
    ensures |b| > 0 && a[0] == b[0]
  {
    assert a[0] in multiset(b);
    HeadIsMax(b, a[0]);
    assert b[0] in multiset(a);
    HeadIsMax(a, b[0]);
  }

  /** Two rolls with the same faces and the same first die have the same faces after it. */
  lemma TailsAgree(a: seq<int>, b: seq<int>)
    requires |a| > 0 && |b| > 0 && a[0] == b[0]
    requires multiset(a) == multiset(b)
    ensures multiset(a[1..]) == multiset(b[1..])
  {
    assert a == [a[0]] + a[1..];
    assert b == [b[0]] + b[1..];
    assert multiset(a[1..]) == multiset(a) - multiset{a[0]};
    assert multiset(b[1..]) == multiset(b) - multiset{b[0]};
  }

  /** Removing the first die of a roll removes one copy of its face. */
  lemma MultisetTail(s: seq<int>)
    requires |s| > 0
    ensures multiset(s) == multiset(s[1..]) + multiset{s[0]}
  {
    assert s == [s[0]] + s[1..];
  }

  /** What follows the first die of a non-increasing roll is non-increasing. */
  lemma SortedTail(s: seq<int>)
    requires SortedDesc(s) && |s| > 0
    ensures SortedDesc(s[1..])
  {
  }

  /** A roll has exactly one non-increasing arrangement. */
  lemma {:induction false} SortedDescUnique(a: seq<int>, b: seq<int>)
    requires SortedDesc(a) && SortedDesc(b)
    requires multiset(a) == multiset(b)
    ensures a == b
  {
    if |a| == 0 {
      assert |b| == |multiset(b)| == 0;
    } else {
      HeadsAgree(a, b);
      TailsAgree(a, b);
      SortedTail(a);
      SortedTail(b);
      SortedDescUnique(a[1..], b[1..]);
      assert a == [a[0]] + a[1..] && b == [b[0]] + b[1..];
    }
  }

  /** Sorting a roll that is already highest-first leaves it as it is. */
  lemma SortedIsFixed(s: seq<int>)
    requires SortedDesc(s)
    ensures SortDesc(s) == s
  {
    SortDescSortsRoll(s);
    SortedDescUnique(SortDesc(s), s);
  }

  /** Arranging a roll depends only on which faces came up, not on their order. */
  lemma SortDescIgnoresOrder(a: seq<int>, b: seq<int>)
    requires multiset(a) == multiset(b)
    ensures SortDesc(a) == SortDesc(b)
  {
    SortDescSortsRoll(a);
    SortDescSortsRoll(b);
    SortedDescUnique(SortDesc(a), SortDesc(b));
  }

  /**
    The bubble sort's outer invariant: the dice from position `k` on are in
    their final places, non-increasing and no higher than any die before `k`.
   */
  predicate SettledFrom(s: seq<int>, k: int) {
    && 0 <= k <= |s|
    && (forall p, q :: k <= p < q < |s| ==> s[p] >= s[q])
    && (forall p, q :: 0 <= p < k <= q < |s| ==> s[p] >= s[q])
  }

  /** One step of the inner loop: swap `s[j]` and `s[j + 1]` when they are in ascending order. */
  function BubbleStep(s: seq<int>, j: int): seq<int>
    requires 0 <= j < |s| - 1
  {
    if s[j] < s[j + 1] then s[j := s[j + 1]][j + 1 := s[j]] else s
  }

  /**
    The inner loop's invariant, `j` steps into a pass over the prefix of
    length `m` that started from `before`: `s[j]` is the lowest die so far,
    the dice from `m` on are untouched and no higher than any die before `m`.
   */
  predicate PassState(s: seq<int>, before: seq<int>, j: int, m: int) {
    && 0 <= j < m <= |s| == |before|
    && multiset(s) == multiset(before)
    && (forall p :: 0 <= p <= j ==> s[p] >= s[j])
    && s[m..] == before[m..]
    && (forall p, q :: 0 <= p < m <= q < |s| ==> s[p] >= s[q])
  }

  lemma PassStep(s: seq<int>, before: seq<int>, j: int, m: int)
    requires PassState(s, before, j, m) && j < m - 1
    ensures PassState(BubbleStep(s, j), before, j + 1, m)
  {
    var t := BubbleStep(s, j);
    if s[j] < s[j + 1] {
      assert multiset(t) == multiset(s) by {
        assert t == s[j := s[j + 1]][j + 1 := s[j]];
      }
    }
    assert t[m..] == s[m..];
  }

  lemma PassDone(s: seq<int>, before: seq<int>, m: int)
    requires PassState(s, before, m - 1, m)
    requires SettledFrom(before, m)
    ensures SettledFrom(s, m - 1)
  {
    forall p, q | m <= p < q < |s|
      ensures s[p] >= s[q]
    {
      assert s[p] == s[m..][p - m] == before[m..][p - m] == before[p];
      assert s[q] == s[m..][q - m] == before[m..][q - m] == before[q];
    }
  }

  /**
    One pass of the inner loop of `ordenarDados` over the unsorted prefix
    `a[..m]`: neighbours in ascending order are swapped, which carries the
    lowest die of the prefix to position `m - 1` and settles it.
   */
  method BubblePass(a: array<int>, m: int)
    requires 1 <= m <= a.Length
    requires SettledFrom(a[..], m)
    modifies a
    ensures multiset(a[..]) == multiset(old(a[..]))
    ensures SettledFrom(a[..], m - 1)
  {
    ghost var before := a[..];
    var j := 0;
    while j < m - 1
      invariant 0 <= j <= m - 1
      invariant PassState(a[..], before, j, m)
    {
      ghost var s := a[..];
      if a[j] < a[j + 1] {
        a[j], a[j + 1] := a[j + 1], a[j];
      }
      assert a[..] == BubbleStep(s, j);
      PassStep(s, before, j, m);
      j := j + 1;
    }
    PassDone(a[..], before, m);
  }

  /**
    The bubble sort of `ordenarDados`: pass `i` carries the lowest die of
    the unsorted prefix to its end. The dice are copied into a fresh array
    first, so the caller's roll is returned sorted rather than changed in
    place.
   */
  method OrderDice(dice: seq<int>) returns (sorted: seq<int>)
    ensures SortedDesc(sorted)
    ensures multiset(sorted) == multiset(dice)
    ensures sorted == SortDesc(dice)
  {
    var a := new int[|dice|];
    forall k | 0 <= k < |dice| {
      a[k] := dice[k];
    }
    assert a[..] == dice;
    var n := a.Length;
    var i := 0;
    while i < n - 1
      invariant 0 <= i <= n && (n == 0 || i <= n - 1)
      invariant multiset(a[..]) == multiset(dice)
      invariant SettledFrom(a[..], n - i)
    {
      BubblePass(a, n - i);
      i := i + 1;
    }
    sorted := a[..];
    assert n == 0 || SettledFrom(sorted, 1);
    SortDescSortsRoll(dice);
    SortedDescUnique(sorted, SortDesc(dice));
  }
}
