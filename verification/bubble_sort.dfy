/** `sort` of `js/utils.js`, over any comparison that is a strict weak order. */
module BubbleSort {
  ghost predicate StrictWeakOrder<T(!new)>(gt: (T, T) -> bool) {
    && (forall x, y :: gt(x, y) ==> !gt(y, x))
    && (forall x, y, z :: gt(x, y) && gt(y, z) ==> gt(x, z))
    && (forall x, y, z :: !gt(x, y) && !gt(y, z) ==> !gt(x, z))
  }

  predicate Sorted<T>(s: seq<T>, gt: (T, T) -> bool) {
    forall i, j :: 0 <= i < j < |s| ==> !gt(s[i], s[j])
  }

  /** Comparing by a key is such an order; elements with equal keys are not greater either way. */
  lemma ByKey<T(!new)>(key: T -> int)
    ensures StrictWeakOrder((x: T, y: T) => key(x) > key(y))
  {
  }

  // ---------------------------------------------------------------- the reference: stable insertion

  /** In front of the first element that `x` is not greater than. */
  function Insert<T>(x: T, s: seq<T>, gt: (T, T) -> bool): seq<T> {
    if |s| == 0 || !gt(x, s[0]) then [x] + s else [s[0]] + Insert(x, s[1..], gt)
  }

  function StableSort<T>(s: seq<T>, gt: (T, T) -> bool): seq<T> {
    if |s| == 0 then [] else Insert(s[0], StableSort(s[1..], gt), gt)
  }

  /** How many pairs are in the wrong order. */
  function Inversions<T>(s: seq<T>, gt: (T, T) -> bool): nat {
    if |s| == 0 then 0 else Below(s[0], s[1..], gt) + Inversions(s[1..], gt)
  }

  function Below<T>(x: T, s: seq<T>, gt: (T, T) -> bool): nat {
    if |s| == 0 then 0 else (if gt(x, s[0]) then 1 else 0) + Below(x, s[1..], gt)
  }

  /** The elements that compare equal to `k`, in their order. */
  function Class<T>(s: seq<T>, k: T, gt: (T, T) -> bool): seq<T> {
    if |s| == 0 then []
    else (if gt(s[0], k) || gt(k, s[0]) then [] else [s[0]]) + Class(s[1..], k, gt)
  }

  // ---------------------------------------------------------------- one swap

  lemma {:induction false} InsertCommutes<T(!new)>(x: T, y: T, s: seq<T>, gt: (T, T) -> bool)
    requires StrictWeakOrder(gt) && gt(x, y)
    ensures Insert(x, Insert(y, s, gt), gt) == Insert(y, Insert(x, s, gt), gt)
  {
    if |s| > 0 && gt(y, s[0]) {
      InsertCommutes(x, y, s[1..], gt);
    }
  }

  /** `s` with the elements at `j` and `j + 1` exchanged. */
  function Swapped<T>(s: seq<T>, j: nat): seq<T>
    requires j + 1 < |s|
  {
    s[j := s[j + 1]][j + 1 := s[j]]
  }

  lemma SwappedTail<T>(s: seq<T>, j: nat)
    requires j + 1 < |s|
    ensures j > 0 ==> Swapped(s, j)[0] == s[0] && Swapped(s, j)[1..] == Swapped(s[1..], j - 1)
    ensures j == 0 ==> Swapped(s, j) == [s[1], s[0]] + s[2..] && s == [s[0], s[1]] + s[2..]
  {
  }

  lemma PairTail<T>(x: T, y: T, rest: seq<T>)
    ensures ([x, y] + rest)[1..] == [y] + rest && ([y] + rest)[1..] == rest
  {
  }

  /** Exchanging two neighbours in the wrong order does not change what the reference makes of the list. */
  lemma {:induction false} SwapKeepsReference<T(!new)>(s: seq<T>, j: nat, gt: (T, T) -> bool)
    requires StrictWeakOrder(gt) && j + 1 < |s| && gt(s[j], s[j + 1])
    ensures StableSort(Swapped(s, j), gt) == StableSort(s, gt)
  {
    hide Insert, StrictWeakOrder;
    SwappedTail(s, j);
    if j > 0 {
      SwapKeepsReference(s[1..], j - 1, gt);
    } else {
      var x, y, rest := s[0], s[1], s[2..];
      PairTail(x, y, rest);
      PairTail(y, x, rest);
      InsertCommutes(x, y, StableSort(rest, gt), gt);
    }
  }

  lemma {:induction false} SwapKeepsBelow<T>(x: T, s: seq<T>, j: nat, gt: (T, T) -> bool)
    requires j + 1 < |s|
    ensures Below(x, Swapped(s, j), gt) == Below(x, s, gt)
  {
    SwappedTail(s, j);
    if j > 0 {
      SwapKeepsBelow(x, s[1..], j - 1, gt);
    } else {
      PairTail(s[0], s[1], s[2..]);
      PairTail(s[1], s[0], s[2..]);
    }
  }

  /** It removes exactly one inversion. */
  lemma {:induction false} SwapRemovesOne<T(!new)>(s: seq<T>, j: nat, gt: (T, T) -> bool)
    requires StrictWeakOrder(gt) && j + 1 < |s| && gt(s[j], s[j + 1])
    ensures Inversions(s, gt) == Inversions(Swapped(s, j), gt) + 1
  {
    SwappedTail(s, j);
    if j > 0 {
      SwapRemovesOne(s[1..], j - 1, gt);
      SwapKeepsBelow(s[0], s[1..], j - 1, gt);
    } else {
      PairTail(s[0], s[1], s[2..]);
      PairTail(s[1], s[0], s[2..]);
    }
  }

  lemma {:induction false} SortedFixed<T>(s: seq<T>, gt: (T, T) -> bool)
    requires Sorted(s, gt)
    ensures StableSort(s, gt) == s && Inversions(s, gt) == 0
  {
    if |s| == 0 {
    } else {
      SortedFixed(s[1..], gt);
      NoneBelow(s[0], s[1..], gt);
    }
  }

  lemma {:induction false} NoneBelow<T>(x: T, s: seq<T>, gt: (T, T) -> bool)
    requires forall k :: 0 <= k < |s| ==> !gt(x, s[k])
    ensures Below(x, s, gt) == 0
  {
    if |s| == 0 {
    } else {
      NoneBelow(x, s[1..], gt);
    }
  }

  // ---------------------------------------------------------------- the loop

  /** Nothing before a position from `k` on is greater than what stands there. */
  predicate Settled<T>(s: seq<T>, k: int, gt: (T, T) -> bool) {
    forall p, q :: 0 <= p < q < |s| && k <= q ==> !gt(s[p], s[q])
  }

  /** The element at `j` is the greatest up to there. */
  predicate Greatest<T>(s: seq<T>, j: nat, gt: (T, T) -> bool)
    requires j < |s|
  {
    forall p :: 0 <= p < j ==> !gt(s[p], s[j])
  }

  lemma SwapSettles<T(!new)>(s: seq<T>, j: nat, k: int, gt: (T, T) -> bool)
    requires StrictWeakOrder(gt) && j + 1 < |s| && gt(s[j], s[j + 1])
    requires j + 1 < k && Settled(s, k, gt) && Greatest(s, j, gt)
    ensures Settled(Swapped(s, j), k, gt) && Greatest(Swapped(s, j), j + 1, gt)
  {
  }

  lemma KeepSettles<T(!new)>(s: seq<T>, j: nat, gt: (T, T) -> bool)
    requires StrictWeakOrder(gt) && j + 1 < |s| && !gt(s[j], s[j + 1]) && Greatest(s, j, gt)
    ensures Greatest(s, j + 1, gt)
  {
  }

  /** The array ends as the reference says, after one swap for each inversion it started with. */
  method Sort<T(!new)>(a: array<T>, gt: (T, T) -> bool) returns (ghost swaps: nat)
    requires StrictWeakOrder(gt)
    modifies a
    ensures a[..] == StableSort(old(a[..]), gt)
    ensures swaps == Inversions(old(a[..]), gt)
  {
    hide StrictWeakOrder, StableSort, Inversions, Greatest;
    swaps := 0;
    var i := 0;
    while i < a.Length - 1
      invariant 0 <= i && (i <= a.Length - 1 || a.Length == 0)
      invariant Settled(a[..], a.Length - i, gt)
      invariant StableSort(a[..], gt) == StableSort(old(a[..]), gt)
      invariant Inversions(a[..], gt) + swaps == Inversions(old(a[..]), gt)
    {
      var j := 0;
      GreatestOfOne(a[..], gt);
      while j < a.Length - 1 - i
        invariant 0 <= j <= a.Length - 1 - i
        invariant Settled(a[..], a.Length - i, gt) && Greatest(a[..], j, gt)
        invariant StableSort(a[..], gt) == StableSort(old(a[..]), gt)
        invariant Inversions(a[..], gt) + swaps == Inversions(old(a[..]), gt)
      {
        ghost var s := a[..];
        if gt(a[j], a[j + 1]) {
          SwapSettles(s, j, a.Length - i, gt);
          SwapKeepsReference(s, j, gt);
          SwapRemovesOne(s, j, gt);
          var tmp := a[j];
          a[j] := a[j + 1];
          a[j + 1] := tmp;
          swaps := swaps + 1;
          assert a[..] == Swapped(s, j);
        } else {
          KeepSettles(s, j, gt);
        }
        j := j + 1;
      }
      NextSettled(a[..], j, gt);
      i := i + 1;
    }
    AllSettled(a[..], a.Length - i, gt);
    SortedFixed(a[..], gt);
  }

  lemma GreatestOfOne<T>(s: seq<T>, gt: (T, T) -> bool)
    requires |s| > 0
    ensures Greatest(s, 0, gt)
  {
  }

  lemma NextSettled<T>(s: seq<T>, j: nat, gt: (T, T) -> bool)
    requires j < |s| && Settled(s, j + 1, gt) && Greatest(s, j, gt)
    ensures Settled(s, j, gt)
  {
  }

  lemma AllSettled<T>(s: seq<T>, k: int, gt: (T, T) -> bool)
    requires Settled(s, k, gt) && k <= 1
    ensures Sorted(s, gt)
  {
  }

  // ---------------------------------------------------------------- what the reference is

  lemma SortedCons<T(!new)>(h: T, t: seq<T>, gt: (T, T) -> bool)
    requires Sorted(t, gt) && forall y :: y in t ==> !gt(h, y)
    ensures Sorted([h] + t, gt)
  {
    var s := [h] + t;
    forall i, j | 0 <= i < j < |s| ensures !gt(s[i], s[j]) {
      assert s[j] == t[j - 1];
      if i > 0 {
        assert s[i] == t[i - 1];
      }
    }
  }

  lemma {:induction false} InsertSorted<T(!new)>(x: T, s: seq<T>, gt: (T, T) -> bool)
    requires StrictWeakOrder(gt) && Sorted(s, gt)
    ensures Sorted(Insert(x, s, gt), gt)
    ensures forall y :: y in Insert(x, s, gt) ==> y == x || y in s
  {
    if |s| == 0 || !gt(x, s[0]) {
      forall y | y in s ensures !gt(x, y) {
        var i :| 0 <= i < |s| && s[i] == y;
        assert !gt(s[0], s[i]);
      }
      SortedCons(x, s, gt);
    } else {
      InsertSorted(x, s[1..], gt);
      assert !gt(s[0], x);
      forall y | y in Insert(x, s[1..], gt) ensures !gt(s[0], y) {
        if y != x {
          var i :| 0 <= i < |s[1..]| && s[1..][i] == y;
          assert !gt(s[0], s[i + 1]);
        }
      }
      SortedCons(s[0], Insert(x, s[1..], gt), gt);
    }
  }

  lemma {:induction false} InsertClass<T(!new)>(x: T, s: seq<T>, k: T, gt: (T, T) -> bool)
    requires StrictWeakOrder(gt)
    ensures Class(Insert(x, s, gt), k, gt) == Class([x] + s, k, gt)
  {
    if |s| > 0 && gt(x, s[0]) {
      InsertClass(x, s[1..], k, gt);
      PairTail(x, s[0], s[1..]);
      assert [x] + s == [x, s[0]] + s[1..];
      assert ([x] + s[1..])[1..] == s[1..];
    }
  }

  lemma {:induction false} InsertPermutes<T>(x: T, s: seq<T>, gt: (T, T) -> bool)
    ensures multiset(Insert(x, s, gt)) == multiset(s) + multiset{x}
  {
    if |s| > 0 && gt(x, s[0]) {
      InsertPermutes(x, s[1..], gt);
      assert s == [s[0]] + s[1..];
    }
  }

  lemma StableSortCons<T(!new)>(s: seq<T>, rest: seq<T>, k: T, gt: (T, T) -> bool)
    requires StrictWeakOrder(gt) && s != [] && rest == StableSort(s[1..], gt)
    requires Class(rest, k, gt) == Class(s[1..], k, gt)
    ensures Class(StableSort(s, gt), k, gt) == Class(s, k, gt)
  {
    InsertClass(s[0], rest, k, gt);
    hide StrictWeakOrder, Insert;
    assert ([s[0]] + rest)[1..] == rest;
  }

  lemma StableSortPermutes<T>(s: seq<T>, rest: seq<T>, gt: (T, T) -> bool)
    requires s != [] && rest == StableSort(s[1..], gt) && multiset(rest) == multiset(s[1..])
    ensures multiset(StableSort(s, gt)) == multiset(s)
  {
    InsertPermutes(s[0], rest, gt);
    assert s == [s[0]] + s[1..];
  }

  /** Sorted, a permutation, and elements that compare equal keep their order. */
  lemma {:induction false} StableSortIs<T(!new)>(s: seq<T>, gt: (T, T) -> bool)
    requires StrictWeakOrder(gt)
    ensures var r := StableSort(s, gt);
      Sorted(r, gt) && multiset(r) == multiset(s) && forall k :: Class(r, k, gt) == Class(s, k, gt)
  {
    if s == [] {
    } else {
      hide StrictWeakOrder, Insert, Class;
      var rest := StableSort(s[1..], gt);
      StableSortIs(s[1..], gt);
      InsertSorted(s[0], rest, gt);
      StableSortPermutes(s, rest, gt);
      forall k ensures Class(StableSort(s, gt), k, gt) == Class(s, k, gt) {
        StableSortCons(s, rest, k, gt);
      }
    }
  }

  lemma {:induction false} ClassMember<T(!new)>(s: seq<T>, i: nat, gt: (T, T) -> bool)
    requires StrictWeakOrder(gt) && i < |s|
    ensures Class(s, s[i], gt) != []
  {
    if i == 0 {
    } else {
      ClassMember(s[1..], i - 1, gt);
    }
  }

  /** If some element compares equal to `k`, the first element does not exceed `k` in a sorted list. */
  lemma {:induction false} FirstNotAbove<T(!new)>(s: seq<T>, k: T, gt: (T, T) -> bool)
    requires StrictWeakOrder(gt) && Sorted(s, gt) && Class(s, k, gt) != []
    ensures |s| > 0 && !gt(s[0], k)
  {
    if gt(s[0], k) || gt(k, s[0]) {
      FirstNotAbove(s[1..], k, gt);
      assert !gt(s[0], s[1]);
    }
  }

  lemma SameRest<T>(a: seq<T>, b: seq<T>, c: seq<T>)
    requires a + b == a + c
    ensures b == c
  {
    assert b == (a + b)[|a|..] && c == (a + c)[|a|..];
  }

  /** These properties determine the list: there is one stable sorted order. */
  lemma {:induction false} StableSortUnique<T(!new)>(p: seq<T>, q: seq<T>, gt: (T, T) -> bool)
    requires StrictWeakOrder(gt) && Sorted(p, gt) && Sorted(q, gt)
    requires forall k :: Class(p, k, gt) == Class(q, k, gt)
    ensures p == q
    decreases |p| + |q|
  {
    if |p| > 0 || |q| > 0 {
      if |p| > 0 { ClassMember(p, 0, gt); FirstNotAbove(q, p[0], gt); }
      if |q| > 0 { ClassMember(q, 0, gt); FirstNotAbove(p, q[0], gt); }
      var k := p[0];
      assert Class(p, k, gt)[0] == p[0] && Class(q, k, gt)[0] == q[0];
      forall k ensures Class(p[1..], k, gt) == Class(q[1..], k, gt) {
        var same := if gt(p[0], k) || gt(k, p[0]) then [] else [p[0]];
        assert Class(p, k, gt) == same + Class(p[1..], k, gt);
        assert Class(q, k, gt) == same + Class(q[1..], k, gt);
        SameRest(same, Class(p[1..], k, gt), Class(q[1..], k, gt));
      }
      StableSortUnique(p[1..], q[1..], gt);
    }
  }
}
