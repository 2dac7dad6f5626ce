/** The order that sort_list gives a list of keyed items. */
module Sorting {
  import opened CStrings

  datatype Keyed<T> = Keyed(key: string, item: T)

  /** Consecutive keys strictly ascend: the test that leaves a list alone. */
  predicate Ascending<T>(xs: seq<Keyed<T>>, caseSensitive: bool) {
    forall i :: 0 <= i < |xs| - 1 ==> Before(xs[i].key, xs[i + 1].key, caseSensitive)
  }

  function Merge<T>(first: seq<Keyed<T>>, second: seq<Keyed<T>>, caseSensitive: bool): (r: seq<Keyed<T>>)
    ensures |r| == |first| + |second|
  {
    if first == [] then second
    else if second == [] then first
    else if Before(first[0].key, second[0].key, caseSensitive) then
      [first[0]] + Merge(first[1..], second, caseSensitive)
    else
      [second[0]] + Merge(first, second[1..], caseSensitive)
  }

  function Sort<T>(xs: seq<Keyed<T>>, caseSensitive: bool): (r: seq<Keyed<T>>)
    ensures |r| == |xs|
    decreases |xs|
  {
    if |xs| <= 1 || Ascending(xs, caseSensitive) then xs
    else
      var middle := (|xs| + 1) / 2;
      Merge(Sort(xs[..middle], caseSensitive), Sort(xs[middle..], caseSensitive), caseSensitive)
  }

  /** No later key is strictly before an earlier one. */
  predicate Sorted<T>(xs: seq<Keyed<T>>, caseSensitive: bool) {
    forall i, j :: 0 <= i < j < |xs| ==> !Before(xs[j].key, xs[i].key, caseSensitive)
  }

  predicate Distinct<T>(xs: seq<Keyed<T>>, caseSensitive: bool) {
    forall i, j :: 0 <= i < j < |xs| ==> Norm(xs[i].key, caseSensitive) != Norm(xs[j].key, caseSensitive)
  }

  predicate StrictlySorted<T>(xs: seq<Keyed<T>>, caseSensitive: bool) {
    forall i, j :: 0 <= i < j < |xs| ==> Before(xs[i].key, xs[j].key, caseSensitive)
  }

  ghost predicate SameItems<T>(xs: seq<Keyed<T>>, ys: seq<Keyed<T>>) {
    multiset(xs) == multiset(ys)
  }

  lemma NotBeforeTransitive(a: string, b: string, c: string, caseSensitive: bool)
    requires !Before(b, a, caseSensitive) && !Before(c, b, caseSensitive)
    ensures !Before(c, a, caseSensitive)
  {
    var x, y, z := Norm(a, caseSensitive), Norm(b, caseSensitive), Norm(c, caseSensitive);
    StrCmpAntisymmetric(x, y);
    StrCmpAntisymmetric(y, z);
    StrCmpAntisymmetric(x, z);
    StrCmpTransitive(x, y, z);
  }

  lemma BeforeAsymmetric(a: string, b: string, caseSensitive: bool)
    ensures !(Before(a, b, caseSensitive) && Before(b, a, caseSensitive))
    ensures !Before(a, b, caseSensitive) && !Before(b, a, caseSensitive)
            <==> Norm(a, caseSensitive) == Norm(b, caseSensitive)
  {
    StrCmpAntisymmetric(Norm(a, caseSensitive), Norm(b, caseSensitive));
    StrCmpZero(Norm(a, caseSensitive), Norm(b, caseSensitive));
  }

  lemma {:induction false} MergeItems<T>(first: seq<Keyed<T>>, second: seq<Keyed<T>>, caseSensitive: bool)
    ensures multiset(Merge(first, second, caseSensitive)) == multiset(first) + multiset(second)
  {
    if first != [] && second != [] {
      assert first == [first[0]] + first[1..];
      assert second == [second[0]] + second[1..];
      if Before(first[0].key, second[0].key, caseSensitive) {
        MergeItems(first[1..], second, caseSensitive);
      } else {
        MergeItems(first, second[1..], caseSensitive);
      }
    }
  }

  lemma MergeKeeps<T>(first: seq<Keyed<T>>, second: seq<Keyed<T>>, caseSensitive: bool)
    ensures SameItems(Merge(first, second, caseSensitive), first + second)
  {
    MergeItems(first, second, caseSensitive);
  }

  lemma InEither<T>(x: Keyed<T>, r: seq<Keyed<T>>, xs: seq<Keyed<T>>, ys: seq<Keyed<T>>)
    requires SameItems(r, xs + ys) && x in r
    ensures x in xs || x in ys
  {
    assert x in multiset(r);
    assert x in xs + ys;
  }

  lemma {:induction false} MergeSorts<T>(first: seq<Keyed<T>>, second: seq<Keyed<T>>, caseSensitive: bool)
    requires Sorted(first, caseSensitive) && Sorted(second, caseSensitive)
    ensures Sorted(Merge(first, second, caseSensitive), caseSensitive)
  {
    if first != [] && second != [] {
      var head, xs, ys;
      if Before(first[0].key, second[0].key, caseSensitive) {
        head, xs, ys := first[0], first[1..], second;
      } else {
        head, xs, ys := second[0], first, second[1..];
      }
      MergeSorts(xs, ys, caseSensitive);
      MergeKeeps(xs, ys, caseSensitive);
      var rest := Merge(xs, ys, caseSensitive);
      BeforeAsymmetric(first[0].key, second[0].key, caseSensitive);
      BeforeAsymmetric(head.key, head.key, caseSensitive);
      forall x | x in rest
        ensures !Before(x.key, head.key, caseSensitive)
      {
        InEither(x, rest, xs, ys);
        var list := if x in xs then first else second;
        HeadNotAfter(list, x, caseSensitive);
        NotBeforeTransitive(head.key, list[0].key, x.key, caseSensitive);
      }
      ConsSorted(head, rest, caseSensitive);
    }
  }

  lemma ConsSorted<T>(head: Keyed<T>, rest: seq<Keyed<T>>, caseSensitive: bool)
    requires Sorted(rest, caseSensitive)
    requires forall x :: x in rest ==> !Before(x.key, head.key, caseSensitive)
    ensures Sorted([head] + rest, caseSensitive)
  {
  }

  lemma HeadNotAfter<T>(xs: seq<Keyed<T>>, x: Keyed<T>, caseSensitive: bool)
    requires xs != [] && Sorted(xs, caseSensitive) && x in xs
    ensures !Before(x.key, xs[0].key, caseSensitive)
  {
    BeforeAsymmetric(x.key, x.key, caseSensitive);
  }

  lemma {:induction false} AscendingSorted<T>(xs: seq<Keyed<T>>, caseSensitive: bool)
    requires Ascending(xs, caseSensitive)
    ensures Sorted(xs, caseSensitive)
  {
    if |xs| > 1 {
      var rest := xs[1..];
      AscendingSorted(rest, caseSensitive);
      assert rest[0] == xs[1];
      BeforeAsymmetric(xs[0].key, xs[1].key, caseSensitive);
      forall x | x in rest
        ensures !Before(x.key, xs[0].key, caseSensitive)
      {
        HeadNotAfter(rest, x, caseSensitive);
        NotBeforeTransitive(xs[0].key, xs[1].key, x.key, caseSensitive);
      }
      ConsSorted(xs[0], rest, caseSensitive);
      assert xs == [xs[0]] + rest;
    }
  }

  lemma SortedHalves<T>(xs: seq<Keyed<T>>, a: seq<Keyed<T>>, b: seq<Keyed<T>>, x: seq<Keyed<T>>, y: seq<Keyed<T>>,
                        caseSensitive: bool)
    requires xs == x + y && SameItems(a, x) && SameItems(b, y)
    ensures SameItems(Merge(a, b, caseSensitive), xs)
  {
    MergeItems(a, b, caseSensitive);
  }

  lemma {:induction false} SortKeeps<T>(xs: seq<Keyed<T>>, caseSensitive: bool)
    ensures SameItems(Sort(xs, caseSensitive), xs)
    decreases |xs|
  {
    if |xs| > 1 && !Ascending(xs, caseSensitive) {
      hide Ascending, Merge, SameItems;
      var middle := (|xs| + 1) / 2;
      var x, y := xs[..middle], xs[middle..];
      assert xs == x + y;
      SortKeeps(x, caseSensitive);
      SortKeeps(y, caseSensitive);
      SortedHalves(xs, Sort(x, caseSensitive), Sort(y, caseSensitive), x, y, caseSensitive);
    }
  }

  lemma {:induction false} SortOrders<T>(xs: seq<Keyed<T>>, caseSensitive: bool)
    ensures Sorted(Sort(xs, caseSensitive), caseSensitive)
    decreases |xs|
  {
    if |xs| > 1 {
      if Ascending(xs, caseSensitive) {
        AscendingSorted(xs, caseSensitive);
      } else {
        var middle := (|xs| + 1) / 2;
        SortOrders(xs[..middle], caseSensitive);
        SortOrders(xs[middle..], caseSensitive);
        MergeSorts(Sort(xs[..middle], caseSensitive), Sort(xs[middle..], caseSensitive), caseSensitive);
      }
    }
  }

  /** sort_list returns a sorted rearrangement of its input. */
  lemma SortSorts<T>(xs: seq<Keyed<T>>, caseSensitive: bool)
    ensures Sorted(Sort(xs, caseSensitive), caseSensitive)
    ensures SameItems(Sort(xs, caseSensitive), xs)
  {
    SortKeeps(xs, caseSensitive);
    SortOrders(xs, caseSensitive);
  }

  lemma SameItemsMembers<T>(xs: seq<Keyed<T>>, ys: seq<Keyed<T>>)
    requires SameItems(xs, ys)
    ensures |xs| == |ys|
    ensures forall x :: x in xs <==> x in ys
  {
    assert |xs| == |multiset(xs)| == |multiset(ys)| == |ys|;
    forall x ensures x in xs <==> x in ys {
      assert x in xs <==> x in multiset(xs);
      assert x in ys <==> x in multiset(ys);
    }
  }

  lemma {:induction false} TwiceIn<T>(xs: seq<Keyed<T>>, x: Keyed<T>) returns (i: nat, j: nat)
    requires multiset(xs)[x] >= 2
    ensures i < j < |xs| && xs[i] == x == xs[j]
  {
    assert xs == [xs[0]] + xs[1..];
    if xs[0] == x {
      assert x in multiset(xs[1..]);
      i := 0;
      j :| 0 < j < |xs| && xs[j] == x;
    } else {
      i, j := TwiceIn(xs[1..], x);
      i, j := i + 1, j + 1;
    }
  }

  lemma SameItemsDistinct<T>(xs: seq<Keyed<T>>, ys: seq<Keyed<T>>, caseSensitive: bool)
    requires SameItems(xs, ys) && Distinct(xs, caseSensitive)
    ensures Distinct(ys, caseSensitive)
  {
    SameItemsMembers(xs, ys);
    forall i, j | 0 <= i < j < |ys|
      ensures Norm(ys[i].key, caseSensitive) != Norm(ys[j].key, caseSensitive)
    {
      if ys[i] == ys[j] {
        assert ys == ys[..i] + [ys[i]] + ys[i + 1..j] + [ys[j]] + ys[j + 1..];
        var p, q := TwiceIn(xs, ys[i]);
      } else {
        assert ys[i] in xs && ys[j] in xs;
      }
    }
  }

  /** With distinct keys the order is strict, so it is the only one. */
  lemma SortStrict<T>(xs: seq<Keyed<T>>, caseSensitive: bool)
    requires Distinct(xs, caseSensitive)
    ensures StrictlySorted(Sort(xs, caseSensitive), caseSensitive)
    ensures SameItems(Sort(xs, caseSensitive), xs)
  {
    var ys := Sort(xs, caseSensitive);
    SortSorts(xs, caseSensitive);
    SameItemsDistinct(xs, ys, caseSensitive);
    forall i, j | 0 <= i < j < |ys|
      ensures Before(ys[i].key, ys[j].key, caseSensitive)
    {
      BeforeAsymmetric(ys[i].key, ys[j].key, caseSensitive);
    }
  }
}
