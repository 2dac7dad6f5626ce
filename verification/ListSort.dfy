/** sort_list: merge sort of a sibling list by relinking its nodes in place. */
module ListSort {
  import opened CStrings
  import opened Sorting
  import opened SiblingList

  /** The nodes with their keys, as the sorting order sees them. */
  function Keys(nodes: seq<Node>): (r: seq<Keyed<Node>>)
    ensures |r| == |nodes|
    ensures forall i :: 0 <= i < |nodes| ==> r[i] == Keyed(nodes[i].key, nodes[i])
  {
    seq(|nodes|, i requires 0 <= i < |nodes| => Keyed(nodes[i].key, nodes[i]))
  }

  function Items(xs: seq<Keyed<Node>>): (r: seq<Node>)
    ensures |r| == |xs|
    ensures forall i :: 0 <= i < |xs| ==> r[i] == xs[i].item
  {
    seq(|xs|, i requires 0 <= i < |xs| => xs[i].item)
  }

  /** Every item carries its own key. */
  predicate OwnKeys(xs: seq<Keyed<Node>>) {
    forall i :: 0 <= i < |xs| ==> xs[i].key == xs[i].item.key
  }

  lemma KeysOfItems(xs: seq<Keyed<Node>>)
    requires OwnKeys(xs)
    ensures Keys(Items(xs)) == xs
  {
  }

  /** The nodes in sorted order. */
  function SortedNodes(nodes: seq<Node>, cs: bool): seq<Node> {
    Items(Sort(Keys(nodes), cs))
  }

  lemma SortOwnKeys(nodes: seq<Node>, cs: bool)
    ensures Keys(SortedNodes(nodes, cs)) == Sort(Keys(nodes), cs)
    ensures multiset(SortedNodes(nodes, cs)) == multiset(nodes)
  {
    var xs := Keys(nodes);
    SortSorts(xs, cs);
    SameNodes(Sort(xs, cs), xs);
    forall i | 0 <= i < |xs|
      ensures Sort(xs, cs)[i].key == Sort(xs, cs)[i].item.key
    {
      assert Sort(xs, cs)[i] in xs;
    }
    KeysOfItems(Sort(xs, cs));
    ItemsMultiset(Sort(xs, cs), xs);
    assert Items(xs) == nodes;
  }

  lemma SameNodes(xs: seq<Keyed<Node>>, ys: seq<Keyed<Node>>)
    requires SameItems(xs, ys)
    ensures |xs| == |ys| && forall x :: x in xs ==> x in ys
  {
    SameItemsMembers(xs, ys);
  }

  lemma TakeOut(xs: seq<Keyed<Node>>, j: nat)
    requires j < |xs|
    ensures multiset(xs) == multiset(xs[..j] + xs[j + 1..]) + multiset{xs[j]}
    ensures xs == xs[..j] + [xs[j]] + xs[j + 1..]
  {
    assert xs == xs[..j] + [xs[j]] + xs[j + 1..];
  }

  lemma Cancel(m: multiset<Keyed<Node>>, n: multiset<Keyed<Node>>, x: Keyed<Node>)
    requires m + multiset{x} == n + multiset{x}
    ensures m == n
  {
    assert m == m + multiset{x} - multiset{x};
    assert n == n + multiset{x} - multiset{x};
  }

  lemma Occurs(xs: seq<Keyed<Node>>, ys: seq<Keyed<Node>>) returns (j: nat)
    requires xs != [] && multiset(xs) == multiset(ys)
    ensures j < |ys| && ys[j] == xs[0]
  {
    assert xs[0] in multiset(xs);
    assert xs[0] in ys;
    j :| j < |ys| && ys[j] == xs[0];
  }

  lemma ItemsAround(a: seq<Keyed<Node>>, x: Keyed<Node>, b: seq<Keyed<Node>>)
    ensures multiset(Items(a + [x] + b)) == multiset(Items(a + b)) + multiset{x.item}
  {
    assert Items(a + [x] + b) == Items(a) + [x.item] + Items(b);
    assert Items(a + b) == Items(a) + Items(b);
  }

  lemma {:induction false} ItemsMultiset(xs: seq<Keyed<Node>>, ys: seq<Keyed<Node>>)
    requires multiset(xs) == multiset(ys)
    ensures multiset(Items(xs)) == multiset(Items(ys))
    decreases |xs|
  {
    if xs == [] {
      assert |multiset(ys)| == |ys|;
    } else {
      hide Items;
      var j := Occurs(xs, ys);
      var left := ys[..j] + ys[j + 1..];
      TakeOut(ys, j);
      HeadOut(xs);
      Cancel(multiset(xs[1..]), multiset(left), xs[0]);
      ItemsMultiset(xs[1..], left);
      ItemsAround(ys[..j], xs[0], ys[j + 1..]);
      ItemsHead(xs);
    }
  }

  lemma HeadOut(xs: seq<Keyed<Node>>)
    requires xs != []
    ensures multiset(xs) == multiset(xs[1..]) + multiset{xs[0]}
  {
    assert xs == [xs[0]] + xs[1..];
  }

  lemma ItemsHead(xs: seq<Keyed<Node>>)
    requires xs != []
    ensures multiset(Items(xs)) == multiset(Items(xs[1..])) + multiset{xs[0].item}
  {
    assert Items(xs) == [xs[0].item] + Items(xs[1..]);
  }

  ghost function NodeSet(nodes: seq<Node>): set<Node> {
    set n | n in nodes
  }

  ghost predicate Disjoint(a: seq<Node>, b: seq<Node>) {
    forall i, j :: 0 <= i < |a| && 0 <= j < |b| ==> a[i] != b[j]
  }

  /** The test for a list that is already sorted. */
  method IsAscending(list: Node?, ghost nodes: seq<Node>, cs: bool) returns (ascending: bool)
    requires Chain(list, nodes)
    ensures ascending == Ascending(Keys(nodes), cs)
  {
    var current := list;
    ghost var i := 0;
    while current != null && current.next != null
      invariant i <= |nodes| && (current == null <==> i == |nodes|)
      invariant i < |nodes| ==> current == nodes[i]
      invariant forall k :: 0 <= k < i && k < |nodes| - 1 ==> Before(nodes[k].key, nodes[k + 1].key, cs)
      decreases |nodes| - i
    {
      var diff := CompareStrings(current.key, current.next.key, cs);
      if diff >= 0 {
        assert !Before(Keys(nodes)[i].key, Keys(nodes)[i + 1].key, cs);
        return false;
      }
      current := current.next;
      i := i + 1;
    }
    return true;
  }

  /** The node in the middle: one pointer moves one step while the other moves two. */
  method FindMiddle(list: Node, ghost nodes: seq<Node>) returns (second: Node)
    requires Chain(list, nodes) && |nodes| >= 2
    ensures second == nodes[(|nodes| + 1) / 2]
  {
    var slow: Node? := list;
    var fast: Node? := list;
    ghost var i := 0;
    while fast != null
      invariant 0 <= i && 2 * i <= |nodes| + 1
      invariant i < |nodes| && slow == nodes[i]
      invariant fast == null <==> 2 * i >= |nodes|
      invariant 2 * i < |nodes| ==> fast == nodes[2 * i]
      decreases |nodes| - i
    {
      slow := slow.next;
      fast := fast.next;
      assert 2 * i + 1 < |nodes| ==> fast == nodes[2 * i + 1];
      if fast != null {
        fast := fast.next;
        assert 2 * i + 2 < |nodes| ==> fast == nodes[2 * i + 1 + 1];
      }
      i := i + 1;
    }
    second := slow;
  }

  /** Cutting a chain before an inner node. */
  method Split(ghost nodes: seq<Node>, second: Node, ghost middle: nat)
    requires nodes != [] && Chain(nodes[0], nodes) && 0 < middle < |nodes| && second == nodes[middle]
    modifies NodeSet(nodes)
    ensures Chain(nodes[0], nodes[..middle]) && Chain(second, nodes[middle..])
  {
    assert second.prev == nodes[middle - 1];
    second.prev.next := null;
    second.prev := null;
  }

  /** The merged part: linked up to its tail, whose `next` is still to be set. */
  ghost predicate Merged(result: Node?, tail: Node?, done: seq<Node>)
    reads done
  {
    && NoDuplicates(done) && Linked(done)
    && (done == [] <==> result == null)
    && (done != [] ==> result == done[0] && tail == done[|done| - 1])
  }

  /** Midway through a merge: what is linked up, and what is left of the two lists. */
  ghost predicate Merging(result: Node?, tail: Node?, first: Node?, second: Node?,
                          done: seq<Node>, fs: seq<Node>, ss: seq<Node>)
    reads done, fs, ss
  {
    && Merged(result, tail, done) && Chain(first, fs) && Chain(second, ss)
    && Disjoint(done, fs) && Disjoint(done, ss) && Disjoint(fs, ss)
  }

  /** Linking the head of one list behind the tail; the other list stays as it is. */
  method TakeHead(result: Node?, tail: Node?, head: Node, other: Node?,
                  ghost done: seq<Node>, ghost from: seq<Node>, ghost others: seq<Node>)
      returns (newResult: Node, newTail: Node, rest: Node?)
    requires Merging(result, tail, head, other, done, from, others)
    modifies NodeSet(done), head
    ensures from != [] && Merging(newResult, newTail, rest, other, done + [head], from[1..], others)
    ensures NodeSet(done + [head]) + NodeSet(from[1..]) <= NodeSet(done) + NodeSet(from)
  {
    rest := head.next;
    ChainTail(head, from);
    if result == null {
      return head, head, rest;
    }
    tail.next := head;
    head.prev := tail;
    return result, head, rest;
  }

  lemma MergingSwap(result: Node?, tail: Node?, first: Node?, second: Node?,
                    done: seq<Node>, fs: seq<Node>, ss: seq<Node>)
    requires Merging(result, tail, first, second, done, fs, ss)
    ensures Merging(result, tail, second, first, done, ss, fs)
  {
  }

  lemma MergingHeads(result: Node?, tail: Node?, first: Node?, second: Node?,
                     done: seq<Node>, fs: seq<Node>, ss: seq<Node>)
    requires Merging(result, tail, first, second, done, fs, ss)
    ensures first != null <==> fs != []
    ensures second != null <==> ss != []
    ensures fs != [] ==> first == fs[0] && fs[0] in NodeSet(fs)
    ensures ss != [] ==> second == ss[0] && ss[0] in NodeSet(ss)
  {
  }

  /** The keyed order that is still to come out of a merge. */
  function Outlook(done: seq<Node>, fs: seq<Node>, ss: seq<Node>, cs: bool): seq<Keyed<Node>> {
    Keys(done) + Merge(Keys(fs), Keys(ss), cs)
  }

  /** Appending the rest of one list. */
  method Finish(result: Node?, tail: Node?, rest: Node, other: Node?,
                ghost done: seq<Node>, ghost nodes: seq<Node>, ghost others: seq<Node>) returns (r: Node?)
    requires Merging(result, tail, rest, other, done, nodes, others)
    modifies NodeSet(done), NodeSet(nodes)
    ensures Chain(r, done + nodes)
  {
    if result == null {
      assert done + nodes == nodes;
      return rest;
    }
    tail.next := rest;
    rest.prev := tail;
    return result;
  }

  lemma ChainTail(head: Node, nodes: seq<Node>)
    requires nodes != [] && Chain(head, nodes)
    ensures Chain(head.next, nodes[1..])
  {
  }

  method MergeLists(a: Node?, b: Node?, ghost xs: seq<Node>, ghost ys: seq<Node>, cs: bool)
      returns (result: Node?, ghost merged: seq<Node>)
    requires Chain(a, xs) && Chain(b, ys) && Disjoint(xs, ys) && xs != [] && ys != []
    modifies NodeSet(xs), NodeSet(ys)
    ensures Chain(result, merged) && Keys(merged) == Merge(Keys(xs), Keys(ys), cs)
  {
    hide Merging, Chain, Outlook, Disjoint, Keys, Merge, Before;
    var first, second := a, b;
    var tail: Node? := null;
    result := null;
    ghost var done: seq<Node> := [];
    ghost var fs, ss := xs, ys;
    MergingStart(first, second, fs, ss);
    OutlookStart(xs, ys, cs);
    while first != null && second != null
      invariant Merging(result, tail, first, second, done, fs, ss)
      invariant fs != [] || ss != []
      invariant NodeSet(done) + NodeSet(fs) + NodeSet(ss) <= NodeSet(xs) + NodeSet(ys)
      invariant Outlook(done, fs, ss, cs) == Outlook([], xs, ys, cs)
      decreases |fs| + |ss|
    {
      MergingHeads(result, tail, first, second, done, fs, ss);
      var diff := CompareStrings(first.key, second.key, cs);
      OutlookNext(done, fs, ss, cs);
      if diff < 0 {
        ghost var head := first;
        result, tail, first := TakeHead(result, tail, first, second, done, fs, ss);
        done, fs := done + [head], fs[1..];
      } else {
        ghost var head := second;
        MergingSwap(result, tail, first, second, done, fs, ss);
        result, tail, second := TakeHead(result, tail, second, first, done, ss, fs);
        done, ss := done + [head], ss[1..];
        MergingSwap(result, tail, second, first, done, ss, fs);
      }
    }
    MergingHeads(result, tail, first, second, done, fs, ss);
    OutlookEnd(done, fs, ss, cs);
    if first != null {
      result := Finish(result, tail, first, second, done, fs, ss);
      merged := done + fs;
    } else {
      MergingSwap(result, tail, first, second, done, fs, ss);
      result := Finish(result, tail, second, first, done, ss, fs);
      merged := done + ss;
    }
  }

  lemma MergingStart(a: Node?, b: Node?, xs: seq<Node>, ys: seq<Node>)
    requires Chain(a, xs) && Chain(b, ys) && Disjoint(xs, ys)
    ensures Merging(null, null, a, b, [], xs, ys)
  {
  }

  lemma OutlookStart(xs: seq<Node>, ys: seq<Node>, cs: bool)
    ensures Outlook([], xs, ys, cs) == Merge(Keys(xs), Keys(ys), cs)
  {
  }

  lemma OutlookEnd(done: seq<Node>, fs: seq<Node>, ss: seq<Node>, cs: bool)
    requires fs == [] || ss == []
    ensures Outlook(done, fs, ss, cs) == Keys(done + if fs == [] then ss else fs)
  {
  }

  lemma MergeStep(xs: seq<Keyed<Node>>, ys: seq<Keyed<Node>>, cs: bool)
    requires xs != [] && ys != []
    ensures Merge(xs, ys, cs) ==
            if Before(xs[0].key, ys[0].key, cs) then [xs[0]] + Merge(xs[1..], ys, cs)
                else [ys[0]] + Merge(xs, ys[1..], cs)
  {
  }

  lemma OutlookNext(done: seq<Node>, xs: seq<Node>, ys: seq<Node>, cs: bool)
    requires xs != [] && ys != []
    ensures Outlook(done, xs, ys, cs) ==
            if Before(xs[0].key, ys[0].key, cs) then Outlook(done + [xs[0]], xs[1..], ys, cs)
            else Outlook(done + [ys[0]], xs, ys[1..], cs)
  {
    hide Merge, Before;
    MergeStep(Keys(xs), Keys(ys), cs);
    assert Keys(xs)[1..] == Keys(xs[1..]) && Keys(ys)[1..] == Keys(ys[1..]);
    assert Keys(done + [xs[0]]) == Keys(done) + [Keys(xs)[0]];
    assert Keys(done + [ys[0]]) == Keys(done) + [Keys(ys)[0]];
  }

  lemma SortedFromHalves(nodes: seq<Node>, xs: seq<Node>, ys: seq<Node>, merged: seq<Node>, cs: bool)
    requires |nodes| >= 2 && !Ascending(Keys(nodes), cs)
    requires xs == SortedNodes(nodes[..(|nodes| + 1) / 2], cs) && ys == SortedNodes(nodes[(|nodes| + 1) / 2..], cs)
    requires Keys(merged) == Merge(Keys(xs), Keys(ys), cs)
    ensures merged == SortedNodes(nodes, cs)
  {
    hide Ascending, Merge;
    var middle := (|nodes| + 1) / 2;
    SortOwnKeys(nodes[..middle], cs);
    SortOwnKeys(nodes[middle..], cs);
    assert Keys(nodes)[..middle] == Keys(nodes[..middle]) && Keys(nodes)[middle..] == Keys(nodes[middle..]);
    assert Items(Keys(merged)) == merged;
  }

  lemma AlreadySorted(nodes: seq<Node>, cs: bool)
    requires |nodes| <= 1 || Ascending(Keys(nodes), cs)
    ensures SortedNodes(nodes, cs) == nodes
  {
  }

  lemma HalvesApart(nodes: seq<Node>, middle: nat, xs: seq<Node>, ys: seq<Node>)
    requires middle <= |nodes| && NoDuplicates(nodes)
    requires multiset(xs) == multiset(nodes[..middle]) && multiset(ys) == multiset(nodes[middle..])
    ensures Disjoint(xs, ys)
    ensures NodeSet(xs) + NodeSet(ys) <= NodeSet(nodes)
  {
    forall n | n in xs ensures n in nodes[..middle] { assert n in multiset(xs); }
    forall n | n in ys ensures n in nodes[middle..] { assert n in multiset(ys); }
    forall i, j | 0 <= i < |xs| && 0 <= j < |ys|
      ensures xs[i] != ys[j]
    {
      assert xs[i] in xs && ys[j] in ys;
    }
  }

  lemma ShortChain(list: Node?, nodes: seq<Node>)
    requires Chain(list, nodes)
    ensures list == null || list.next == null ==> |nodes| <= 1
  {
  }

  /** sort_list relinks a chain into a chain of the same nodes in sorted order. */
  method SortList(list: Node?, ghost nodes: seq<Node>, cs: bool) returns (result: Node?, ghost sorted: seq<Node>)
    requires Chain(list, nodes)
    modifies NodeSet(nodes)
    ensures Chain(result, sorted) && sorted == SortedNodes(nodes, cs)
    ensures multiset(sorted) == multiset(nodes)
    decreases |nodes|
  {
    hide Sort, Merge, Disjoint, SortedNodes, Ascending, Keys, Items, Before, NoDuplicates, Linked;
    SortOwnKeys(nodes, cs);
    ShortChain(list, nodes);
    if list == null || list.next == null {
      AlreadySorted(nodes, cs);
      return list, nodes;
    }
    var ascending := IsAscending(list, nodes, cs);
    if ascending {
      AlreadySorted(nodes, cs);
      return list, nodes;
    }
    ghost var middle := (|nodes| + 1) / 2;
    ghost var left, right := nodes[..middle], nodes[middle..];
    HalvesApart(nodes, middle, left, right);
    var second := FindMiddle(list, nodes);
    Split(nodes, second, middle);
    ghost var xs, ys;
    var a, b;
    a, xs := SortList(list, left, cs);
    HalvesApart(nodes, middle, xs, right);
    b, ys := SortList(second, right, cs);
    HalvesApart(nodes, middle, xs, ys);
    result, sorted := MergeLists(a, b, xs, ys, cs);
    SortedFromHalves(nodes, xs, ys, sorted, cs);
  }
}
