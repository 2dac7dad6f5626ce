/** Sibling lists of nodes, linked in place: `next` ends in NULL, the head's `prev` is the last node. */
module SiblingList {
  /** The links of a cJSON node; its key does not change while it is linked. */
  class Node {
    const key: string
    var next: Node?
    var prev: Node?

    constructor (key: string)
      ensures this.key == key && next == null && prev == null
    {
      this.key := key;
      next, prev := null, null;
    }
  }

  ghost predicate NoDuplicates(nodes: seq<Node>) {
    forall i, j :: 0 <= i < j < |nodes| ==> nodes[i] != nodes[j]
  }

  /** Consecutive nodes point at each other. */
  ghost predicate Linked(nodes: seq<Node>)
    reads nodes
  {
    forall i :: 0 <= i < |nodes| - 1 ==>
      nodes[i].next != null && nodes[i].next == nodes[i + 1] && nodes[i + 1].prev == nodes[i]
  }

  /** A chain from its head to NULL; nothing is said about the head's `prev`. */
  ghost predicate Chain(head: Node?, nodes: seq<Node>)
    reads nodes
  {
    && NoDuplicates(nodes) && Linked(nodes)
    && (nodes == [] ==> head == null)
    && (nodes != [] ==> head == nodes[0] && nodes[|nodes| - 1].next == null)
  }

  /** A list by `next` alone, whatever the ways back. */
  ghost predicate Forward(head: Node?, nodes: seq<Node>)
    reads nodes
  {
    && NoDuplicates(nodes)
    && (forall i :: 0 <= i < |nodes| - 1 ==> nodes[i].next != null && nodes[i].next == nodes[i + 1])
    && (nodes == [] ==> head == null)
    && (nodes != [] ==> head == nodes[0] && nodes[|nodes| - 1].next == null)
  }

  /** An array or object node: the list of its children. */
  class Parent {
    var child: Node?
    ghost var nodes: seq<Node>

    ghost predicate Valid()
      reads this, nodes
    {
      Chain(child, nodes) && (nodes != [] ==> nodes[0].prev == nodes[|nodes| - 1])
    }

    constructor ()
      ensures Valid() && nodes == []
    {
      child := null;
      nodes := [];
    }

    /** get_array_item */
    method GetArrayItem(index: nat) returns (item: Node?)
      requires Forward(child, nodes)
      ensures item == if index < |nodes| then nodes[index] else null
    {
      item := child;
      var left: nat := index;
      ghost var i := 0;
      while item != null && left > 0
        invariant i + left == index && i <= |nodes|
        invariant item == null <==> i == |nodes|
        invariant i < |nodes| ==> item == nodes[i]
        decreases left
      {
        item := item.next;
        left := left - 1;
        i := i + 1;
      }
    }

    /**
     * add_item_to_array: the last node is found through the head's `prev`.
     * When that is NULL nothing is linked, and the call still reports success.
     */
    method Append(item: Node) returns (ok: bool)
      requires Chain(child, nodes) && (nodes != [] && nodes[0].prev != null ==> Valid())
      requires item !in nodes && item.next == null
      modifies this, nodes, item
      ensures ok && Chain(child, nodes)
      ensures nodes == if old(nodes == [] || nodes[0].prev != null) then old(nodes) + [item] else old(nodes)
      ensures old(nodes == [] || nodes[0].prev != null) ==> Valid()
    {
      if child == null {
        child := item;
        item.prev := item;
        item.next := null;
        nodes := [item];
      } else if child.prev != null {
        var last := child.prev;
        last.next := item;
        item.prev := last;
        child.prev := item;
        nodes := nodes + [item];
      }
      return true;
    }

    /** Where a node stands, read off its links. */
    lemma Position(item: Node, k: nat)
      requires Valid() && k < |nodes| && nodes[k] == item
      ensures item == child <==> k == 0
      ensures item.next == null <==> k == |nodes| - 1
      ensures k < |nodes| - 1 ==> item.next == nodes[k + 1]
      ensures item.prev == nodes[if k == 0 then |nodes| - 1 else k - 1]
    {
    }

    /** cJSON_DetachItemViaPointer */
    method Detach(item: Node, ghost k: nat)
      requires Valid() && k < |nodes| && nodes[k] == item
      modifies this, nodes
      ensures Valid() && nodes == old(nodes[..k] + nodes[k + 1..])
      ensures item.next == null && item.prev == null
    {
      Position(item, k);
      ghost var rest := nodes[..k] + nodes[k + 1..];
      if item != child {
        item.prev.next := item.next;
      }
      if item.next != null {
        item.next.prev := item.prev;
      }
      if item == child {
        child := item.next;
      } else if item.next == null {
        child.prev := item.prev;
      }
      item.prev := null;
      item.next := null;
      forall i | 0 <= i < |rest|
        ensures rest[i] == old(nodes)[if i < k then i else i + 1] && rest[i] != item
      {
      }
      nodes := rest;
      forall i | 0 <= i < |nodes| - 1
        ensures nodes[i].next != null && nodes[i].next == nodes[i + 1] && nodes[i + 1].prev == nodes[i]
      {
        assert nodes[i] == old(nodes)[if i < k then i else i + 1];
        assert nodes[i + 1] == old(nodes)[if i + 1 < k then i + 1 else i + 2];
      }
    }

    /** insert_item_in_array: past the end is refused, at the end appends. */
    method Insert(which: nat, item: Node) returns (ok: bool)
      requires Valid() && item !in nodes && item.next == null
      modifies this, nodes, item
      ensures ok == (which <= |old(nodes)|)
      ensures Valid()
      ensures nodes == if ok then old(nodes[..which] + [item] + nodes[which..]) else old(nodes)
    {
      var current := child;
      var left: nat := which;
      ghost var k := 0;
      while current != null && left > 0
        invariant k + left == which && k <= |nodes|
        invariant current == null <==> k == |nodes|
        invariant k < |nodes| ==> current == nodes[k]
        decreases left
      {
        current := current.next;
        left := left - 1;
        k := k + 1;
      }
      if left > 0 {
        return false;
      }
      if current == null {
        var added := Append(item);
        return true;
      }
      LinkBefore(current, item, which);
      return true;
    }

    /** An inner node that has lost its way back. */
    ghost predicate Corrupted(which: int)
      reads this, nodes
    {
      0 < which < |nodes| && nodes[which].prev == null
    }

    /** cJSON_InsertItemInArray: any place past the end appends, a node without `prev` is refused. */
    method InsertItemInArray(which: int, item: Node?) returns (ok: bool)
      requires Valid() || (Forward(child, nodes) && Corrupted(which))
      requires item != null ==> item !in nodes && item.next == null
      modifies this, nodes, item
      ensures ok <==> which >= 0 && item != null && !old(Corrupted(which))
      ensures nodes == if !ok then old(nodes)
                       else if which < |old(nodes)| then old(nodes[..which] + [item] + nodes[which..])
                       else old(nodes) + [item]
      ensures old(Valid()) ==> Valid()
    {
      if which < 0 || item == null { return false; }
      var after := GetArrayItem(which);
      if after == null {
        ok := Append(item);
        return;
      }
      if after != child && after.prev == null { return false; }
      LinkBefore(after, item, which);
      return true;
    }

    lemma InsertedOnce(list: seq<Node>, which: nat, item: Node)
      requires NoDuplicates(list) && item !in list && which <= |list|
      ensures NoDuplicates(list[..which] + [item] + list[which..])
    {
    }

    /** The relinking part of an insertion. */
    method LinkBefore(current: Node, item: Node, ghost which: nat)
      requires Valid() && item !in nodes && which < |nodes| && nodes[which] == current
      modifies this, nodes, item
      ensures Valid() && nodes == old(nodes[..which] + [item] + nodes[which..])
    {
      Position(current, which);
      ghost var before := nodes;
      item.next := current;
      item.prev := current.prev;
      current.prev := item;
      if current == child {
        child := item;
      } else {
        item.prev.next := item;
      }
      nodes := nodes[..which] + [item] + nodes[which..];
      forall i | 0 <= i < |nodes| - 1
        ensures nodes[i].next != null && nodes[i].next == nodes[i + 1] && nodes[i + 1].prev == nodes[i]
      {
        if i > which {
          assert nodes[i] == before[i - 1] && nodes[i + 1] == before[i];
        } else if i + 1 < which {
          assert nodes[i] == before[i] && nodes[i + 1] == before[i + 1];
        }
      }
      assert Linked(nodes);
      hide Linked, NoDuplicates;
      InsertedOnce(before, which, item);
    }

    /** cJSON_ReplaceItemViaPointer for a node that is not the item itself. */
    method Replace(item: Node, replacement: Node, ghost k: nat)
      requires Valid() && k < |nodes| && nodes[k] == item && replacement !in nodes
      modifies this, nodes, replacement
      ensures Valid() && nodes == old(nodes)[k := replacement]
      ensures item.next == null && item.prev == null
    {
      Position(item, k);
      ghost var before := nodes;
      replacement.next := item.next;
      replacement.prev := item.prev;
      if replacement.next != null {
        replacement.next.prev := replacement;
      }
      if child == item {
        if child.prev == child {
          replacement.prev := replacement;
        }
        child := replacement;
      } else {
        replacement.prev.next := replacement;
        if replacement.next == null {
          child.prev := replacement;
        }
      }
      item.next := null;
      item.prev := null;
      nodes := nodes[k := replacement];
      forall i | 0 <= i < |nodes| - 1
        ensures nodes[i].next != null && nodes[i].next == nodes[i + 1] && nodes[i + 1].prev == nodes[i]
      {
        assert i != k ==> nodes[i] == before[i];
        assert i + 1 != k ==> nodes[i + 1] == before[i + 1];
      }
    }
  }
}
