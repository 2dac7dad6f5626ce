/** cJSON_Duplicate on linked nodes: a copy of its own nodes, with every sibling list linked both ways. */
module TreeCopy {
  import opened Json
  import opened Sorting
  import opened Options

  /** The sibling links of a node, apart from the node so that relinking it leaves what is below it alone. */
  class Links {
    var next: Item?
    var prev: Item?

    constructor ()
      ensures next == null && prev == null
    {
      next, prev := null, null;
    }
  }

  /**
   * A cJSON node. `content` is what the node itself holds, an empty array or object for a node that may have
   * children; `kids`, `repr` and `tree` say which nodes and which tree hang below it.
   */
  class Item {
    const key: string
    const content: Json
    const links: Links
    var child: Item?
    ghost var kids: seq<Item>
    ghost var repr: set<object>
    ghost var tree: Json

    constructor (key: string, content: Json)
      requires Shell(content)
      ensures this.key == key && this.content == content && fresh(links) && links.next == null && links.prev == null
      ensures child == null && kids == [] && repr == {this} && tree == content && Valid(true)
    {
      this.key, this.content := key, content;
      links := new Links();
      child, kids, repr, tree := null, [], {this}, content;
    }

    /**
     * The children hang off `child` by `next`, and nothing belongs to two of them. With `tails`, every sibling
     * list below also points back: each child at the one before it, and the head at the last.
     */
    ghost predicate Valid(tails: bool)
      reads this, repr
      decreases repr
    {
      && this in repr && links !in repr && Shell(content)
      && (forall i :: 0 <= i < |kids| ==>
            kids[i] in repr && kids[i].links in repr && kids[i].repr <= repr && this !in kids[i].repr)
      && (forall i :: 0 <= i < |kids| ==> kids[i].Valid(tails))
      && Apart(kids) && Chained(child, kids) && (tails ==> Closed(kids)) && Assembled(content, kids, tree)
    }
  }

  ghost predicate Chained(head: Item?, kids: seq<Item>)
    reads set k | k in kids :: k.links
  {
    && (kids == [] ==> head == null)
    && (kids != [] ==> head == kids[0] && kids[|kids| - 1].links.next == null)
    && (forall i :: 0 <= i < |kids| - 1 ==> kids[i].links.next == kids[i + 1])
  }

  ghost predicate Closed(kids: seq<Item>)
    reads set k | k in kids :: k.links
  {
    forall i :: 0 <= i < |kids| ==> kids[i].links.prev == kids[if i == 0 then |kids| - 1 else i - 1]
  }

  /** What a node can hold without its children. */
  predicate Shell(content: Json) {
    (content.Array? ==> content.items == []) && (content.Object? ==> content.members == [])
  }

  /** The tree of a node is its content with the trees of its children in it. */
  ghost predicate Assembled(content: Json, kids: seq<Item>, tree: Json)
    reads kids
  {
    match content
    case Array(_) =>
      tree.Array? && |tree.items| == |kids| && forall i :: 0 <= i < |kids| ==> tree.items[i] == kids[i].tree
    case Object(_) =>
      && tree.Object? && |tree.members| == |kids|
      && forall i :: 0 <= i < |kids| ==> tree.members[i] == Keyed(kids[i].key, kids[i].tree)
    case _ => kids == [] && tree == content
  }

  /** A child is one level lower. */
  lemma KidHeight(item: Item, tails: bool, n: nat)
    requires item.Valid(tails) && n < |item.kids|
    ensures Height(item.kids[n].tree) < Height(item.tree)
  {
    match item.content
    case Array(_) => assert item.tree.items[n] in item.tree.items;
    case Object(_) => assert item.tree.members[n] in item.tree.members;
  }

  /** Without a child too deep, the tree is not too deep. */
  lemma HeightOfKids(item: Item, tails: bool, depth: nat)
    requires item.Valid(tails) && depth <= CIRCULAR_LIMIT
    requires forall i :: 0 <= i < |item.kids| ==> depth + 1 + Height(item.kids[i].tree) <= CIRCULAR_LIMIT
    ensures depth + Height(item.tree) <= CIRCULAR_LIMIT
  {
    if item.kids != [] {
      match item.content
      case Array(_) =>
        var x :| x in item.tree.items && Height(x) == ItemsHeight(item.tree.items);
      case Object(_) =>
        var x :| x in item.tree.members && Height(x.item) == MembersHeight(item.tree.members);
    }
  }

  /** Everything below some nodes, and the nodes themselves. */
  ghost function Reprs(items: seq<Item>): (r: set<object>)
    reads items
    ensures forall j :: 0 <= j < |items| ==> items[j].repr <= r
  {
    set m, x | m in items && x in m.repr :: x
  }

  ghost function LinksOf(items: seq<Item>): (r: set<object>)
    ensures forall j :: 0 <= j < |items| ==> items[j].links in r
  {
    set m | m in items :: m.links
  }

  lemma ReprsMore(items: seq<Item>, item: Item)
    ensures Reprs(items + [item]) == Reprs(items) + item.repr
    ensures LinksOf(items + [item]) == LinksOf(items) + {item.links}
  {
    var all := items + [item];
    assert forall m :: m in all <==> m in items || m == item;
  }

  ghost predicate Apart(items: seq<Item>)
    reads items
  {
    forall i, j :: 0 <= i < |items| && 0 <= j < |items| && i != j ==>
      items[i].repr !! items[j].repr && items[i].links !in items[j].repr && items[i].links != items[j].links
  }

  /** The keys and trees of some nodes. */
  ghost function Trees(items: seq<Item>): (r: seq<Keyed<Json>>)
    reads items
    ensures |r| == |items| && forall j :: 0 <= j < |items| ==> r[j] == Keyed(items[j].key, items[j].tree)
  {
    seq(|items|, j requires 0 <= j < |items| reads items => Keyed(items[j].key, items[j].tree))
  }

  /** The children copied so far, apart from each other and from their own links. */
  ghost predicate Copied(trees: seq<Keyed<Json>>, made: seq<Item>)
    reads made, Reprs(made)
  {
    && |made| <= |trees| && Apart(made) && Reprs(made) !! LinksOf(made)
    && forall j :: 0 <= j < |made| ==>
         made[j] in made[j].repr && made[j].Valid(true) && Keyed(made[j].key, made[j].tree) == trees[j]
  }

  /** The copies linked among themselves; the head's `prev` is still open. */
  ghost predicate Strung(head: Item?, last: Item?, made: seq<Item>)
    reads set m | m in made :: m.links
  {
    && Chained(head, made) && last == (if made == [] then null else made[|made| - 1])
    && forall j :: 0 < j < |made| ==> made[j].links.prev == made[j - 1]
  }

  /** The crosswiring of a new child with the one before it, or with the parent. */
  method LinkBehind(copy: Item, last: Item?, newChild: Item, ghost trees: seq<Keyed<Json>>, ghost made: seq<Item>)
    requires Copied(trees, made + [newChild]) && copy !in Reprs(made + [newChild])
    requires newChild.links !in Reprs(made + [newChild]) && (last != null ==> last.links !in Reprs(made + [newChild]))
    requires Strung(copy.child, last, made) && newChild.links.next == null
    requires forall j :: 0 <= j < |made| ==> made[j].links != newChild.links
    requires forall i, j :: 0 <= i < j < |made| ==> made[i].links != made[j].links
    modifies (if last != null then {last.links} else {}), newChild.links, copy`child
    ensures Strung(copy.child, newChild, made + [newChild])
    ensures Copied(trees, made + [newChild]) && Reprs(made + [newChild]) == old(Reprs(made + [newChild]))
  {
    hide Copied, Reprs;
    InReprs(trees, made + [newChild]);
    ghost var all := made + [newChild];
    assert newChild == all[|made|] && forall j :: 0 <= j < |made| ==> made[j] == all[j];
    assert copy !in all;
    if last != null {
      last.links.next := newChild;
      newChild.links.prev := last;
    } else {
      copy.child := newChild;
    }
  }

  lemma OneMoreApart(made: seq<Item>, newChild: Item)
    requires Apart(made) && Reprs(made) !! LinksOf(made) && newChild.links !in newChild.repr
    requires newChild.repr !! Reprs(made) && newChild.repr !! LinksOf(made)
    requires newChild.links !in Reprs(made) && newChild.links !in LinksOf(made)
    ensures Apart(made + [newChild]) && Reprs(made + [newChild]) !! LinksOf(made + [newChild])
  {
    hide Reprs, LinksOf;
    ReprsMore(made, newChild);
    var all := made + [newChild];
    forall i, j | 0 <= i < |all| && 0 <= j < |all| && i != j
      ensures all[i].repr !! all[j].repr && all[i].links !in all[j].repr && all[i].links != all[j].links
    {
      if i < |made| { assert made[i].repr <= Reprs(made) && made[i].links in LinksOf(made); }
      if j < |made| { assert made[j].repr <= Reprs(made) && made[j].links in LinksOf(made); }
    }
  }

  lemma OneMoreCopied(trees: seq<Keyed<Json>>, made: seq<Item>, newChild: Item)
    requires Copied(trees, made) && |made| < |trees|
    requires newChild.Valid(true) && Keyed(newChild.key, newChild.tree) == trees[|made|]
    requires newChild.repr !! Reprs(made) && newChild.repr !! LinksOf(made)
    requires newChild.links !in Reprs(made) && newChild.links !in LinksOf(made)
    ensures Copied(trees, made + [newChild])
  {
    hide Item.Valid, Reprs, LinksOf, Apart;
    OwnNode(newChild);
    OneMoreApart(made, newChild);
  }

  lemma OwnNode(item: Item)
    requires item.Valid(true)
    ensures item in item.repr && item.links !in item.repr
  {
  }

  lemma AssembledAlike(item: Item, tails: bool, made: seq<Item>)
    requires item.Valid(tails) && Trees(made) == Trees(item.kids)
    ensures Assembled(item.content, made, item.tree)
  {
  }

  /** A node over valid children that are apart and linked both ways is valid. */
  lemma ValidOverKids(copy: Item, trees: seq<Keyed<Json>>)
    requires Copied(trees, copy.kids) && Chained(copy.child, copy.kids) && Closed(copy.kids)
    requires Shell(copy.content) && Assembled(copy.content, copy.kids, copy.tree)
    requires copy.repr == {copy} + Reprs(copy.kids) + LinksOf(copy.kids)
    requires copy !in Reprs(copy.kids) && copy.links !in Reprs(copy.kids) && copy.links !in LinksOf(copy.kids)
    ensures copy.Valid(true)
  {
  }

  /** The copy takes its children over. */
  ghost method Adopt(copy: Item, made: seq<Item>, trees: seq<Keyed<Json>>, tree: Json)
    requires Copied(trees, made) && Chained(copy.child, made) && Closed(made)
    requires Shell(copy.content) && Assembled(copy.content, made, tree)
    requires copy !in Reprs(made) && copy.links !in Reprs(made) && copy.links !in LinksOf(made)
    modifies copy
    ensures copy.Valid(true) && copy.tree == tree && copy.repr == {copy} + old(Reprs(made)) + LinksOf(made)
    ensures copy.child == old(copy.child)
  {
    hide Copied, Item.Valid, Chained, Closed, Assembled, Reprs, LinksOf;
    InReprs(trees, made);
    ghost var below := Reprs(made);
    copy.kids, copy.repr, copy.tree := made, {copy} + below + LinksOf(made), tree;
    ValidOverKids(copy, trees);
  }

  lemma InReprs(trees: seq<Keyed<Json>>, made: seq<Item>)
    requires Copied(trees, made)
    ensures forall j :: 0 <= j < |made| ==> made[j] in Reprs(made)
  {
  }

  lemma CopiedKids(trees: seq<Keyed<Json>>, made: seq<Item>)
    requires Copied(trees, made)
    ensures |made| == |trees| ==> Trees(made) == trees
    ensures forall i, j :: 0 <= i < j < |made| ==> made[i].links != made[j].links
    ensures Reprs(made) !! LinksOf(made)
  {
  }

  lemma NothingCopied(trees: seq<Keyed<Json>>)
    ensures Copied(trees, []) && Reprs([]) == {} && LinksOf([]) == {}
  {
  }

  lemma Kid(item: Item, tails: bool, n: nat)
    requires item.Valid(tails)
    ensures Shell(item.content) && item in item.repr && item.child == if item.kids == [] then null else item.kids[0]
    ensures n < |item.kids| ==>
              && item.kids[n].Valid(tails) && item.kids[n].repr < item.repr
              && item.kids[n].links.next == if n + 1 < |item.kids| then item.kids[n + 1] else null
  {
    if n < |item.kids| { assert item !in item.kids[n].repr; }
  }

  /** A new child is crosswired with the copies before it. */
  method TakeChild(copy: Item, last: Item?, newChild: Item, ghost trees: seq<Keyed<Json>>, ghost made: seq<Item>)
    requires Copied(trees, made) && |made| < |trees| && Strung(copy.child, last, made)
    requires newChild.Valid(true) && Keyed(newChild.key, newChild.tree) == trees[|made|]
    requires newChild.links.next == null
    requires newChild.repr !! Reprs(made) && newChild.repr !! LinksOf(made)
    requires newChild.links !in Reprs(made) && newChild.links !in LinksOf(made)
    requires copy !in Reprs(made) && copy !in newChild.repr
    modifies (if last != null then {last.links} else {}), newChild.links, copy`child
    ensures Copied(trees, made + [newChild]) && Strung(copy.child, newChild, made + [newChild])
    ensures Reprs(made + [newChild]) == old(Reprs(made) + newChild.repr)
  {
    hide Item.Valid, Copied, Reprs, LinksOf, Strung;
    OneMoreCopied(trees, made, newChild);
    ReprsMore(made, newChild);
    CopiedKids(trees, made);
    LastAmong(copy.child, last, made);
    CopiedKids(trees, made + [newChild]);
    InReprs(trees, made + [newChild]);
    LinkBehind(copy, last, newChild, trees, made);
  }

  lemma LastAmong(head: Item?, last: Item?, made: seq<Item>)
    requires Strung(head, last, made)
    ensures last != null ==> last.links in LinksOf(made)
    ensures forall j :: 0 <= j < |made| ==> made[j].links in LinksOf(made)
  {
  }

  /** The head's `prev` closes the list of the copies. */
  method CloseList(copy: Item, last: Item?, ghost item: Item, ghost made: seq<Item>, ghost tails: bool)
    requires item.Valid(tails) && copy.content == item.content
    requires Copied(Trees(item.kids), made) && |made| == |item.kids| && Strung(copy.child, last, made)
    requires copy !in Reprs(made) && copy.links !in Reprs(made) && copy.links !in LinksOf(made)
    modifies copy, LinksOf(made)
    ensures copy.Valid(true) && copy.tree == old(item.tree) && copy.repr == {copy} + old(Reprs(made)) + LinksOf(made)
  {
    hide Item.Valid, Copied, Reprs, Assembled;
    ghost var trees, tree := Trees(item.kids), item.tree;
    Kid(item, tails, 0);
    CopiedKids(trees, made);
    InReprs(trees, made);
    AssembledAlike(item, tails, made);
    if copy.child != null {
      copy.child.links.prev := last;
    }
    assert Closed(made) by { HeadCloses(copy.child, last, made); }
    Adopt(copy, made, trees, tree);
  }

  lemma HeadCloses(head: Item?, last: Item?, made: seq<Item>)
    requires Strung(head, last, made) && (head != null ==> head.links.prev == last)
    ensures Closed(made)
  {
  }

  /** cJSON_Duplicate_rec with allocation that succeeds: NULL exactly when the tree is too deep. */
  method DuplicateRec(item: Item, depth: nat, recurse: bool, ghost tails: bool) returns (copy: Item?)
    requires item.Valid(tails) && depth <= CIRCULAR_LIMIT
    ensures copy == null <==> recurse && depth + Height(item.tree) > CIRCULAR_LIMIT
    ensures copy != null ==> copy.Valid(true) && fresh(copy.repr) && fresh(copy.links)
    ensures copy != null ==> copy.links.next == null && copy.links.prev == null
    ensures copy != null ==> copy.key == item.key && copy.tree == if recurse then item.tree else item.content
    decreases item.repr, 0
  {
    hide Height, Item.Valid, Copied, Assembled, Reprs, LinksOf, Strung, Apart, Chained, Closed, Shell, Trees;
    Kid(item, tails, 0);
    ghost var trees := Trees(item.kids);
    NothingCopied(trees);
    var c := new Item(item.key, item.content);
    if !recurse { return c; }
    var child := item.child;
    var last: Item? := null;
    ghost var made: seq<Item> := [];
    ghost var below: set<object>, linked: set<object> := {}, {};
    NothingStrung();
    while child != null
      invariant c.links.next == null && c.links.prev == null
      invariant |made| <= |item.kids| && child == if |made| < |item.kids| then item.kids[|made|] else null
      invariant Copied(trees, made) && Strung(c.child, last, made)
      invariant below == Reprs(made) && linked == LinksOf(made) && fresh(below) && fresh(linked)
      invariant c !in below && c.links !in below && c.links !in linked
      invariant forall j :: 0 <= j < |made| ==> depth + 1 + Height(item.kids[j].tree) <= CIRCULAR_LIMIT
      decreases |item.kids| - |made|
    {
      KidHeight(item, tails, |made|);
      if depth >= CIRCULAR_LIMIT { return null; }
      Kid(item, tails, |made|);
      last := CopyChild(c, last, child, depth + 1, tails, trees, made);
      if last == null { return null; }
      ReprsMore(made, last);
      below, linked := below + last.repr, linked + {last.links};
      made := made + [last];
      child := child.links.next;
    }
    HeightOfKids(item, tails, depth);
    CloseList(c, last, item, made, tails);
    return c;
  }

  /** cJSON_Duplicate: a tree of new nodes equal to the source, which stays as it is, or NULL. */
  method DuplicateItem(item: Item?, recurse: bool, ghost tails: bool) returns (copy: Item?)
    requires item != null ==> item.Valid(tails)
    ensures copy == null <==> item == null || (recurse && Duplicate(item.tree) == None)
    ensures copy != null ==> copy.Valid(true) && fresh(copy.repr) && fresh(copy.links)
    ensures copy != null ==> copy.links.next == null && copy.links.prev == null
    ensures copy != null ==> copy.key == item.key && copy.tree == if recurse then item.tree else item.content
  {
    if item == null { return null; }
    DuplicateExact(item.tree);
    copy := DuplicateRec(item, 0, recurse, tails);
  }

  /** One turn of the loop over the children. */
  method CopyChild(
    copy: Item, last: Item?, child: Item, depth: nat, ghost tails: bool, ghost trees: seq<Keyed<Json>>,
        ghost made: seq<Item>)
    returns (newChild: Item?)
    requires child.Valid(tails) && depth <= CIRCULAR_LIMIT
    requires Copied(trees, made) && |made| < |trees| && Strung(copy.child, last, made)
    requires trees[|made|] == Keyed(child.key, child.tree) && copy !in Reprs(made)
    modifies LinksOf(made), copy`child
    ensures newChild == null <==> depth + Height(old(child.tree)) > CIRCULAR_LIMIT
    ensures newChild != null ==> fresh(newChild.repr) && fresh(newChild.links) && Copied(trees, made + [newChild])
    ensures newChild != null ==> Strung(copy.child, newChild, made + [newChild])
    ensures newChild != null ==> Reprs(made) == old(Reprs(made))
    decreases child.repr, 1
  {
    hide Height, Item.Valid, Copied, Assembled, Reprs, LinksOf, Strung, Apart, Chained, Closed, Shell;
    LastAmong(copy.child, last, made);
    InReprs(trees, made);
    ghost var below: set<object>, linked: set<object> :| below == Reprs(made) && linked == LinksOf(made);
    newChild := DuplicateRec(child, depth, true, tails);
    if newChild != null {
      TakeChild(copy, last, newChild, trees, made);
    }
  }

  lemma NothingStrung()
    ensures Strung(null, null, [])
  {
  }
}
