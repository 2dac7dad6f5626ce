/** JSON trees as cJSON holds them, and what they denote. */
module Json {
  import opened CStrings
  import opened Sorting
  import opened Options

  /** valueint, a 32-bit int. */
  type Int32 = n: int | -0x8000_0000 <= n < 0x8000_0000

  /** One cJSON node; a member of an object carries its key in `string`. */
  datatype Json =
    | Invalid
    | Null
    | False
    | True
    | Number(n: Int32)
    | String(s: string)
    | Raw(s: string)
    | Array(items: seq<Json>)
    | Object(members: seq<Keyed<Json>>)

  type Member = Keyed<Json>

  /** What a tree denotes: arrays are sequences, objects are maps from keys. */
  datatype Value =
    | VInvalid
    | VNull
    | VBool(b: bool)
    | VNumber(n: int)
    | VString(s: string)
    | VRaw(s: string)
    | VArray(items: seq<Value>)
    | VObject(fields: map<string, Value>)

  function Meaning(t: Json, cs: bool): Value {
    match t
    case Invalid => VInvalid
    case Null => VNull
    case False => VBool(false)
    case True => VBool(true)
    case Number(n) => VNumber(n)
    case String(s) => VString(s)
    case Raw(s) => VRaw(s)
    case Array(items) => VArray(seq(|items|, i requires 0 <= i < |items| => Meaning(items[i], cs)))
    case Object(members) => VObject(Fields(members, cs))
  }

  /** Lookup finds the first member of a key, so the first one counts. */
  function Fields(ms: seq<Member>, cs: bool): map<string, Value> {
    if ms == [] then map[]
    else Fields(ms[1..], cs)[Norm(ms[0].key, cs) := Meaning(ms[0].item, cs)]
  }

  /** get_object_item: the index of the first member with the key, |ms| for NULL. */
  function IndexOf<T>(ms: seq<Keyed<T>>, key: string, cs: bool): (r: nat)
    ensures r <= |ms|
    ensures r < |ms| ==> Norm(ms[r].key, cs) == Norm(key, cs)
    ensures forall j :: 0 <= j < r ==> Norm(ms[j].key, cs) != Norm(key, cs)
  {
    if ms == [] then 0
    else if Norm(ms[0].key, cs) == Norm(key, cs) then 0
    else 1 + IndexOf(ms[1..], key, cs)
  }

  lemma {:induction false} FieldsLookup(ms: seq<Member>, key: string, cs: bool)
    ensures Norm(key, cs) in Fields(ms, cs) <==> IndexOf(ms, key, cs) < |ms|
    ensures IndexOf(ms, key, cs) < |ms| ==>
              Fields(ms, cs)[Norm(key, cs)] == Meaning(ms[IndexOf(ms, key, cs)].item, cs)
  {
    if ms == [] {
    } else {
      FieldsLookup(ms[1..], key, cs);
    }
  }

  lemma {:induction false} FieldsKey(ms: seq<Member>, k: string, cs: bool) returns (i: nat)
    requires k in Fields(ms, cs)
    ensures i < |ms| && Norm(ms[i].key, cs) == k
  {
    if Norm(ms[0].key, cs) == k {
      i := 0;
    } else {
      i := FieldsKey(ms[1..], k, cs);
      i := i + 1;
    }
  }

  lemma FieldAt(ms: seq<Member>, i: nat, cs: bool)
    requires i < |ms| && Distinct(ms, cs)
    ensures IndexOf(ms, ms[i].key, cs) == i
    ensures Norm(ms[i].key, cs) in Fields(ms, cs)
    ensures Fields(ms, cs)[Norm(ms[i].key, cs)] == Meaning(ms[i].item, cs)
  {
    FieldsLookup(ms, ms[i].key, cs);
    var r := IndexOf(ms, ms[i].key, cs);
    assert r <= i;
  }

  /** Rearranging the members of an object with distinct keys keeps its meaning. */
  lemma FieldsRearranged(xs: seq<Member>, ys: seq<Member>, cs: bool)
    requires SameItems(xs, ys) && Distinct(xs, cs)
    ensures Distinct(ys, cs) && Fields(xs, cs) == Fields(ys, cs)
  {
    SameItemsDistinct(xs, ys, cs);
    SameMembers(xs, ys);
    FieldsSubset(xs, ys, cs);
    FieldsSubset(ys, xs, cs);
  }

  lemma FieldsSubset(xs: seq<Member>, ys: seq<Member>, cs: bool)
    requires Distinct(xs, cs) && Distinct(ys, cs) && forall x :: x in xs ==> x in ys
    ensures forall k :: k in Fields(xs, cs) ==> k in Fields(ys, cs) && Fields(xs, cs)[k] == Fields(ys, cs)[k]
  {
    forall k | k in Fields(xs, cs)
      ensures k in Fields(ys, cs) && Fields(xs, cs)[k] == Fields(ys, cs)[k]
    {
      var i := FieldsKey(xs, k, cs);
      FieldAt(xs, i, cs);
      assert xs[i] in ys;
      var j :| 0 <= j < |ys| && ys[j] == xs[i];
      FieldAt(ys, j, cs);
    }
  }

  lemma SameMembers(xs: seq<Member>, ys: seq<Member>)
    requires SameItems(xs, ys)
    ensures forall m :: m in xs <==> m in ys
  {
    SameItemsMembers(xs, ys);
  }

  lemma SortedMeaning(ms: seq<Member>, cs: bool)
    requires Distinct(ms, cs)
    ensures Fields(Sort(ms, cs), cs) == Fields(ms, cs)
    ensures StrictlySorted(Sort(ms, cs), cs) && Distinct(Sort(ms, cs), cs)
    ensures forall m :: m in Sort(ms, cs) <==> m in ms
  {
    SortStrict(ms, cs);
    FieldsRearranged(ms, Sort(ms, cs), cs);
    SameMembers(Sort(ms, cs), ms);
  }

  /** Nodes that JSON text can express. */
  predicate Plain(t: Json) {
    match t
    case Invalid => false
    case Raw(_) => false
    case Array(items) => forall i :: 0 <= i < |items| ==> Plain(items[i])
    case Object(ms) => forall i :: 0 <= i < |ms| ==> Plain(ms[i].item)
    case _ => true
  }

  /** In every object the keys are pairwise different. */
  predicate KeysDistinct(t: Json, cs: bool) {
    match t
    case Array(items) => forall i :: 0 <= i < |items| ==> KeysDistinct(items[i], cs)
    case Object(ms) => Distinct(ms, cs) && forall i :: 0 <= i < |ms| ==> KeysDistinct(ms[i].item, cs)
    case _ => true
  }

  lemma DistinctFolded<T>(ms: seq<Keyed<T>>, cs: bool)
    requires Distinct(ms, false)
    ensures Distinct(ms, cs)
  {
  }

  lemma {:induction false} KeysDistinctFolded(t: Json, cs: bool)
    requires KeysDistinct(t, false)
    ensures KeysDistinct(t, cs)
  {
    match t
    case Array(items) =>
      forall i | 0 <= i < |items| { KeysDistinctFolded(items[i], cs); }
    case Object(ms) =>
      DistinctFolded(ms, cs);
      forall i | 0 <= i < |ms| { KeysDistinctFolded(ms[i].item, cs); }
    case _ =>
  }

  /** Edges on the longest path down. */
  function Height(t: Json): nat {
    match t
    case Array(items) => if items == [] then 0 else 1 + ItemsHeight(items)
    case Object(ms) => if ms == [] then 0 else 1 + MembersHeight(ms)
    case _ => 0
  }

  function ItemsHeight(items: seq<Json>): (h: nat)
    ensures forall x :: x in items ==> Height(x) <= h
    ensures items != [] ==> exists x :: x in items && Height(x) == h
  {
    if items == [] then 0
    else
      var rest := ItemsHeight(items[1..]);
      assert items == [items[0]] + items[1..];
      if Height(items[0]) > rest || |items| == 1 then
        assert items[0] in items;
        Height(items[0])
      else rest
  }

  function MembersHeight(ms: seq<Member>): (h: nat)
    ensures forall x :: x in ms ==> Height(x.item) <= h
    ensures ms != [] ==> exists x :: x in ms && Height(x.item) == h
  {
    if ms == [] then 0
    else
      var rest := MembersHeight(ms[1..]);
      assert ms == [ms[0]] + ms[1..];
      if Height(ms[0].item) > rest || |ms| == 1 then
        assert ms[0] in ms;
        Height(ms[0].item)
      else rest
  }

  const CIRCULAR_LIMIT: nat := 10000

  /** cJSON_Duplicate_rec: gives up below the depth limit. */
  function DuplicateRec(t: Json, depth: nat): Option<Json> {
    match t
    case Array(items) =>
      (match DuplicateItems(items, depth)
       case None => None
       case Some(copies) => Some(Array(copies)))
    case Object(ms) =>
      (match DuplicateMembers(ms, depth)
       case None => None
       case Some(copies) => Some(Object(copies)))
    case _ => Some(t)
  }

  function DuplicateItems(items: seq<Json>, depth: nat): Option<seq<Json>> {
    if items == [] then Some([])
    else if depth >= CIRCULAR_LIMIT then None
    else
      match DuplicateRec(items[0], depth + 1)
      case None => None
      case Some(copy) =>
        match DuplicateItems(items[1..], depth)
        case None => None
        case Some(rest) => Some([copy] + rest)
  }

  function DuplicateMembers(ms: seq<Member>, depth: nat): Option<seq<Member>> {
    if ms == [] then Some([])
    else if depth >= CIRCULAR_LIMIT then None
    else
      match DuplicateRec(ms[0].item, depth + 1)
      case None => None
      case Some(copy) =>
        match DuplicateMembers(ms[1..], depth)
        case None => None
        case Some(rest) => Some([Keyed(ms[0].key, copy)] + rest)
  }

  /** cJSON_Duplicate with recurse set. */
  function Duplicate(t: Json): Option<Json> {
    DuplicateRec(t, 0)
  }

  predicate Copyable(t: Json) {
    Height(t) <= CIRCULAR_LIMIT
  }

  lemma {:induction false} DuplicateRecExact(t: Json, depth: nat)
    requires depth <= CIRCULAR_LIMIT
    ensures DuplicateRec(t, depth) == if depth + Height(t) <= CIRCULAR_LIMIT then Some(t) else None
  {
    match t
    case Array(items) => DuplicateItemsExact(items, depth);
    case Object(ms) => DuplicateMembersExact(ms, depth);
    case _ =>
  }

  lemma {:induction false} DuplicateItemsExact(items: seq<Json>, depth: nat)
    requires depth <= CIRCULAR_LIMIT
    ensures DuplicateItems(items, depth) ==
            if items == [] || depth + 1 + ItemsHeight(items) <= CIRCULAR_LIMIT then Some(items) else None
  {
    if items != [] && depth < CIRCULAR_LIMIT {
      DuplicateRecExact(items[0], depth + 1);
      DuplicateItemsExact(items[1..], depth);
      assert items == [items[0]] + items[1..];
    }
  }

  lemma {:induction false} DuplicateMembersExact(ms: seq<Member>, depth: nat)
    requires depth <= CIRCULAR_LIMIT
    ensures DuplicateMembers(ms, depth) ==
            if ms == [] || depth + 1 + MembersHeight(ms) <= CIRCULAR_LIMIT then Some(ms) else None
  {
    if ms != [] && depth < CIRCULAR_LIMIT {
      DuplicateRecExact(ms[0].item, depth + 1);
      DuplicateMembersExact(ms[1..], depth);
      assert ms == [ms[0]] + ms[1..];
    }
  }

  /** A copy succeeds, and is the same tree, exactly up to the depth limit. */
  lemma DuplicateExact(t: Json)
    ensures Duplicate(t) == if Copyable(t) then Some(t) else None
  {
    DuplicateRecExact(t, 0);
  }
}
