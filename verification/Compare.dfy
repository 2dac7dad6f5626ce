/** The two tree comparisons: sort and walk (compare_json), look up both ways (cJSON_Compare). */
module Compare {
  import opened CStrings
  import opened Sorting
  import opened Json

  lemma ChildHeights(t: Json)
    ensures t.Array? ==> forall k :: 0 <= k < |t.items| ==> Height(t.items[k]) < Height(t)
    ensures t.Object? ==> forall k :: 0 <= k < |t.members| ==> Height(t.members[k].item) < Height(t)
  {
  }

  function SortedMembers(ms: seq<Member>, cs: bool): (r: seq<Member>)
    ensures forall k :: 0 <= k < |r| ==> r[k] in ms
  {
    var r := Sort(ms, cs);
    SortSorts(ms, cs);
    SameMembers(r, ms);
    r
  }

  predicate SameKind(a: Json, b: Json) {
    match a
    case Invalid => b.Invalid?
    case Null => b.Null?
    case False => b.False?
    case True => b.True?
    case Number(_) => b.Number?
    case String(_) => b.String?
    case Raw(_) => b.Raw?
    case Array(_) => b.Array?
    case Object(_) => b.Object?
  }

  /** compare_json */
  predicate CompareJson(a: Json, b: Json, cs: bool)
    decreases Height(a), 1, 0
  {
    ChildHeights(a);
    SameKind(a, b) &&
    match a
    case Number(n) => n == b.n
    case String(s) => s == b.s
    case Array(items) => CompareItems(items, b.items, cs, Height(a))
    case Object(ms) => CompareMembers(SortedMembers(ms, cs), SortedMembers(b.members, cs), cs, Height(a))
    case _ => true
  }

  predicate CompareItems(xs: seq<Json>, ys: seq<Json>, cs: bool, ghost bound: nat)
    requires forall k :: 0 <= k < |xs| ==> Height(xs[k]) < bound
    decreases bound, 0, |xs|
  {
    if xs == [] || ys == [] then xs == [] && ys == []
    else CompareJson(xs[0], ys[0], cs) && CompareItems(xs[1..], ys[1..], cs, bound)
  }

  predicate CompareMembers(xs: seq<Member>, ys: seq<Member>, cs: bool, ghost bound: nat)
    requires forall k :: 0 <= k < |xs| ==> Height(xs[k].item) < bound
    decreases bound, 0, |xs|
  {
    if xs == [] || ys == [] then xs == [] && ys == []
    else
      && Norm(xs[0].key, cs) == Norm(ys[0].key, cs)
      && CompareJson(xs[0].item, ys[0].item, cs)
      && CompareMembers(xs[1..], ys[1..], cs, bound)
  }

  /** cJSON_Compare */
  predicate LookupCompare(a: Json, b: Json, cs: bool)
    decreases Height(a) + Height(b), 1, 0
  {
    ChildHeights(a);
    ChildHeights(b);
    SameKind(a, b) &&
    match a
    case Invalid => false
    case Number(n) => n == b.n
    case String(s) => s == b.s
    case Raw(s) => s == b.s
    case Array(items) =>
      LookupItems(items, b.items, cs, Height(a), Height(b))
    case Object(ms) =>
      FoundIn(ms, b.members, cs, Height(a), Height(b)) && FoundIn(b.members, ms, cs, Height(b), Height(a))
    case _ => true
  }

  predicate LookupItems(xs: seq<Json>, ys: seq<Json>, cs: bool, ghost hx: nat, ghost hy: nat)
    requires forall k :: 0 <= k < |xs| ==> Height(xs[k]) < hx
    requires forall k :: 0 <= k < |ys| ==> Height(ys[k]) < hy
    decreases hx + hy, 0, |xs|
  {
    if xs == [] || ys == [] then xs == [] && ys == []
    else LookupCompare(xs[0], ys[0], cs) && LookupItems(xs[1..], ys[1..], cs, hx, hy)
  }

  /** Every member has an equal counterpart under its key. */
  predicate FoundIn(xs: seq<Member>, ys: seq<Member>, cs: bool, ghost hx: nat, ghost hy: nat)
    requires forall k :: 0 <= k < |xs| ==> Height(xs[k].item) < hx
    requires forall k :: 0 <= k < |ys| ==> Height(ys[k].item) < hy
    decreases hx + hy, 0, |xs|
  {
    if xs == [] then true
    else
      var j := IndexOf(ys, xs[0].key, cs);
      && j < |ys|
      && LookupCompare(xs[0].item, ys[j].item, cs)
      && FoundIn(xs[1..], ys, cs, hx, hy)
  }

  // ----- what compare_json does not look at -----

  /** A value with the texts of its raw nodes taken out. */
  function Unraw(v: Value): Value {
    match v
    case VRaw(_) => VRaw("")
    case VArray(items) => VArray(seq(|items|, i requires 0 <= i < |items| => Unraw(items[i])))
    case VObject(fields) => VObject(map k | k in fields :: Unraw(fields[k]))
    case _ => v
  }

  function UnrawFields(f: map<string, Value>): map<string, Value> {
    map k | k in f :: Unraw(f[k])
  }

  /** A value without invalid nodes. */
  predicate Whole(v: Value) {
    match v
    case VInvalid => false
    case VArray(items) => forall i :: 0 <= i < |items| ==> Whole(items[i])
    case VObject(fields) => forall k :: k in fields ==> Whole(fields[k])
    case _ => true
  }

  /** Trees on which both comparisons mean equality. */
  predicate Comparable(t: Json, cs: bool) {
    Plain(t) && KeysDistinct(t, cs)
  }

  predicate ItemsDistinct(ms: seq<Member>, cs: bool) {
    forall k :: 0 <= k < |ms| ==> KeysDistinct(ms[k].item, cs)
  }

  lemma SortedForWalk(ms: seq<Member>, cs: bool)
    requires Distinct(ms, cs) && ItemsDistinct(ms, cs)
    ensures ItemsDistinct(SortedMembers(ms, cs), cs) && StrictlySorted(SortedMembers(ms, cs), cs)
    ensures Fields(SortedMembers(ms, cs), cs) == Fields(ms, cs)
  {
    SortedMeaning(ms, cs);
  }

  /** compare_json decides whether two trees denote the same value but for the texts of raw nodes. */
  lemma {:induction false} CompareJsonUnraw(a: Json, b: Json, cs: bool)
    requires KeysDistinct(a, cs) && KeysDistinct(b, cs)
    ensures CompareJson(a, b, cs) <==> Unraw(Meaning(a, cs)) == Unraw(Meaning(b, cs))
    decreases Height(a), 2, 0
  {
    ChildHeights(a);
    if a.Array? && b.Array? {
      CompareItemsUnraw(a.items, b.items, cs, Height(a));
    } else if a.Object? && b.Object? {
      CompareObjectsUnraw(a, b, cs);
    }
  }

  lemma {:induction false} CompareObjectsUnraw(a: Json, b: Json, cs: bool)
    requires a.Object? && b.Object? && KeysDistinct(a, cs) && KeysDistinct(b, cs)
    ensures CompareJson(a, b, cs) <==> Unraw(Meaning(a, cs)) == Unraw(Meaning(b, cs))
    decreases Height(a), 1, 0
  {
    hide SortedMembers, Height, CompareMembers, Sort, StrictlySorted, Distinct, Fields;
    ChildHeights(a);
    SortedForWalk(a.members, cs);
    SortedForWalk(b.members, cs);
    CompareMembersUnraw(SortedMembers(a.members, cs), SortedMembers(b.members, cs), cs, Height(a));
  }

  lemma {:induction false} CompareItemsUnraw(xs: seq<Json>, ys: seq<Json>, cs: bool, bound: nat)
    requires forall k :: 0 <= k < |xs| ==> Height(xs[k]) < bound
    requires forall k :: 0 <= k < |xs| ==> KeysDistinct(xs[k], cs)
    requires forall k :: 0 <= k < |ys| ==> KeysDistinct(ys[k], cs)
    ensures CompareItems(xs, ys, cs, bound) <==> Unraw(Meaning(Array(xs), cs)) == Unraw(Meaning(Array(ys), cs))
    decreases bound, 0, |xs|
  {
    if xs != [] && ys != [] {
      CompareJsonUnraw(xs[0], ys[0], cs);
      CompareItemsUnraw(xs[1..], ys[1..], cs, bound);
      UnrawSplit(xs, ys, cs);
    } else {
      UnrawLengths(xs, ys, cs);
    }
  }

  lemma UnrawSplit(xs: seq<Json>, ys: seq<Json>, cs: bool)
    requires xs != [] && ys != []
    ensures Unraw(Meaning(Array(xs), cs)) == Unraw(Meaning(Array(ys), cs)) <==>
            && Unraw(Meaning(xs[0], cs)) == Unraw(Meaning(ys[0], cs))
            && Unraw(Meaning(Array(xs[1..]), cs)) == Unraw(Meaning(Array(ys[1..]), cs))
  {
    var p, q := Unraw(Meaning(Array(xs), cs)).items, Unraw(Meaning(Array(ys), cs)).items;
    assert Unraw(Meaning(Array(xs[1..]), cs)).items == p[1..];
    assert Unraw(Meaning(Array(ys[1..]), cs)).items == q[1..];
    assert p == [p[0]] + p[1..] && q == [q[0]] + q[1..];
  }

  lemma UnrawLengths(xs: seq<Json>, ys: seq<Json>, cs: bool)
    requires xs == [] || ys == []
    ensures Unraw(Meaning(Array(xs), cs)) == Unraw(Meaning(Array(ys), cs)) <==> xs == [] && ys == []
  {
    assert |Unraw(Meaning(Array(xs), cs)).items| == |xs| && |Unraw(Meaning(Array(ys), cs)).items| == |ys|;
  }

  lemma {:induction false} CompareMembersUnraw(xs: seq<Member>, ys: seq<Member>, cs: bool, bound: nat)
    requires forall k :: 0 <= k < |xs| ==> Height(xs[k].item) < bound
    requires ItemsDistinct(xs, cs) && ItemsDistinct(ys, cs)
    requires StrictlySorted(xs, cs) && StrictlySorted(ys, cs)
    ensures CompareMembers(xs, ys, cs, bound) <==> UnrawFields(Fields(xs, cs)) == UnrawFields(Fields(ys, cs))
    decreases bound, 0, |xs|
  {
    hide Unraw, Meaning;
    var f, g := UnrawFields(Fields(xs, cs)), UnrawFields(Fields(ys, cs));
    if xs == [] || ys == [] {
      if xs != [] { assert Norm(xs[0].key, cs) in f; }
      if ys != [] { assert Norm(ys[0].key, cs) in g; }
    } else {
      CompareJsonUnraw(xs[0].item, ys[0].item, cs);
      CompareMembersUnraw(xs[1..], ys[1..], cs, bound);
      assert f.Keys == Fields(xs, cs).Keys && g.Keys == Fields(ys, cs).Keys;
      HeadIsLeast(xs, ys, cs);
      if Norm(xs[0].key, cs) == Norm(ys[0].key, cs) {
        UnrawFieldsSplit(xs, ys, cs);
      }
    }
  }

  lemma UnrawFieldsSplit(xs: seq<Member>, ys: seq<Member>, cs: bool)
    requires xs != [] && ys != [] && Distinct(xs, cs) && Distinct(ys, cs)
    requires Norm(xs[0].key, cs) == Norm(ys[0].key, cs)
    ensures UnrawFields(Fields(xs, cs)) == UnrawFields(Fields(ys, cs)) <==>
            && Unraw(Meaning(xs[0].item, cs)) == Unraw(Meaning(ys[0].item, cs))
            && UnrawFields(Fields(xs[1..], cs)) == UnrawFields(Fields(ys[1..], cs))
  {
    hide Unraw, Meaning;
    var k := Norm(xs[0].key, cs);
    TailFields(xs, cs);
    TailFields(ys, cs);
    var f, g := UnrawFields(Fields(xs, cs)), UnrawFields(Fields(ys, cs));
    assert UnrawFields(Fields(xs[1..], cs)) == f - {k};
    assert UnrawFields(Fields(ys[1..], cs)) == g - {k};
    MapsSplit(f, g, k);
  }

  /** Without raw nodes nothing is overlooked, and trees without invalid nodes denote whole values. */
  lemma {:induction false} PlainMeaning(t: Json, cs: bool)
    requires Plain(t)
    ensures Unraw(Meaning(t, cs)) == Meaning(t, cs) && Whole(Meaning(t, cs))
  {
    match t
    case Array(items) =>
      forall i | 0 <= i < |items| { PlainMeaning(items[i], cs); }
    case Object(ms) => PlainFields(ms, cs);
    case _ =>
  }

  lemma {:induction false} PlainFields(ms: seq<Member>, cs: bool)
    requires forall i :: 0 <= i < |ms| ==> Plain(ms[i].item)
    ensures UnrawFields(Fields(ms, cs)) == Fields(ms, cs)
    ensures forall k :: k in Fields(ms, cs) ==> Whole(Fields(ms, cs)[k])
  {
    if ms == [] {
    } else {
      PlainMeaning(ms[0].item, cs);
      PlainFields(ms[1..], cs);
    }
  }

  /** On plain trees compare_json decides whether they denote the same value. */
  lemma CompareJsonExact(a: Json, b: Json, cs: bool)
    requires Comparable(a, cs) && Comparable(b, cs)
    ensures CompareJson(a, b, cs) <==> Meaning(a, cs) == Meaning(b, cs)
  {
    CompareJsonUnraw(a, b, cs);
    PlainMeaning(a, cs);
    PlainMeaning(b, cs);
  }

  lemma MapsSplit(f: map<string, Value>, g: map<string, Value>, k: string)
    requires k in f && k in g
    ensures f == g <==> f[k] == g[k] && f - {k} == g - {k}
  {
    if f[k] == g[k] && f - {k} == g - {k} {
      assert f == (f - {k})[k := f[k]];
      assert g == (g - {k})[k := g[k]];
    }
  }

  lemma StrictDistinct<T>(xs: seq<Keyed<T>>, cs: bool)
    requires StrictlySorted(xs, cs)
    ensures Distinct(xs, cs)
  {
    forall i, j | 0 <= i < j < |xs|
      ensures Norm(xs[i].key, cs) != Norm(xs[j].key, cs)
    {
      assert Before(xs[i].key, xs[j].key, cs);
      BeforeAsymmetric(xs[i].key, xs[j].key, cs);
    }
  }

  lemma FirstField(xs: seq<Member>, cs: bool)
    requires xs != []
    ensures Fields(xs, cs) == Fields(xs[1..], cs)[Norm(xs[0].key, cs) := Meaning(xs[0].item, cs)]
  {
  }

  /** The head of a sorted object is dropped from its fields by taking the tail. */
  lemma TailFields(xs: seq<Member>, cs: bool)
    requires xs != [] && Distinct(xs, cs)
    ensures Norm(xs[0].key, cs) !in Fields(xs[1..], cs)
    ensures Fields(xs[1..], cs) == Fields(xs, cs) - {Norm(xs[0].key, cs)}
  {
    hide Norm, Meaning;
    var k := Norm(xs[0].key, cs);
    FirstField(xs, cs);
    hide Fields;
    forall i | 0 <= i < |xs[1..]| ensures Norm(xs[1..][i].key, cs) != k { assert xs[1..][i] == xs[i + 1]; }
    if k in Fields(xs[1..], cs) {
      var i := FieldsKey(xs[1..], k, cs);
      assert false;
    }
  }

  lemma SameFold(a: string, b: string, cs: bool)
    requires Norm(a, cs) == Norm(b, cs)
    ensures Fold(a) == Fold(b)
  {
  }

  lemma NeitherBefore(a: string, b: string, cs: bool)
    requires !Before(a, b, cs) && !Before(b, a, cs)
    ensures Norm(a, cs) == Norm(b, cs) && Fold(a) == Fold(b)
  {
    BeforeAsymmetric(a, b, cs);
  }

  lemma AbsentKey(ms: seq<Member>, key: string, cs: bool)
    requires StrictlySorted(ms, cs) && (ms == [] || Before(key, ms[0].key, cs))
    ensures Norm(key, cs) !in Fields(ms, cs)
  {
    if Norm(key, cs) in Fields(ms, cs) {
      var i := FieldsKey(ms, Norm(key, cs), cs);
      BeforeAsymmetric(key, ms[i].key, cs);
      BeforeAsymmetric(key, ms[0].key, cs);
    }
  }

  lemma HeadIsLeast(xs: seq<Member>, ys: seq<Member>, cs: bool)
    requires xs != [] && ys != [] && StrictlySorted(xs, cs) && StrictlySorted(ys, cs)
    ensures Fields(xs, cs).Keys == Fields(ys, cs).Keys ==> Norm(xs[0].key, cs) == Norm(ys[0].key, cs)
    ensures Distinct(xs, cs) && Distinct(ys, cs)
  {
    StrictDistinct(xs, cs);
    StrictDistinct(ys, cs);
    if Fields(xs, cs).Keys == Fields(ys, cs).Keys {
      assert Norm(xs[0].key, cs) in Fields(xs, cs).Keys && Norm(ys[0].key, cs) in Fields(ys, cs).Keys;
      var j := FieldsKey(ys, Norm(xs[0].key, cs), cs);
      var i := FieldsKey(xs, Norm(ys[0].key, cs), cs);
      BeforeAsymmetric(xs[0].key, ys[0].key, cs);
      if i > 0 && j > 0 {
        assert false;
      }
    }
  }

  /** cJSON_Compare decides whether two trees denote the same value, and no invalid node is equal to anything. */
  lemma {:induction false} LookupCompareExact(a: Json, b: Json, cs: bool)
    requires KeysDistinct(a, cs) && KeysDistinct(b, cs)
    ensures LookupCompare(a, b, cs) <==> Meaning(a, cs) == Meaning(b, cs) && Whole(Meaning(a, cs))
    decreases Height(a) + Height(b), 1, 0
  {
    ChildHeights(a);
    ChildHeights(b);
    if a.Array? && b.Array? {
      LookupItemsExact(a.items, b.items, cs, Height(a), Height(b));
    } else if a.Object? && b.Object? {
      FoundInExact(a.members, b.members, cs, Height(a), Height(b));
      FoundInExact(b.members, a.members, cs, Height(b), Height(a));
      FieldsEqual(Fields(a.members, cs), Fields(b.members, cs));
    }
  }

  lemma {:induction false} LookupItemsExact(xs: seq<Json>, ys: seq<Json>, cs: bool, hx: nat, hy: nat)
    requires forall k :: 0 <= k < |xs| ==> Height(xs[k]) < hx
    requires forall k :: 0 <= k < |ys| ==> Height(ys[k]) < hy
    requires forall k :: 0 <= k < |xs| ==> KeysDistinct(xs[k], cs)
    requires forall k :: 0 <= k < |ys| ==> KeysDistinct(ys[k], cs)
    ensures LookupItems(xs, ys, cs, hx, hy) <==>
            Meaning(Array(xs), cs) == Meaning(Array(ys), cs) && Whole(Meaning(Array(xs), cs))
    decreases hx + hy, 0, |xs|
  {
    if xs != [] && ys != [] {
      LookupCompareExact(xs[0], ys[0], cs);
      LookupItemsExact(xs[1..], ys[1..], cs, hx, hy);
      ArraySplit(xs, ys, cs);
      WholeSplit(xs, cs);
    } else {
      ArrayLengths(xs, ys, cs);
    }
  }

  /** Non-empty arrays are equal exactly when their heads and their tails are. */
  lemma ArraySplit(xs: seq<Json>, ys: seq<Json>, cs: bool)
    requires xs != [] && ys != []
    ensures Meaning(Array(xs), cs) == Meaning(Array(ys), cs) <==>
            && Meaning(xs[0], cs) == Meaning(ys[0], cs)
            && Meaning(Array(xs[1..]), cs) == Meaning(Array(ys[1..]), cs)
  {
    var p, q := Meaning(Array(xs), cs).items, Meaning(Array(ys), cs).items;
    assert Meaning(Array(xs[1..]), cs).items == p[1..];
    assert Meaning(Array(ys[1..]), cs).items == q[1..];
    assert p == [p[0]] + p[1..] && q == [q[0]] + q[1..];
  }

  lemma WholeSplit(xs: seq<Json>, cs: bool)
    requires xs != []
    ensures Whole(Meaning(Array(xs), cs)) <==> Whole(Meaning(xs[0], cs)) && Whole(Meaning(Array(xs[1..]), cs))
  {
    var p := Meaning(Array(xs), cs).items;
    assert Meaning(Array(xs[1..]), cs).items == p[1..];
    assert p == [p[0]] + p[1..];
  }

  lemma ArrayLengths(xs: seq<Json>, ys: seq<Json>, cs: bool)
    ensures Meaning(Array(xs), cs) == Meaning(Array(ys), cs) ==> |xs| == |ys|
  {
    assert |Meaning(Array(xs), cs).items| == |xs| && |Meaning(Array(ys), cs).items| == |ys|;
  }

  ghost predicate FieldsWithin(f: map<string, Value>, g: map<string, Value>) {
    forall k :: k in f ==> k in g && f[k] == g[k]
  }

  lemma FieldsEqual(f: map<string, Value>, g: map<string, Value>)
    ensures FieldsWithin(f, g) && FieldsWithin(g, f) <==> f == g
  {
  }

  lemma WithinSplit(f: map<string, Value>, g: map<string, Value>, k: string)
    requires k in f
    ensures FieldsWithin(f, g) <==> FieldsWithin(f - {k}, g) && k in g && f[k] == g[k]
    ensures Whole(VObject(f)) <==> Whole(VObject(f - {k})) && Whole(f[k])
  {
    var rest := f - {k};
    assert forall j :: j in f ==> j == k || (j in rest && rest[j] == f[j]);
    assert Whole(VObject(f)) <==> forall j :: j in f ==> Whole(f[j]);
    assert Whole(VObject(rest)) <==> forall j :: j in rest ==> Whole(rest[j]);
  }

  lemma NoFields(cs: bool)
    ensures FieldsWithin(Fields([], cs), map[]) && Fields([], cs) == map[] && Whole(VObject(map[]))
  {
  }

  lemma {:induction false} FoundInExact(xs: seq<Member>, ys: seq<Member>, cs: bool, hx: nat, hy: nat)
    requires forall k :: 0 <= k < |xs| ==> Height(xs[k].item) < hx
    requires forall k :: 0 <= k < |ys| ==> Height(ys[k].item) < hy
    requires ItemsDistinct(xs, cs) && ItemsDistinct(ys, cs) && Distinct(xs, cs)
    ensures FoundIn(xs, ys, cs, hx, hy) <==>
            FieldsWithin(Fields(xs, cs), Fields(ys, cs)) && Whole(VObject(Fields(xs, cs)))
    decreases hx + hy, 0, |xs|
  {
    hide Whole, Meaning, KeysDistinct, LookupCompare;
    if xs == [] {
      assert Whole(VObject(map[])) by { NoFields(cs); }
    } else {
      var f, g := Fields(xs, cs), Fields(ys, cs);
      var k, j := Norm(xs[0].key, cs), IndexOf(ys, xs[0].key, cs);
      FoundInExact(xs[1..], ys, cs, hx, hy);
      TailFields(xs, cs);
      FieldsLookup(ys, xs[0].key, cs);
      if j < |ys| {
        LookupCompareExact(xs[0].item, ys[j].item, cs);
      }
      WithinSplit(f, g, k);
    }
  }

  /** cJSON_Compare with its shortcut for one and the same node. */
  predicate CompareNodes(a: Json, b: Json, same: bool, cs: bool) {
    SameKind(a, b) && !a.Invalid? && (same || LookupCompare(a, b, cs))
  }

  /** The shortcut matters for a tree with an invalid node inside alone, which it takes for equal to itself. */
  lemma CompareNodesExact(a: Json, b: Json, same: bool, cs: bool)
    requires KeysDistinct(a, cs) && KeysDistinct(b, cs) && (same ==> a == b)
    ensures CompareNodes(a, b, same, cs) <==>
            !a.Invalid? && Meaning(a, cs) == Meaning(b, cs) && (same || Whole(Meaning(a, cs)))
    ensures CompareNodes(a, a, true, cs) == CompareNodes(a, a, false, cs) <==> a.Invalid? || Whole(Meaning(a, cs))
  {
    hide LookupCompare, KeysDistinct;
    LookupCompareExact(a, b, cs);
    LookupCompareExact(a, a, cs);
  }

  /**
   * The two comparisons agree exactly when trees that are equal but for raw texts are equal in those too and
   * have no invalid node.
   */
  lemma ComparisonsAgreeExact(a: Json, b: Json, cs: bool)
    requires KeysDistinct(a, cs) && KeysDistinct(b, cs)
    ensures CompareJson(a, b, cs) == LookupCompare(a, b, cs) <==>
            (Unraw(Meaning(a, cs)) == Unraw(Meaning(b, cs)) ==>
                Meaning(a, cs) == Meaning(b, cs) && Whole(Meaning(a, cs)))
  {
    hide CompareJson, LookupCompare, Meaning, Unraw, Whole;
    CompareJsonUnraw(a, b, cs);
    LookupCompareExact(a, b, cs);
  }

  /** On plain trees they agree. */
  lemma ComparisonsAgree(a: Json, b: Json, cs: bool)
    requires Comparable(a, cs) && Comparable(b, cs)
    ensures CompareJson(a, b, cs) == LookupCompare(a, b, cs)
  {
    ComparisonsAgreeExact(a, b, cs);
    PlainMeaning(a, cs);
    PlainMeaning(b, cs);
  }

  /** Raw nodes are the exception: compare_json takes any two for equal. */
  lemma RawNodesDiffer()
    ensures CompareJson(Raw("1"), Raw("2"), true) && !LookupCompare(Raw("1"), Raw("2"), true)
  {
  }
}
