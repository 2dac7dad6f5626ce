/** JSON Merge Patch: merge_patch against section 2 of RFC 7396, and the generator's round trip. */
module MergePatch {
  import opened CStrings
  import opened Sorting
  import opened Json
  import opened Compare
  import opened Patch
  import opened PatchRoundTrip
  import opened Options
  import opened Sequences

  // ----- applying -----

  /** merge_patch; None is the NULL of a failed copy. */
  function MergeTree(target: Option<Json>, patch: Json, cs: bool): Option<Json>
    decreases patch, 1
  {
    if !patch.Object? then Duplicate(patch)
    else
      var ms := if target.Some? && target.value.Object? then target.value.members else [];
      match MergeMembers(ms, patch.members, cs)
      case None => None
      case Some(merged) => Some(Object(merged))
  }

  function MergeMembers(ms: seq<Member>, patch: seq<Member>, cs: bool): Option<seq<Member>>
    decreases patch, 0
  {
    if patch == [] then Some(ms)
    else
      var p := patch[0];
      var left := DeleteKey(ms, p.key, cs);
      if p.item.Null? then MergeMembers(left, patch[1..], cs)
      else
        match MergeTree(ItemAt(ms, p.key, cs), p.item, cs)
        case None => None
        case Some(merged) => MergeMembers(left + [Keyed(p.key, merged)], patch[1..], cs)
  }

  /** cJSON_DetachItemFromObject: the item under a key, if any. */
  function ItemAt(ms: seq<Member>, key: string, cs: bool): Option<Json> {
    var i := IndexOf(ms, key, cs);
    if i < |ms| then Some(ms[i].item) else None
  }

  class Target {
    var root: Option<Json>

    constructor (tree: Option<Json>)
      ensures root == tree
    {
      root := tree;
    }

    /** The loop of merge_patch over the members of an object patch. */
    method MergeObject(patch: seq<Member>, cs: bool)
      modifies this
      ensures root == MergeTree(old(root), Object(patch), cs)
    {
      hide DeleteKey, ItemAt, Duplicate;
      var ms := if root.Some? && root.value.Object? then root.value.members else [];
      var i := 0;
      ghost var start := ms;
      while i < |patch|
        invariant i <= |patch|
        invariant MergeMembers(start, patch, cs) == MergeMembers(ms, patch[i..], cs)
        invariant root == old(root)
      {
        assert patch[i..][1..] == patch[i + 1..];
        if patch[i].item.Null? {
          ms := DeleteKey(ms, patch[i].key, cs);
        } else {
          var replacement := MergeTree(ItemAt(ms, patch[i].key, cs), patch[i].item, cs);
          if replacement.None? {
            root := None;
            return;
          }
          ms := DeleteKey(ms, patch[i].key, cs) + [Keyed(patch[i].key, replacement.value)];
        }
        i := i + 1;
      }
      root := Some(Object(ms));
    }
  }

  /** The algorithm of section 2 of RFC 7396 on values; an absent target merges like null. */
  function MergeValue(target: Value, patch: Value): Value
    decreases patch
  {
    if !patch.VObject? then patch
    else
      var t := FieldsOf(target);
      VObject(map k | k in t.Keys + patch.fields.Keys && !(k in patch.fields && patch.fields[k] == VNull) ::
                if k in patch.fields then MergeValue(Under(t, k), patch.fields[k]) else t[k])
  }

  function FieldsOf(v: Value): map<string, Value> {
    if v.VObject? then v.fields else map[]
  }

  function Under(fields: map<string, Value>, k: string): Value {
    if k in fields then fields[k] else VNull
  }

  function MeaningOrNull(t: Option<Json>, cs: bool): Value {
    match t case None => VNull case Some(tree) => Meaning(tree, cs)
  }

  /** Every value that merge_patch copies whole can be copied. */
  predicate Mergeable(patch: Json) {
    match patch
    case Object(ms) => forall i :: 0 <= i < |ms| ==> Mergeable(ms[i].item)
    case _ => Copyable(patch)
  }

  predicate OptionDistinct(t: Option<Json>, cs: bool) {
    t.Some? ==> KeysDistinct(t.value, cs)
  }

  predicate MembersDistinct(ms: seq<Member>, cs: bool) {
    Distinct(ms, cs) && forall i :: 0 <= i < |ms| ==> KeysDistinct(ms[i].item, cs)
  }

  lemma FieldsDeleted(ms: seq<Member>, key: string, cs: bool)
    requires MembersDistinct(ms, cs)
    ensures MembersDistinct(DeleteKey(ms, key, cs), cs)
    ensures Fields(DeleteKey(ms, key, cs), cs) == Fields(ms, cs) - {Norm(key, cs)}
  {
    FieldsLookup(ms, key, cs);
    var i := IndexOf(ms, key, cs);
    if i < |ms| {
      FieldsWithout(ms, i, cs);
    }
  }

  lemma ItemAtMeaning(ms: seq<Member>, key: string, cs: bool)
    requires MembersDistinct(ms, cs)
    ensures MeaningOrNull(ItemAt(ms, key, cs), cs) == Under(Fields(ms, cs), Norm(key, cs))
    ensures OptionDistinct(ItemAt(ms, key, cs), cs)
  {
    FieldsLookup(ms, key, cs);
  }

  /** merge_patch computes the algorithm of RFC 7396, and fails only where a copy fails. */
  lemma {:induction false} MergeExact(target: Option<Json>, patch: Json, cs: bool)
    requires OptionDistinct(target, cs) && KeysDistinct(patch, cs)
    ensures MergeTree(target, patch, cs).Some? <==> Mergeable(patch)
    ensures Mergeable(patch) ==>
              && Meaning(MergeTree(target, patch, cs).value, cs) ==
                 MergeValue(MeaningOrNull(target, cs), Meaning(patch, cs))
              && OptionDistinct(MergeTree(target, patch, cs), cs)
    decreases patch, 1
  {
    if patch.Object? {
      var ms := if target.Some? && target.value.Object? then target.value.members else [];
      assert Fields(ms, cs) == FieldsOf(MeaningOrNull(target, cs));
      MergeMembersExact(ms, patch.members, cs);
      var r := MergeMembers(ms, patch.members, cs);
      if r.Some? {
        MergedFieldsAre(Fields(ms, cs), Fields(patch.members, cs), Fields(r.value, cs));
      }
    } else {
      DuplicateExact(patch);
    }
  }

  /** One field of a merge, as RFC 7396 has it. */
  ghost predicate MergedAt(t: map<string, Value>, p: map<string, Value>, r: map<string, Value>, k: string) {
    if k in p then
      (if p[k] == VNull then k !in r else k in r && r[k] == MergeValue(Under(t, k), p[k]))
    else
      (k in t <==> k in r) && (k in t ==> r[k] == t[k])
  }

  ghost predicate MergedFields(t: map<string, Value>, p: map<string, Value>, r: map<string, Value>) {
    forall k :: MergedAt(t, p, r, k)
  }

  lemma MergedFieldsAre(t: map<string, Value>, p: map<string, Value>, r: map<string, Value>)
    requires MergedFields(t, p, r)
    ensures MergeValue(VObject(t), VObject(p)) == VObject(r)
  {
    var m := MergeValue(VObject(t), VObject(p)).fields;
    forall k
      ensures k in m <==> k in r
      ensures k in m ==> m[k] == r[k]
    {
      assert MergedAt(t, p, r, k);
    }
    assert m == r;
  }

  lemma {:induction false} MergeMembersExact(ms: seq<Member>, patch: seq<Member>, cs: bool)
    requires MembersDistinct(ms, cs) && MembersDistinct(patch, cs)
    ensures MergeMembers(ms, patch, cs).Some? <==> Mergeable(Object(patch))
    ensures Mergeable(Object(patch)) ==>
              var r := MergeMembers(ms, patch, cs).value;
              MembersDistinct(r, cs) && MergedFields(Fields(ms, cs), Fields(patch, cs), Fields(r, cs))
    decreases patch, 0, 1
  {
    if patch == [] {
    } else {
      MergeableSplit(patch);
      if Mergeable(patch[0].item) {
        var next := MergeHead(ms, patch, cs);
        MergeMembersExact(next, patch[1..], cs);
        if Mergeable(Object(patch)) {
          hide MergedFields, MergeValue;
          var r := Fields(MergeMembers(next, patch[1..], cs).value, cs);
          MergedStep(Fields(ms, cs), Fields(patch, cs), Fields(next, cs), r, Norm(patch[0].key, cs));
        }
      } else {
        MergeExact(ItemAt(ms, patch[0].key, cs), patch[0].item, cs);
      }
    }
  }

  /** The first member of the patch merged. */
  lemma {:induction false} MergeHead(ms: seq<Member>, patch: seq<Member>, cs: bool) returns (next: seq<Member>)
    requires MembersDistinct(ms, cs) && MembersDistinct(patch, cs) && patch != [] && Mergeable(patch[0].item)
    ensures MembersDistinct(next, cs) && MembersDistinct(patch[1..], cs)
    ensures MergeMembers(ms, patch, cs) == MergeMembers(next, patch[1..], cs)
    ensures Fields(patch[1..], cs) == Fields(patch, cs) - {Norm(patch[0].key, cs)}
    ensures var (t, p, k) := (Fields(ms, cs), Fields(patch, cs), Norm(patch[0].key, cs));
            && k in p
            && Fields(next, cs) == if p[k] == VNull then t - {k} else (t - {k})[k := MergeValue(Under(t, k), p[k])]
    decreases patch, 0, 0
  {
    hide MergeValue, MergeTree;
    var p := patch[0];
    var left := DeleteKey(ms, p.key, cs);
    TailFields(patch, cs);
    FieldsDeleted(ms, p.key, cs);
    ItemAtMeaning(ms, p.key, cs);
    MergeExact(ItemAt(ms, p.key, cs), p.item, cs);
    if p.item.Null? {
      next := left;
    } else {
      var merged := Keyed(p.key, MergeTree(ItemAt(ms, p.key, cs), p.item, cs).value);
      FieldsPlus(left, merged, cs);
      next := left + [merged];
    }
  }

  lemma MergeableSplit(patch: seq<Member>)
    requires patch != []
    ensures Mergeable(Object(patch)) <==> Mergeable(patch[0].item) && Mergeable(Object(patch[1..]))
  {
  }

  /** One member merged, then the others. */
  lemma MergedStep(t: map<string, Value>, p: map<string, Value>, t': map<string, Value>, r: map<string, Value>,
      k: string)
    requires k in p
    requires t' == if p[k] == VNull then t - {k} else (t - {k})[k := MergeValue(Under(t, k), p[k])]
    requires MergedFields(t', p - {k}, r)
    ensures MergedFields(t, p, r)
  {
    hide MergeValue;
    forall j ensures MergedAt(t, p, r, j) {
      assert MergedAt(t', p - {k}, r, j);
    }
  }

  // ----- generating -----

  /** generate_merge_patch for two nodes; None is NULL. Nested calls ignore case whatever the outer one does. */
  function Generate(from: Json, to: Json, cs: bool): Option<Json>
    decreases Height(from), 1, 0
  {
    ChildHeights(from);
    if !to.Object? || !from.Object? then Duplicate(to)
    else
      var members := GenerateMembers(SortedMembers(from.members, cs), SortedMembers(to.members, cs), cs, Height(from));
      if members == [] then None else Some(Object(members))
  }

  /** cJSON_AddItemToObject adds nothing for a NULL item. */
  function Added(key: string, item: Option<Json>): seq<Member> {
    match item case None => [] case Some(t) => [Keyed(key, t)]
  }

  /** The walk compares keys with strcmp. */
  function GenerateMembers(from: seq<Member>, to: seq<Member>, cs: bool, ghost bound: nat): seq<Member>
    requires forall k :: 0 <= k < |from| ==> Height(from[k].item) < bound
    decreases bound, 0, |from| + |to|
  {
    if from == [] && to == [] then []
    else if to == [] || (from != [] && Before(from[0].key, to[0].key, true)) then
      Added(from[0].key, Some(Null)) + GenerateMembers(from[1..], to, cs, bound)
    else if from == [] || Before(to[0].key, from[0].key, true) then
      Added(to[0].key, Duplicate(to[0].item)) + GenerateMembers(from, to[1..], cs, bound)
    else if CompareJson(from[0].item, to[0].item, cs) then
      GenerateMembers(from[1..], to[1..], cs, bound)
    else
      Added(to[0].key, Generate(from[0].item, to[0].item, false)) + GenerateMembers(from[1..], to[1..], cs, bound)
  }

  // ----- keys on which the two orders agree -----

  /** On these keys strcmp and the order ignoring case say the same. */
  ghost predicate Agreeing(keys: iset<string>) {
    forall a, b :: a in keys && b in keys ==> (Before(a, b, true) <==> Before(a, b, false))
  }

  /** Both readings tell these keys apart. */
  ghost predicate ToldApart(keys: iset<string>, m: bool) {
    forall a, b :: a in keys && b in keys && Norm(a, m) == Norm(b, m) ==> a == b
  }

  lemma AgreeingApart(keys: iset<string>, m: bool)
    requires Agreeing(keys)
    ensures ToldApart(keys, m)
  {
    hide Norm;
    forall a, b | a in keys && b in keys && Norm(a, m) == Norm(b, m)
      ensures a == b
    {
      SameFold(a, b, m);
      assert !Before(a, b, false) && !Before(b, a, false) by { NotBefore(a, b); }
      NeitherBefore(a, b, true);
      assert Norm(a, true) == a && Norm(b, true) == b by { Unfolded(a); Unfolded(b); }
    }
  }

  lemma NotBefore(a: string, b: string)
    requires Fold(a) == Fold(b)
    ensures !Before(a, b, false) && !Before(b, a, false)
  {
    StrCmpZero(Fold(a), Fold(b));
  }

  lemma Unfolded(a: string)
    ensures Norm(a, true) == a
  {
  }

  /** All keys of a tree, those inside arrays too. */
  ghost predicate KeysIn(t: Json, keys: iset<string>) {
    match t
    case Array(items) => forall i :: 0 <= i < |items| ==> KeysIn(items[i], keys)
    case Object(ms) => forall i :: 0 <= i < |ms| ==> ms[i].key in keys && KeysIn(ms[i].item, keys)
    case _ => true
  }

  /**
   * What the generator needs of the keys when called with `cs` and judged by the reading `m` of keys. Outermost
   * and case-sensitive it takes any; nested calls sort ignoring case and walk by strcmp, and compare ignoring case.
   */
  ghost predicate Orderly(t: Json, cs: bool, m: bool, keys: iset<string>)
    decreases t
  {
    t.Object? ==>
      forall i :: 0 <= i < |t.members| ==>
        && ((cs && m) || t.members[i].key in keys) && Orderly(t.members[i].item, false, m, keys)
        && (cs != m ==> KeysIn(t.members[i].item, keys))
  }

  /** Trees for which the generator works. */
  ghost predicate Generable(t: Json, cs: bool, m: bool, keys: iset<string>) {
    Comparable(t, m) && Orderly(t, cs, m, keys)
  }

  /** The keys that a call may meet at its own level. */
  ghost function LevelKeys(cs: bool, m: bool, keys: iset<string>): iset<string> {
    if cs && m then iset k: string | |k| >= 0 else keys
  }

  ghost predicate MemberGenerable(x: Member, cs: bool, m: bool, keys: iset<string>) {
    x.key in LevelKeys(cs, m, keys) && Generable(x.item, false, m, keys) && (cs != m ==> KeysIn(x.item, keys))
  }

  ghost predicate MembersGenerable(ms: seq<Member>, cs: bool, m: bool, keys: iset<string>) {
    StrictlySorted(ms, true) && forall i :: 0 <= i < |ms| ==> MemberGenerable(ms[i], cs, m, keys)
  }

  predicate MembersCopyable(ms: seq<Member>) {
    forall i :: 0 <= i < |ms| ==> Copyable(ms[i].item)
  }

  lemma LevelApart(cs: bool, m: bool, keys: iset<string>)
    requires Agreeing(keys)
    ensures ToldApart(LevelKeys(cs, m, keys), m)
  {
    AgreeingApart(keys, m);
  }

  // ----- on such keys both readings see the same -----

  lemma SameIndex(ms: seq<Member>, key: string, keys: iset<string>)
    requires Agreeing(keys) && key in keys && forall i :: 0 <= i < |ms| ==> ms[i].key in keys
    ensures IndexOf(ms, key, true) == IndexOf(ms, key, false)
  {
    hide IndexOf, Norm;
    AgreeingApart(keys, true);
    AgreeingApart(keys, false);
    var i, j := IndexOf(ms, key, true), IndexOf(ms, key, false);
    assert forall k :: 0 <= k < |ms| ==> (Norm(ms[k].key, true) == Norm(key, true) <==> ms[k].key == key);
    assert forall k :: 0 <= k < |ms| ==> (Norm(ms[k].key, false) == Norm(key, false) <==> ms[k].key == key);
  }

  lemma {:induction false} SameComparison(a: Json, b: Json, keys: iset<string>)
    requires Agreeing(keys) && KeysIn(a, keys) && KeysIn(b, keys)
    ensures LookupCompare(a, b, true) == LookupCompare(a, b, false)
    decreases Height(a) + Height(b), 1, 0
  {
    hide Agreeing;
    ChildHeights(a);
    ChildHeights(b);
    if a.Array? && b.Array? {
      SameItemsComparison(a.items, b.items, keys, Height(a), Height(b));
    } else if a.Object? && b.Object? {
      SameFound(a.members, b.members, keys, Height(a), Height(b));
      SameFound(b.members, a.members, keys, Height(b), Height(a));
    }
  }

  lemma {:induction false} SameItemsComparison(xs: seq<Json>, ys: seq<Json>, keys: iset<string>, hx: nat, hy: nat)
    requires forall k :: 0 <= k < |xs| ==> Height(xs[k]) < hx && KeysIn(xs[k], keys)
    requires forall k :: 0 <= k < |ys| ==> Height(ys[k]) < hy && KeysIn(ys[k], keys)
    requires Agreeing(keys)
    ensures LookupItems(xs, ys, true, hx, hy) == LookupItems(xs, ys, false, hx, hy)
    decreases hx + hy, 0, |xs|
  {
    hide Agreeing, KeysIn, LookupCompare;
    if xs != [] && ys != [] {
      SameComparison(xs[0], ys[0], keys);
      SameItemsComparison(xs[1..], ys[1..], keys, hx, hy);
    }
  }

  lemma {:induction false} SameFound(xs: seq<Member>, ys: seq<Member>, keys: iset<string>, hx: nat, hy: nat)
    requires forall k :: 0 <= k < |xs| ==> Height(xs[k].item) < hx && xs[k].key in keys && KeysIn(xs[k].item, keys)
    requires forall k :: 0 <= k < |ys| ==> Height(ys[k].item) < hy && ys[k].key in keys && KeysIn(ys[k].item, keys)
    requires Agreeing(keys)
    ensures FoundIn(xs, ys, true, hx, hy) == FoundIn(xs, ys, false, hx, hy)
    decreases hx + hy, 0, |xs|
  {
    hide Agreeing, KeysIn, LookupCompare;
    if xs == [] {
    } else {
      SameIndex(ys, xs[0].key, keys);
      var j := IndexOf(ys, xs[0].key, true);
      if j < |ys| { SameComparison(xs[0].item, ys[j].item, keys); }
      SameFound(xs[1..], ys, keys, hx, hy);
    }
  }

  lemma {:induction false} SameDistinct(t: Json, keys: iset<string>)
    requires Agreeing(keys) && KeysIn(t, keys)
    ensures KeysDistinct(t, true) <==> KeysDistinct(t, false)
  {
    hide Agreeing, Distinct;
    match t
    case Array(items) =>
      forall i | 0 <= i < |items| { SameDistinct(items[i], keys); }
    case Object(ms) =>
      DistinctEitherWay(ms, keys);
      forall i | 0 <= i < |ms| { SameDistinct(ms[i].item, keys); }
    case _ =>
  }

  lemma DistinctEitherWay(ms: seq<Member>, keys: iset<string>)
    requires Agreeing(keys) && forall i :: 0 <= i < |ms| ==> ms[i].key in keys
    ensures Distinct(ms, true) <==> Distinct(ms, false)
  {
    hide Norm;
    AgreeingApart(keys, true);
    AgreeingApart(keys, false);
  }

  /** compare_json decides equality under either reading, if it is the same as its own or the keys are orderly. */
  lemma ComparesUnder(a: Json, b: Json, cs: bool, m: bool, keys: iset<string>)
    requires Agreeing(keys) && Comparable(a, m) && Comparable(b, m)
    requires cs != m ==> KeysIn(a, keys) && KeysIn(b, keys)
    ensures CompareJson(a, b, cs) <==> Meaning(a, m) == Meaning(b, m)
  {
    hide Agreeing, KeysIn, CompareJson, Meaning, Plain, KeysDistinct;
    if cs != m {
      SameDistinct(a, keys);
      SameDistinct(b, keys);
      SameComparison(a, b, keys);
      ComparisonsAgree(a, b, cs);
      ComparisonsAgree(a, b, m);
    }
    CompareJsonExact(a, b, m);
  }

  // ----- the generator on values -----

  function GenerateValue(from: Value, to: Value): Value {
    if from.VObject? && to.VObject? then
      VObject(map k | k in from.fields.Keys + to.fields.Keys
          && !(k in from.fields && k in to.fields && from.fields[k] == to.fields[k]) ::
                if k !in to.fields then VNull
                else if k !in from.fields then to.fields[k]
                else GenerateValue(from.fields[k], to.fields[k]))
    else to
  }

  ghost predicate GeneratedAt(f: map<string, Value>, t: map<string, Value>, g: map<string, Value>, k: string) {
    if k in f && k in t && f[k] == t[k] then k !in g
    else if k in f && k in t then k in g && g[k] == GenerateValue(f[k], t[k])
    else if k in f then k in g && g[k] == VNull
    else if k in t then k in g && g[k] == t[k]
    else k !in g
  }

  ghost predicate GeneratedFields(f: map<string, Value>, t: map<string, Value>, g: map<string, Value>) {
    forall k :: GeneratedAt(f, t, g, k)
  }

  lemma GeneratedFieldsAre(f: map<string, Value>, t: map<string, Value>, g: map<string, Value>)
    requires GeneratedFields(f, t, g)
    ensures GenerateValue(VObject(f), VObject(t)) == VObject(g)
  {
    var m := GenerateValue(VObject(f), VObject(t)).fields;
    forall k
      ensures k in m <==> k in g
      ensures k in m ==> m[k] == g[k]
    {
      assert GeneratedAt(f, t, g, k);
    }
    assert m == g;
  }

  lemma GeneratedStep(f: map<string, Value>, t: map<string, Value>, g: map<string, Value>, k: string)
    requires k !in g && (k in f || k in t)
    requires GeneratedFields(f - {k}, t - {k}, g)
    ensures k in f && k in t && f[k] == t[k] ==> GeneratedFields(f, t, g)
    ensures k in f && k in t && f[k] != t[k] ==> GeneratedFields(f, t, g[k := GenerateValue(f[k], t[k])])
    ensures k in f && k !in t ==> GeneratedFields(f, t, g[k := VNull])
    ensures k !in f && k in t ==> GeneratedFields(f, t, g[k := t[k]])
  {
    hide GenerateValue;
    if k in f && k in t && f[k] == t[k] {
      forall j ensures GeneratedAt(f, t, g, j) { assert GeneratedAt(f - {k}, t - {k}, g, j); }
    } else {
      var v := if k !in t then VNull else if k !in f then t[k] else GenerateValue(f[k], t[k]);
      var more := g[k := v];
      forall j ensures GeneratedAt(f, t, more, j) { assert GeneratedAt(f - {k}, t - {k}, g, j); }
    }
  }

  predicate GeneratedPatch(ms: seq<Member>, m: bool) {
    MembersDistinct(ms, m) && Mergeable(Object(ms))
  }

  lemma {:induction false} CopyableMergeable(t: Json)
    requires Copyable(t)
    ensures Mergeable(t)
  {
    ChildHeights(t);
    if t.Object? {
      forall i | 0 <= i < |t.members| {
        CopyableMergeable(t.members[i].item);
      }
    }
  }

  /** The generator computes exactly the fields in which the two objects differ. */
  lemma {:induction false} GenerateExact(from: Json, to: Json, cs: bool, m: bool, keys: iset<string>)
    requires Agreeing(keys) && (cs ==> m)
    requires Generable(from, cs, m, keys) && Generable(to, cs, m, keys) && Copyable(to)
    ensures Generate(from, to, cs).None? <==>
            from.Object? && to.Object? && Meaning(from, m) == Meaning(to, m)
    ensures Generate(from, to, cs).Some? ==>
              var patch := Generate(from, to, cs).value;
              && Meaning(patch, m) == GenerateValue(Meaning(from, m), Meaning(to, m))
              && KeysDistinct(patch, m) && Mergeable(patch)
    decreases Height(from), 1, 0
  {
    hide Agreeing, Generable, MembersGenerable, GeneratedFields, GenerateMembers, SortedMembers, Duplicate, Height,
        Mergeable, GenerateValue, MembersCopyable, Copyable, Fields;
    ChildHeights(from);
    if to.Object? && from.Object? {
      var fs, ts := SortedMembers(from.members, cs), SortedMembers(to.members, cs);
      SortedGenerable(from.members, cs, m, keys);
      SortedGenerable(to.members, cs, m, keys);
      SortedCopyable(to.members, cs);
      GenerateMembersExact(fs, ts, cs, m, keys, Height(from));
      var ms := GenerateMembers(fs, ts, cs, Height(from));
      GeneratedFieldsAre(Fields(fs, m), Fields(ts, m), Fields(ms, m));
      GeneratedNothing(Fields(fs, m), Fields(ts, m), Fields(ms, m));
      if ms == [] {
        assert Fields(ms, m) == map[] by { NoFields(m); }
      } else {
        FirstField(ms, m);
        assert Norm(ms[0].key, m) in Fields(ms, m);
      }
    } else {
      DuplicateExact(to);
      CopyableMergeable(to);
      assert GenerateValue(Meaning(from, m), Meaning(to, m)) == Meaning(to, m) by { NothingToCompare(from, to, m); }
      DistinctOnly(to, cs, m, keys);
    }
  }

  lemma NothingToCompare(from: Json, to: Json, m: bool)
    requires !(from.Object? && to.Object?)
    ensures GenerateValue(Meaning(from, m), Meaning(to, m)) == Meaning(to, m)
  {
  }

  lemma DistinctOnly(t: Json, cs: bool, m: bool, keys: iset<string>)
    requires Generable(t, cs, m, keys)
    ensures KeysDistinct(t, m)
  {
  }

  lemma GeneratedNothing(f: map<string, Value>, t: map<string, Value>, g: map<string, Value>)
    requires GeneratedFields(f, t, g)
    ensures g == map[] <==> f == t
  {
    if g == map[] {
      forall k
        ensures k in f <==> k in t
        ensures k in f ==> f[k] == t[k]
      {
        assert GeneratedAt(f, t, g, k);
      }
      assert f == t;
    }
    if f == t {
      forall k ensures k !in g { assert GeneratedAt(f, t, g, k); }
    }
  }

  /** Sorted as the call sorts them, the members are sorted by strcmp. */
  lemma SortedGenerable(ms: seq<Member>, cs: bool, m: bool, keys: iset<string>)
    requires Agreeing(keys) && (cs ==> m) && Generable(Object(ms), cs, m, keys)
    ensures MembersGenerable(SortedMembers(ms, cs), cs, m, keys)
    ensures Fields(SortedMembers(ms, cs), m) == Fields(ms, m)
  {
    hide Agreeing, Generable, KeysIn, Fields, StrictlySorted;
    GenerableMembers(ms, cs, m, keys);
    if cs != m { DistinctEitherWay(ms, keys); }
    SortedMeaning(ms, cs);
    SortSorts(ms, cs);
    FieldsRearranged(ms, Sort(ms, cs), m);
    var sorted := SortedMembers(ms, cs);
    forall i | 0 <= i < |sorted|
      ensures MemberGenerable(sorted[i], cs, m, keys)
    {
      assert sorted[i] in ms;
    }
    if !cs { SortedByBoth(sorted, keys); }
  }

  lemma GenerableMembers(ms: seq<Member>, cs: bool, m: bool, keys: iset<string>)
    requires Generable(Object(ms), cs, m, keys)
    ensures Distinct(ms, m) && forall j :: 0 <= j < |ms| ==> MemberGenerable(ms[j], cs, m, keys)
  {
  }

  lemma SortedByBoth(ms: seq<Member>, keys: iset<string>)
    requires Agreeing(keys) && StrictlySorted(ms, false) && forall i :: 0 <= i < |ms| ==> ms[i].key in keys
    ensures StrictlySorted(ms, true)
  {
  }

  lemma SortedCopyable(ms: seq<Member>, cs: bool)
    requires Copyable(Object(ms))
    ensures MembersCopyable(SortedMembers(ms, cs))
  {
    ChildHeights(Object(ms));
  }

  lemma GenerableTail(ms: seq<Member>, cs: bool, m: bool, keys: iset<string>)
    requires Agreeing(keys) && ms != [] && MembersGenerable(ms, cs, m, keys)
    ensures MembersGenerable(ms[1..], cs, m, keys) && MemberGenerable(ms[0], cs, m, keys)
    ensures Distinct(ms, m) && Fields(ms[1..], m) == Fields(ms, m) - {Norm(ms[0].key, m)}
    ensures Norm(ms[0].key, m) in Fields(ms, m) && Fields(ms, m)[Norm(ms[0].key, m)] == Meaning(ms[0].item, m)
  {
    hide Agreeing, LevelKeys, Generable, Meaning, KeysIn, Before;
    LevelApart(cs, m, keys);
    StrictDistinct(ms, true);
    ApartDistinct(ms, m, LevelKeys(cs, m, keys));
    TailFields(ms, m);
    FirstField(ms, m);
  }

  lemma ApartDistinct(ms: seq<Member>, m: bool, keys: iset<string>)
    requires ToldApart(keys, m) && Distinct(ms, true) && forall i :: 0 <= i < |ms| ==> ms[i].key in keys
    ensures Distinct(ms, m)
  {
  }

  /** A key before all others is under neither reading among them. */
  lemma AbsentEitherWay(ms: seq<Member>, key: string, cs: bool, m: bool, keys: iset<string>)
    requires Agreeing(keys) && MembersGenerable(ms, cs, m, keys) && key in LevelKeys(cs, m, keys)
    requires ms == [] || Before(key, ms[0].key, true)
    ensures Norm(key, m) !in Fields(ms, m)
  {
    hide Agreeing, LevelKeys, Generable, KeysIn, Fields, Meaning;
    LevelApart(cs, m, keys);
    if Norm(key, m) in Fields(ms, m) {
      var i := FieldsKey(ms, Norm(key, m), m);
      BeforeAsymmetric(key, ms[i].key, true);
      BeforeAsymmetric(key, ms[0].key, true);
    }
  }

  lemma PatchCons(x: Member, rest: seq<Member>, m: bool)
    requires GeneratedPatch(rest, m) && Norm(x.key, m) !in Fields(rest, m)
    requires KeysDistinct(x.item, m) && Mergeable(x.item)
    ensures GeneratedPatch([x] + rest, m)
    ensures Fields([x] + rest, m) == Fields(rest, m)[Norm(x.key, m) := Meaning(x.item, m)]
  {
    var all := [x] + rest;
    assert all[1..] == rest;
    forall i | 0 <= i < |rest| ensures Norm(rest[i].key, m) != Norm(x.key, m) { FieldAt(rest, i, m); }
    MergeableSplit(all);
  }

  /** The smallest key of two sorted objects, visited first. */
  lemma {:induction false} GenerateMembersExact(from: seq<Member>, to: seq<Member>, cs: bool, m: bool,
                                                keys: iset<string>, bound: nat)
    requires forall k :: 0 <= k < |from| ==> Height(from[k].item) < bound
    requires Agreeing(keys) && (cs ==> m) && MembersCopyable(to)
    requires MembersGenerable(from, cs, m, keys) && MembersGenerable(to, cs, m, keys)
    ensures var ms := GenerateMembers(from, to, cs, bound);
            GeneratedPatch(ms, m) && GeneratedFields(Fields(from, m), Fields(to, m), Fields(ms, m))
    decreases bound, 0, |from| + |to|
  {
    hide Agreeing, GenerateValue, MembersGenerable, GeneratedPatch, GeneratedFields, Fields, Meaning, Before, Copyable,
        Generable, KeysIn, CompareJson, Generate, Height, Norm;
    if from != [] { GenerableTail(from, cs, m, keys); }
    if to != [] { GenerableTail(to, cs, m, keys); }
    if from == [] && to == [] {
      NothingGenerated(m);
    } else if to == [] || (from != [] && Before(from[0].key, to[0].key, true)) {
      AbsentEitherWay(to, from[0].key, cs, m, keys);
      GenerateMembersExact(from[1..], to, cs, m, keys, bound);
      GeneratedDelete(from, to, GenerateMembers(from[1..], to, cs, bound), cs, m, keys);
    } else if from == [] || Before(to[0].key, from[0].key, true) {
      AbsentEitherWay(from, to[0].key, cs, m, keys);
      GenerateMembersExact(from, to[1..], cs, m, keys, bound);
      GeneratedAdd(from, to, GenerateMembers(from, to[1..], cs, bound), cs, m, keys);
    } else {
      NeitherBefore(from[0].key, to[0].key, true);
      Unfolded(from[0].key);
      Unfolded(to[0].key);
      ItemsComparable(from[0], to[0], cs, m, keys);
      ComparesUnder(from[0].item, to[0].item, cs, m, keys);
      GenerateMembersExact(from[1..], to[1..], cs, m, keys, bound);
      GenerateExact(from[0].item, to[0].item, false, m, keys);
      GeneratedBoth(from, to, Generate(from[0].item, to[0].item, false),
                    GenerateMembers(from[1..], to[1..], cs, bound), cs, m, keys);
    }
  }

  lemma ItemsComparable(x: Member, y: Member, cs: bool, m: bool, keys: iset<string>)
    requires MemberGenerable(x, cs, m, keys) && MemberGenerable(y, cs, m, keys)
    ensures Comparable(x.item, m) && Comparable(y.item, m)
  {
  }

  lemma NothingGenerated(m: bool)
    ensures GeneratedPatch([], m) && GeneratedFields(Fields([], m), Fields([], m), Fields([], m))
  {
  }

  lemma GeneratedDelete(from: seq<Member>, to: seq<Member>, rest: seq<Member>, cs: bool, m: bool, keys: iset<string>)
    requires Agreeing(keys) && from != [] && MembersGenerable(from, cs, m, keys)
    requires Norm(from[0].key, m) !in Fields(to, m)
    requires GeneratedPatch(rest, m) && GeneratedFields(Fields(from[1..], m), Fields(to, m), Fields(rest, m))
    ensures var ms := Added(from[0].key, Some(Null)) + rest;
            GeneratedPatch(ms, m) && GeneratedFields(Fields(from, m), Fields(to, m), Fields(ms, m))
  {
    hide Agreeing, MembersGenerable, Norm, GeneratedPatch;
    var k := Norm(from[0].key, m);
    GenerableTail(from, cs, m, keys);
    assert Fields(to, m) - {k} == Fields(to, m);
    assert GeneratedAt(Fields(from[1..], m), Fields(to, m), Fields(rest, m), k);
    GeneratedStep(Fields(from, m), Fields(to, m), Fields(rest, m), k);
    PatchCons(Keyed(from[0].key, Null), rest, m);
  }

  lemma GeneratedAdd(from: seq<Member>, to: seq<Member>, rest: seq<Member>, cs: bool, m: bool, keys: iset<string>)
    requires Agreeing(keys) && to != [] && MembersGenerable(to, cs, m, keys) && Copyable(to[0].item)
    requires Norm(to[0].key, m) !in Fields(from, m)
    requires GeneratedPatch(rest, m) && GeneratedFields(Fields(from, m), Fields(to[1..], m), Fields(rest, m))
    ensures var ms := Added(to[0].key, Duplicate(to[0].item)) + rest;
            GeneratedPatch(ms, m) && GeneratedFields(Fields(from, m), Fields(to, m), Fields(ms, m))
  {
    hide Agreeing, MembersGenerable, Norm, GeneratedPatch, Duplicate;
    var k := Norm(to[0].key, m);
    GenerableTail(to, cs, m, keys);
    DuplicateExact(to[0].item);
    CopyableMergeable(to[0].item);
    assert Fields(from, m) - {k} == Fields(from, m);
    assert GeneratedAt(Fields(from, m), Fields(to[1..], m), Fields(rest, m), k);
    GeneratedStep(Fields(from, m), Fields(to, m), Fields(rest, m), k);
    PatchCons(to[0], rest, m);
  }

  lemma GeneratedBoth(from: seq<Member>, to: seq<Member>, sub: Option<Json>, rest: seq<Member>,
                      cs: bool, m: bool, keys: iset<string>)
    requires Agreeing(keys) && from != [] && MembersGenerable(from, cs, m, keys)
    requires to != [] && MembersGenerable(to, cs, m, keys) && from[0].key == to[0].key
    requires var f, t := Meaning(from[0].item, m), Meaning(to[0].item, m);
             f != t ==> sub.Some? && Meaning(sub.value, m) == GenerateValue(f, t)
                        && KeysDistinct(sub.value, m) && Mergeable(sub.value)
    requires GeneratedPatch(rest, m) && GeneratedFields(Fields(from[1..], m), Fields(to[1..], m), Fields(rest, m))
    ensures var ms := if Meaning(from[0].item, m) == Meaning(to[0].item, m) then rest
                      else Added(to[0].key, sub) + rest;
            GeneratedPatch(ms, m) && GeneratedFields(Fields(from, m), Fields(to, m), Fields(ms, m))
  {
    hide Agreeing, MembersGenerable, Norm, GeneratedPatch, Meaning;
    var k := Norm(to[0].key, m);
    GenerableTail(from, cs, m, keys);
    GenerableTail(to, cs, m, keys);
    assert GeneratedAt(Fields(from[1..], m), Fields(to[1..], m), Fields(rest, m), k);
    GeneratedStep(Fields(from, m), Fields(to, m), Fields(rest, m), k);
    if Meaning(from[0].item, m) != Meaning(to[0].item, m) {
      PatchCons(Keyed(to[0].key, sub.value), rest, m);
    }
  }

  // ----- the round trip -----

  /** Each null member of `to` outside arrays sits in a field that already has its value. */
  predicate NullsKept(from: Value, to: Value)
    decreases (to)
  {
    to.VObject? ==>
      var f := FieldsOf(from);
      forall k :: k in to.fields ==>
        || (k in f && f[k] == to.fields[k])
        || (to.fields[k] != VNull && NullsKept(Under(f, k), to.fields[k]))
  }

  lemma {:induction false} MergeGeneratedValue(from: Value, to: Value)
    ensures MergeValue(from, GenerateValue(from, to)) == to <==> NullsKept(from, to)
    decreases (to)
  {
    if to.VObject? {
      var f, t := FieldsOf(from), to.fields;
      var g := FieldsOf(GenerateValue(from, to));
      var r := MergeValue(from, GenerateValue(from, to)).fields;
      forall k | k in t
        ensures (k in r && r[k] == t[k]) <==>
                (k in f && f[k] == t[k]) || (t[k] != VNull && NullsKept(Under(f, k), t[k]))
      {
        if !(k in f && f[k] == t[k]) {
          MergeGeneratedValue(Under(f, k), t[k]);
          assert g[k] == GenerateValue(Under(f, k), t[k]);
        }
      }
      forall k | k in r
        ensures k in t
      {
      }
      assert r == t <==> forall k :: k in t ==> k in r && r[k] == t[k];
    }
  }

  /**
   * The merge-patch round trip, for orderly keys: it holds exactly when no null has to be written. Called
   * case-sensitively on flat objects it holds for all keys, and for keys in lower case always.
   */
  lemma MergePatchRoundTrip(doc: Json, from: Json, to: Json, cs: bool, keys: iset<string>)
    requires Agreeing(keys) && from.Object? && to.Object? && Copyable(to)
    requires Generable(from, cs, cs, keys) && Generable(to, cs, cs, keys)
    requires KeysDistinct(doc, cs) && Meaning(doc, cs) == Meaning(from, cs)
    ensures Generate(from, to, cs).None? <==> Meaning(from, cs) == Meaning(to, cs)
    ensures Generate(from, to, cs).Some? ==>
              var merged := MergeTree(Some(doc), Generate(from, to, cs).value, cs);
              && merged.Some?
              && (Meaning(merged.value, cs) == Meaning(to, cs) <==> NullsKept(Meaning(from, cs), Meaning(to, cs)))
  {
    hide Agreeing, Generable, KeysDistinct, Meaning, NullsKept, GenerateValue, MergeValue, Mergeable, Generate,
        MergeTree, Copyable;
    GenerateExact(from, to, cs, cs, keys);
    if Generate(from, to, cs).Some? {
      MergeExact(Some(doc), Generate(from, to, cs).value, cs);
      MergeGeneratedValue(Meaning(from, cs), Meaning(to, cs));
    }
  }

  /** Keys without capital letters. */
  ghost function LowerKeys(): iset<string> {
    iset k: string | Fold(k) == k
  }

  lemma LowerKeysAgree()
    ensures Agreeing(LowerKeys())
  {
  }

  /** Trees whose keys are all among orderly ones can be generated from in either mode. */
  lemma {:induction false} KeysInOrderly(t: Json, cs: bool, m: bool, keys: iset<string>)
    requires KeysIn(t, keys)
    ensures Orderly(t, cs, m, keys)
  {
    if t.Object? {
      forall i | 0 <= i < |t.members| { KeysInOrderly(t.members[i].item, false, m, keys); }
    }
  }

  /** So can flat objects in the case-sensitive mode, whatever their keys. */
  lemma FlatOrderly(t: Json)
    requires t.Object? && forall i :: 0 <= i < |t.members| ==> !t.members[i].item.Object?
    ensures Orderly(t, true, true, iset{}) && Agreeing(iset{})
  {
  }

  // ----- where the orders disagree -----

  const SMALL_A: Member := Keyed("a", Number(1))
  const CAPITAL_B: Member := Keyed("B", Number(2))

  /** "B" comes before "a" for strcmp, and behind it ignoring case. */
  lemma OrdersDisagree()
    ensures Before("B", "a", true) && !Before("a", "B", true) && Before("a", "B", false)
    ensures SortedMembers([SMALL_A, CAPITAL_B], false) == [SMALL_A, CAPITAL_B]
  {
    assert "B"[0] < "a"[0] && StrCmp("B", "a") == -1 && StrCmp("a", "B") == 1;
    assert Fold("a") == "a" && Fold("B") == "b";
    assert StrCmp("a", "b") == -1;
  }

  /** In a nested object the walk then puts in a member that both have and takes it out at once. */
  lemma NestedPatch()
    ensures Generate(Object([SMALL_A, CAPITAL_B]), Object([CAPITAL_B]), false) ==
            Some(Object([CAPITAL_B, Keyed("a", Null), Keyed("B", Null)]))
  {
    OrdersDisagree();
    var from, to := [SMALL_A, CAPITAL_B], [CAPITAL_B];
    var h := Height(Object(from));
    ChildHeights(Object(from));
    assert SortedMembers(to, false) == to;
    assert from[1..] == [CAPITAL_B] && to[1..] == [] && from[1..][1..] == [];
    DuplicateExact(Number(2));
    assert GenerateMembers([], [], false, h) == [];
    assert GenerateMembers([CAPITAL_B], [], false, h) == [Keyed("B", Null)];
    assert GenerateMembers(from, [], false, h) == [Keyed("a", Null), Keyed("B", Null)];
    assert GenerateMembers(from, to, false, h) == [CAPITAL_B] + GenerateMembers(from, [], false, h);
    assert [CAPITAL_B] + [Keyed("a", Null), Keyed("B", Null)] == [CAPITAL_B, Keyed("a", Null), Keyed("B", Null)];
  }

  /**
   * Keys for which the orders disagree are lost: the case-sensitive patch that should take "a" out of a nested
   * object takes out everything.
   */
  lemma NestedMemberLost()
    ensures var from := Object([Keyed("o", Object([SMALL_A, CAPITAL_B]))]);
            var to := Object([Keyed("o", Object([CAPITAL_B]))]);
            var patch := Object([Keyed("o", Object([CAPITAL_B, Keyed("a", Null), Keyed("B", Null)]))]);
            Generate(from, to, true) == Some(patch)
            && MergeTree(Some(from), patch, true) == Some(Object([Keyed("o", Object([]))]))
  {
    OuterPatch();
    OuterMerge();
  }

  lemma OuterPatch()
    ensures Generate(Object([Keyed("o", Object([SMALL_A, CAPITAL_B]))]),
                     Object([Keyed("o", Object([CAPITAL_B]))]), true) ==
            Some(Object([Keyed("o", Object([CAPITAL_B, Keyed("a", Null), Keyed("B", Null)]))]))
  {
    hide Height;
    var x, y := Object([SMALL_A, CAPITAL_B]), Object([CAPITAL_B]);
    var from, to := [Keyed("o", x)], [Keyed("o", y)];
    var h := Height(Object(from));
    ChildHeights(Object(from));
    NestedPatch();
    OneSorted(Keyed("o", x), true);
    OneSorted(Keyed("o", y), true);
    assert from[1..] == [] && to[1..] == [];
    assert !CompareJson(x, y, true) by { NestedDiffer(); }
    StrCmpZero("o", "o");
    assert GenerateMembers([], [], true, h) == [];
    assert GenerateMembers(from, to, true, h) == Added("o", Generate(x, y, false)) + [];
    assert Added("o", Generate(x, y, false)) + [] == [Keyed("o", Generate(x, y, false).value)];
  }

  lemma OneSorted(x: Member, cs: bool)
    ensures SortedMembers([x], cs) == [x]
  {
  }

  lemma NestedDiffer()
    ensures !CompareJson(Object([SMALL_A, CAPITAL_B]), Object([CAPITAL_B]), true)
  {
    hide Meaning;
    var a, b := Object([SMALL_A, CAPITAL_B]), Object([CAPITAL_B]);
    assert Norm("a", true) == "a" && Norm("B", true) == "B";
    CompareJsonExact(a, b, true);
    FieldsLookup(a.members, "a", true);
    FieldsLookup(b.members, "a", true);
    ObjectMeanings(a, b, true);
  }

  lemma ObjectMeanings(a: Json, b: Json, m: bool)
    requires a.Object? && b.Object?
    ensures Meaning(a, m) == Meaning(b, m) <==> Fields(a.members, m) == Fields(b.members, m)
  {
  }

  lemma OuterMerge()
    ensures MergeTree(Some(Object([Keyed("o", Object([SMALL_A, CAPITAL_B]))])),
                      Object([Keyed("o", Object([CAPITAL_B, Keyed("a", Null), Keyed("B", Null)]))]), true) ==
            Some(Object([Keyed("o", Object([]))]))
  {
    var ms: seq<Member> := [SMALL_A, CAPITAL_B];
    var nested: seq<Member> := [CAPITAL_B, Keyed("a", Null), Keyed("B", Null)];
    DuplicateExact(Number(2));
    assert nested[1..] == [Keyed("a", Null), Keyed("B", Null)] && nested[1..][1..] == [Keyed("B", Null)];
    assert nested[1..][1..][1..] == [];
    assert ms[1..] == [CAPITAL_B];
    assert "a"[0] != "B"[0] && Norm("a", true) == "a" && Norm("B", true) == "B";
    assert IndexOf(ms, "B", true) == 1 && IndexOf(ms, "a", true) == 0;
    assert RemoveAt(ms, 1) == [SMALL_A] && RemoveAt(ms, 0) == [CAPITAL_B];
    assert DeleteKey(ms, "B", true) == [SMALL_A];
    assert DeleteKey([SMALL_A, CAPITAL_B], "a", true) == [CAPITAL_B];
    assert DeleteKey([CAPITAL_B], "B", true) == [];
    assert MergeMembers(ms, nested, true) == MergeMembers([SMALL_A] + [CAPITAL_B], nested[1..], true);
    assert [SMALL_A] + [CAPITAL_B] == ms;
    assert MergeMembers(ms, nested[1..], true) == MergeMembers([CAPITAL_B], nested[1..][1..], true);
    assert MergeMembers([CAPITAL_B], nested[1..][1..], true) == Some([]);
    var outer: seq<Member> := [Keyed("o", Object(ms))];
    var patch: seq<Member> := [Keyed("o", Object(nested))];
    assert outer[1..] == [] && patch[1..] == [];
    assert DeleteKey(outer, "o", true) == [];
    assert [] + [Keyed("o", Object([]))] == [Keyed("o", Object([]))];
    assert MergeMembers(outer, patch, true) == Some([Keyed("o", Object([]))]);
  }

  /** Without null members outside arrays the condition holds whatever `from` is. */
  predicate NoNullFields(v: Value) {
    v.VObject? ==> forall k :: k in v.fields ==> v.fields[k] != VNull && NoNullFields(v.fields[k])
  }

  lemma {:induction false} NoNullsKept(from: Value, to: Value)
    requires NoNullFields(to)
    ensures NullsKept(from, to)
    decreases (to)
  {
    if to.VObject? {
      forall k | k in to.fields
        ensures NullsKept(Under(FieldsOf(from), k), to.fields[k])
      {
        NoNullsKept(Under(FieldsOf(from), k), to.fields[k]);
      }
    }
  }
}
