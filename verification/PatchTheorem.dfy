/** The JSON Patch round trip, and where it stops. */
module PatchTheorem {
  import opened CStrings
  import opened Sorting
  import opened Json
  import opened Compare
  import opened Pointer
  import opened Patch
  import opened PatchFrames
  import opened PatchRoundTrip
  import opened Options
  import opened Sequences

  predicate ItemsFolded(items: seq<Json>) {
    forall i :: 0 <= i < |items| ==> KeysDistinct(items[i], false)
  }

  lemma WholeReplaced(doc: Json, to: Json, cs: bool)
    requires Copyable(to)
    ensures ApplyEdits(doc, [Edit(ReplaceOp, "", Some(to))], cs) == Outcome(to, 0)
  {
    DuplicateExact(to);
    assert [Edit(ReplaceOp, "", Some(to))][1..] == [];
  }

  /** The edits of one pair, applied to any node that denotes the same value as `from`. */
  lemma {:induction false} NodeRoundTrip(doc: Json, from: Json, to: Json, cs: bool)
    requires Patchable(from) && Patchable(to) && Usable(from, to, cs)
    requires Meaning(doc, cs) == Meaning(from, cs) && KeysDistinct(doc, false)
    ensures AllGenerated(CreateEdits("", from, to, cs))
    ensures Becomes(ApplyEdits(doc, CreateEdits("", from, to, cs), cs), to, cs)
    decreases Height(from), 2, 0
  {
    hide ApplyEdits, AllGenerated, Meaning, KeysDistinct, Becomes, Patchable, CreateEdits, Usable;
    if Replaced(from, to) {
      ReplacedNode(doc, from, to, cs);
    } else if from.Array? {
      ArrayNode(doc, from, to, cs);
    } else if from.Object? {
      ObjectNode(doc, from, to, cs);
    } else {
      LeafNode(doc, from, to, cs);
    }
  }

  lemma ReplacedEdits(from: Json, to: Json, cs: bool)
    ensures Replaced(from, to) ==> CreateEdits("", from, to, cs) == [Edit(ReplaceOp, "", Some(to))]
    ensures !Replaced(from, to) && !from.Array? && !from.Object? ==> CreateEdits("", from, to, cs) == []
  {
  }

  lemma ReplacedNode(doc: Json, from: Json, to: Json, cs: bool)
    requires Patchable(to) && Replaced(from, to) && Usable(from, to, cs)
    ensures AllGenerated(CreateEdits("", from, to, cs))
    ensures Becomes(ApplyEdits(doc, CreateEdits("", from, to, cs), cs), to, cs)
  {
    hide ApplyOne, CreateEdits;
    ReplacedEdits(from, to, cs);
    WholeReplaced(doc, to, cs);
  }

  lemma LeafNode(doc: Json, from: Json, to: Json, cs: bool)
    requires Patchable(from) && Patchable(to) && !Replaced(from, to) && !from.Array? && !from.Object?
    requires Meaning(doc, cs) == Meaning(from, cs) && KeysDistinct(doc, false)
    ensures AllGenerated(CreateEdits("", from, to, cs))
    ensures Becomes(ApplyEdits(doc, CreateEdits("", from, to, cs), cs), to, cs)
  {
    hide ApplyOne, CreateEdits;
    ReplacedEdits(from, to, cs);
  }

  /** A node that is not replaced is edited below itself. */
  lemma EditedBelow(from: Json, to: Json, cs: bool)
    requires !Replaced(from, to)
    ensures Below(CreateEdits("", from, to, cs))
  {
    hide ItemEdits, MemberEdits;
    ChildHeights(from);
    if from.Array? {
      ItemEditsBelow(0, from.items, to.items, cs, Height(from));
    } else if from.Object? {
      MemberEditsBelow(SortedMembers(from.members, cs), SortedMembers(to.members, cs), cs, Height(from));
    }
  }

  lemma {:induction false} ObjectNode(doc: Json, from: Json, to: Json, cs: bool)
    requires Patchable(from) && Patchable(to) && from.Object? && to.Object? && Usable(from, to, cs)
    requires Meaning(doc, cs) == Meaning(from, cs) && KeysDistinct(doc, false)
    ensures AllGenerated(CreateEdits("", from, to, cs))
    ensures Becomes(ApplyEdits(doc, CreateEdits("", from, to, cs), cs), to, cs)
    decreases Height(from), 1, 0
  {
    hide ApplyOne, ApplyEdits, MemberEdits, MembersUsable, SortedMembers, AllGenerated, Fields;
    ChildHeights(from);
    ChildrenPatchable(from);
    ChildrenPatchable(to);
    assert Object(doc.members) == doc;
    ObjectRoundTrip(doc.members, from.members, to.members, cs, Height(from));
  }

  lemma {:induction false} ArrayNode(doc: Json, from: Json, to: Json, cs: bool)
    requires Patchable(from) && Patchable(to) && from.Array? && to.Array? && Usable(from, to, cs)
    requires Meaning(doc, cs) == Meaning(from, cs) && KeysDistinct(doc, false)
    ensures AllGenerated(CreateEdits("", from, to, cs))
    ensures Becomes(ApplyEdits(doc, CreateEdits("", from, to, cs), cs), to, cs)
    decreases Height(from), 1, 0
  {
    hide ApplyOne, ApplyEdits, ItemEdits;
    ChildHeights(from);
    ChildrenPatchable(from);
    ChildrenPatchable(to);
    assert doc.items[0..] == doc.items && Array(doc.items) == doc;
    ArrayLengths(doc.items, from.items, cs);
    var r := ItemsRoundTrip(doc.items, 0, from.items, to.items, cs, Height(from));
    assert r[0..] == r;
  }

  lemma ChildrenPatchable(t: Json)
    requires Patchable(t)
    ensures t.Array? ==> ItemsPatchable(t.items) && |t.items| <= SIZE_MODULUS
    ensures t.Object? ==> MembersPatchable(t.members) && Distinct(t.members, false)
  {
  }

  // ----- arrays -----

  /** A pair of elements: the element at `index` is edited or replaced in place. */
  lemma {:induction false} PairRoundTrip(cur: seq<Json>, index: nat, from: Json, to: Json, cs: bool)
      returns (after: Json)
    requires index < |cur| && index < SIZE_MODULUS
    requires Patchable(from) && Patchable(to) && Usable(from, to, cs)
    requires Meaning(cur[index], cs) == Meaning(from, cs) && KeysDistinct(cur[index], false)
    ensures AllGenerated(CreateEdits("" + "/" + Digits(index), from, to, cs))
    ensures ApplyEdits(Array(cur), CreateEdits("" + "/" + Digits(index), from, to, cs), cs) ==
            Outcome(Array(cur[index := after]), 0)
    ensures Meaning(after, cs) == Meaning(to, cs) && KeysDistinct(after, false)
    decreases Height(from), 3, 0
  {
    hide ApplyOne, ApplyEdits, CreateEdits, Digits, Meaning, KeysDistinct, Patchable, Height;
    var token := "" + "/" + Digits(index);
    var es := CreateEdits("", from, to, cs);
    NodeRoundTrip(cur[index], from, to, cs);
    CreateEditsPrefix(token, from, to, cs);
    if !Replaced(from, to) {
      EditedBelow(from, to, cs);
      after := ApplyEdits(cur[index], es, cs).tree;
      assert token == "/" + Digits(index);
      EditsUnderItem(cur, index, es, cs);
    } else {
      after := to;
      PatchableParts(to);
      ReplacedEdits(from, to, cs);
      ReplaceItem(cur, index, to, cs);
      PrefixedReplace(token, to);
      SingleEdit(Array(cur), Edit(ReplaceOp, token, Some(to)), Array(cur[index := to]), cs);
    }
  }

  lemma EditsUnderItem(cur: seq<Json>, index: nat, es: seq<Edit>, cs: bool)
    requires index < |cur| && index < SIZE_MODULUS && Below(es)
    requires AllGenerated(es) && ApplyEdits(cur[index], es, cs).status == 0
    ensures AllGenerated(Prefixed("/" + Digits(index), es))
    ensures ApplyEdits(Array(cur), Prefixed("/" + Digits(index), es), cs) ==
            Outcome(Array(cur[index := ApplyEdits(cur[index], es, cs).tree]), 0)
  {
    hide ApplyEdits;
    EditsUnderChild(Array(cur), Digits(index), "", index, es, cs);
  }

  lemma PatchableParts(t: Json)
    requires Patchable(t)
    ensures KeysDistinct(t, false)
  {
  }

  lemma PrefixedReplace(token: string, to: Json)
    ensures Prefixed(token, [Edit(ReplaceOp, "", Some(to))]) == [Edit(ReplaceOp, token, Some(to))]
  {
    assert token + "" == token;
  }

  lemma SingleEdit(t: Json, e: Edit, after: Json, cs: bool)
    requires Generated(e.opcode) && ApplyOne(t, e, cs) == Outcome(after, 0)
    ensures ApplyEdits(t, [e], cs) == Outcome(after, 0)
  {
  }

  /** An array midway: the first `index` elements are settled, the rest denote `from`. */
  ghost predicate ItemsMidway(cur: seq<Json>, index: nat, from: seq<Json>, to: seq<Json>, cs: bool) {
    && index <= |cur| && index + |from| <= SIZE_MODULUS && index + |to| <= SIZE_MODULUS
    && Meaning(Array(cur[index..]), cs) == Meaning(Array(from), cs)
    && ItemsFolded(cur) && ItemsPatchable(from) && ItemsPatchable(to)
  }

  /** What the edits of the remaining elements achieve. */
  ghost predicate ItemsSettled(o: Outcome, cur: seq<Json>, index: nat, r: seq<Json>, to: seq<Json>, cs: bool) {
    && o == Outcome(Array(r), 0)
    && index <= |r| && index <= |cur| && r[..index] == cur[..index]
    && Meaning(Array(r[index..]), cs) == Meaning(Array(to), cs)
    && ItemsFolded(r)
  }

  lemma {:induction false} ItemsRoundTrip(cur: seq<Json>, index: nat, from: seq<Json>, to: seq<Json>, cs: bool,
                                          bound: nat)
      returns (r: seq<Json>)
    requires forall k :: 0 <= k < |from| ==> Height(from[k]) < bound
    requires ItemsMidway(cur, index, from, to, cs) && ItemsUsable(from, to, cs, bound)
    ensures AllGenerated(ItemEdits("", index, from, to, cs, bound))
    ensures ItemsSettled(ApplyEdits(Array(cur), ItemEdits("", index, from, to, cs, bound), cs), cur, index, r, to, cs)
    decreases bound, 0, |from| + |to|
  {
    hide ApplyOne, ItemsFolded, ItemsPatchable, Meaning, KeysDistinct, Patchable, Encode, Digits, CreateEdits, Height;
    ItemEditsBelow(index, from, to, cs, bound);
    ArrayLengths(cur[index..], from, cs);
    if from != [] && to != [] {
      var token := "" + "/" + Digits(index);
      MidwayPair(cur, index, from, to, cs);
      var after := PairRoundTrip(cur, index, from[0], to[0], cs);
      var next := cur[index := after];
      MidwayStep(cur, index, from, to, after, cs);
      ItemEditsBelow(index + 1, from[1..], to[1..], cs, bound);
      r := ItemsRoundTrip(next, index + 1, from[1..], to[1..], cs, bound);
      ApplyEditsAppend(Array(cur), CreateEdits(token, from[0], to[0], cs),
                       ItemEdits("", index + 1, from[1..], to[1..], cs, bound), cs);
      SettledStep(cur, index, next, r, to, cs);
    } else if from != [] {
      var one := Edit(RemoveOp, "" + "/" + Encode(Digits(index)), None);
      RemoveItem(cur, index, cs);
      MidwayRemoved(cur, index, from, to, cs);
      ItemEditsBelow(index, from[1..], to, cs, bound);
      var rest := ItemEdits("", index, from[1..], to, cs, bound);
      r := ItemsRoundTrip(RemoveAt(cur, index), index, from[1..], to, cs, bound);
      assert ([one] + rest)[1..] == rest;
      assert RemoveAt(cur, index)[..index] == cur[..index];
    } else if to != [] {
      var one := Edit(AddOp, "" + "/" + Encode("-"), Some(to[0]));
      MidwayAppended(cur, index, to, cs);
      AppendItem(cur, to[0], cs);
      ItemEditsBelow(index + 1, from, to[1..], cs, bound);
      var rest := ItemEdits("", index + 1, from, to[1..], cs, bound);
      r := ItemsRoundTrip(cur + [to[0]], index + 1, from, to[1..], cs, bound);
      assert ([one] + rest)[1..] == rest;
      SettledStep(cur, index, cur + [to[0]], r, to, cs);
    } else {
      r := cur;
    }
  }

  lemma MidwayPair(cur: seq<Json>, index: nat, from: seq<Json>, to: seq<Json>, cs: bool)
    requires ItemsMidway(cur, index, from, to, cs) && from != [] && to != []
    ensures index < |cur| && index < SIZE_MODULUS
    ensures Meaning(cur[index], cs) == Meaning(from[0], cs) && KeysDistinct(cur[index], false)
    ensures Meaning(Array(cur[index..][1..]), cs) == Meaning(Array(from[1..]), cs)
    ensures Patchable(from[0]) && Patchable(to[0])
  {
    ArrayLengths(cur[index..], from, cs);
    ArraySplit(cur[index..], from, cs);
  }

  lemma MidwayStep(cur: seq<Json>, index: nat, from: seq<Json>, to: seq<Json>, after: Json, cs: bool)
    requires ItemsMidway(cur, index, from, to, cs) && from != [] && to != []
    requires KeysDistinct(after, false)
    ensures index < |cur| && ItemsMidway(cur[index := after], index + 1, from[1..], to[1..], cs)
  {
    MidwayPair(cur, index, from, to, cs);
    assert cur[index := after][index + 1..] == cur[index..][1..];
  }

  lemma MidwayRemoved(cur: seq<Json>, index: nat, from: seq<Json>, to: seq<Json>, cs: bool)
    requires ItemsMidway(cur, index, from, to, cs) && from != []
    ensures index < |cur| && ItemsMidway(RemoveAt(cur, index), index, from[1..], to, cs)
  {
    ArrayLengths(cur[index..], from, cs);
    ArraySplit(cur[index..], from, cs);
    assert RemoveAt(cur, index)[index..] == cur[index..][1..];
  }

  lemma MidwayAppended(cur: seq<Json>, index: nat, to: seq<Json>, cs: bool)
    requires ItemsMidway(cur, index, [], to, cs) && to != []
    ensures index == |cur|
    ensures ItemsMidway(cur + [to[0]], index + 1, [], to[1..], cs)
  {
    ArrayLengths(cur[index..], [], cs);
    assert (cur + [to[0]])[index + 1..] == [];
  }

  lemma SettledStep(cur: seq<Json>, index: nat, next: seq<Json>, r: seq<Json>, to: seq<Json>, cs: bool)
    requires index < |next| && index <= |cur| && to != []
    requires next[..index] == cur[..index] && Meaning(next[index], cs) == Meaning(to[0], cs)
    requires index + 1 <= |r| && r[..index + 1] == next[..index + 1]
    requires Meaning(Array(r[index + 1..]), cs) == Meaning(Array(to[1..]), cs)
    ensures r[..index] == cur[..index]
    ensures Meaning(Array(r[index..]), cs) == Meaning(Array(to), cs)
  {
    assert r[..index] == r[..index + 1][..index] == next[..index];
    assert r[index] == r[..index + 1][index] == next[index];
    assert r[index..][1..] == r[index + 1..];
    ArraySplit(r[index..], to, cs);
  }

  // ----- objects -----

  lemma AllFoundAtStart(doc: seq<Member>, from: seq<Member>, sorted: seq<Member>, cs: bool)
    requires Distinct(doc, false) && Distinct(from, false) && Fields(doc, cs) == Fields(from, cs)
    requires forall k :: 0 <= k < |sorted| ==> sorted[k] in from
    ensures AllFound(doc, sorted, cs)
  {
    DistinctFolded(doc, cs);
    DistinctFolded(from, cs);
    forall k | 0 <= k < |sorted|
      ensures FoundFolded(doc, sorted[k].key, cs)
    {
      var i :| 0 <= i < |from| && from[i] == sorted[k];
      var j := Counterpart(from, doc, i, cs);
      assert Norm(doc[j].key, false) == Norm(from[i].key, false);
      FieldAt(doc, j, false);
      IndexOfNorm(doc, doc[j].key, from[i].key, false);
    }
  }

  lemma SortedForPatch(ms: seq<Member>, cs: bool)
    requires MembersPatchable(ms) && Distinct(ms, false)
    ensures WalkInput(SortedMembers(ms, cs), cs)
    ensures Fields(SortedMembers(ms, cs), cs) == Fields(ms, cs)
  {
    DistinctFolded(ms, cs);
    SortedMeaning(ms, cs);
    SortSorts(ms, cs);
    SameItemsDistinct(ms, Sort(ms, cs), false);
  }

  lemma {:induction false} ObjectRoundTrip(doc: seq<Member>, from: seq<Member>, to: seq<Member>, cs: bool, bound: nat)
    requires forall k :: 0 <= k < |from| ==> Height(from[k].item) < bound
    requires MembersPatchable(from) && Distinct(from, false)
    requires MembersPatchable(to) && Distinct(to, false) && KeysDistinct(Object(to), false)
    requires Distinct(doc, false) && MembersFolded(doc) && Fields(doc, cs) == Fields(from, cs)
    requires MembersUsable(SortedMembers(from, cs), SortedMembers(to, cs), cs, bound)
    ensures var es := MemberEdits("", SortedMembers(from, cs), SortedMembers(to, cs), cs, bound);
            AllGenerated(es) && Becomes(ApplyEdits(Object(doc), es, cs), Object(to), cs)
    decreases bound, 0, 1 + |from| + |to|
  {
    hide ApplyOne, ApplyEdits, MemberEdits, StrictlySorted, MembersPatchable, MembersFolded, KeysDistinct,
        Becomes, AllFound, MembersUsable;
    SortedForPatch(from, cs);
    SortedForPatch(to, cs);
    DistinctFolded(doc, cs);
    var fs, ts := SortedMembers(from, cs), SortedMembers(to, cs);
    AllFoundAtStart(doc, from, fs, cs);
    MemberEditsBelow(fs, ts, cs, bound);
    assert map[] + Fields(from, cs) == Fields(from, cs) && map[] + Fields(to, cs) == Fields(to, cs);
    var r := MembersRoundTrip(doc, fs, ts, map[], cs, bound);
    FoldedObject(r, to, cs);
  }

  lemma FoldedObject(r: seq<Member>, to: seq<Member>, cs: bool)
    requires Distinct(r, cs) && MembersFolded(r)
    requires Fields(r, cs) == Fields(to, cs) && KeysDistinct(Object(to), false)
    ensures Becomes(Outcome(Object(r), 0), Object(to), cs)
  {
    forall i | 0 <= i < |r|
      ensures KeysDistinct(r[i].item, cs)
    {
      KeysDistinctFolded(r[i].item, cs);
    }
    DistinctTransfers(Object(r), Object(to), cs);
  }

  lemma {:induction false} MembersRoundTrip(cur: seq<Member>, from: seq<Member>, to: seq<Member>,
                                            done: map<string, Value>, cs: bool, bound: nat)
      returns (r: seq<Member>)
    requires forall k :: 0 <= k < |from| ==> Height(from[k].item) < bound
    requires Walking(cur, from, to, done, cs) && WalkInput(from, cs) && WalkInput(to, cs)
    requires MembersUsable(from, to, cs, bound)
    ensures AllGenerated(MemberEdits("", from, to, cs, bound))
    ensures ApplyEdits(Object(cur), MemberEdits("", from, to, cs, bound), cs) == Outcome(Object(r), 0)
    ensures Distinct(r, cs) && MembersFolded(r) && Fields(r, cs) == done + Fields(to, cs)
    decreases bound, 0, |from| + |to|
  {
    hide ApplyOne, StrictlySorted, MembersPatchable, Decodable, Usable;
    MemberEditsBelow(from, to, cs, bound);
    if from == [] && to == [] {
      r := cur;
    } else if to == [] || (from != [] && Before(from[0].key, to[0].key, cs)) {
      WalkTail(from, cs);
      var i := WalkRemove(cur, from, to, done, cs);
      MemberEditsBelow(from[1..], to, cs, bound);
      var rest := MemberEdits("", from[1..], to, cs, bound);
      r := MembersRoundTrip(RemoveAt(cur, i), from[1..], to, done, cs, bound);
      assert ([Edit(RemoveOp, "" + "/" + Encode(from[0].key), None)] + rest)[1..] == rest;
    } else if from == [] || Before(to[0].key, from[0].key, cs) {
      WalkTail(to, cs);
      AbsentKey(from, to[0].key, cs);
      WalkAdd(cur, from, to, done, cs);
      MemberEditsBelow(from, to[1..], cs, bound);
      var rest := MemberEdits("", from, to[1..], cs, bound);
      var k, v := Norm(to[0].key, cs), Meaning(to[0].item, cs);
      r := MembersRoundTrip(cur + [to[0]], from, to[1..], done[k := v], cs, bound);
      assert ([Edit(AddOp, "" + "/" + Encode(to[0].key), Some(to[0].item))] + rest)[1..] == rest;
      DoneMore(done, Fields(to, cs), k);
    } else {
      BeforeAsymmetric(from[0].key, to[0].key, cs);
      WalkTail(from, cs);
      WalkTail(to, cs);
      var k, v := Norm(to[0].key, cs), Meaning(to[0].item, cs);
      var after := MemberRoundTrip(cur, from, to, done, cs, bound);
      MemberEditsBelow(from[1..], to[1..], cs, bound);
      r := MembersRoundTrip(after, from[1..], to[1..], done[k := v], cs, bound);
      ApplyEditsAppend(Object(cur), CreateEdits("" + "/" + Encode(from[0].key), from[0].item, to[0].item, cs),
                       MemberEdits("", from[1..], to[1..], cs, bound), cs);
      DoneMore(done, Fields(to, cs), k);
    }
  }

  lemma DoneMore(done: map<string, Value>, to: map<string, Value>, k: string)
    requires k in to && k !in done
    ensures done[k := to[k]] + (to - {k}) == done + to
  {
  }

  /** A member of both: edited below, or replaced. */
  lemma {:induction false} MemberRoundTrip(cur: seq<Member>, from: seq<Member>, to: seq<Member>,
                                           done: map<string, Value>, cs: bool, bound: nat)
      returns (after: seq<Member>)
    requires from != [] && to != [] && Height(from[0].item) < bound
    requires Walking(cur, from, to, done, cs) && WalkInput(from, cs) && WalkInput(to, cs)
    requires Norm(from[0].key, cs) == Norm(to[0].key, cs) && Usable(from[0].item, to[0].item, cs)
    requires Replaced(from[0].item, to[0].item) ==> Decodable(from[0].key)
    ensures var es := CreateEdits("" + "/" + Encode(from[0].key), from[0].item, to[0].item, cs);
            AllGenerated(es) && ApplyEdits(Object(cur), es, cs) == Outcome(Object(after), 0)
    ensures Walking(after, from[1..], to[1..], done[Norm(to[0].key, cs) := Meaning(to[0].item, cs)], cs)
    decreases bound, 0, 0
  {
    hide ApplyOne, StrictlySorted, Decodable;
    var token := "" + "/" + Encode(from[0].key);
    var es := CreateEdits("", from[0].item, to[0].item, cs);
    var i := WalkHead(cur, from, to, done, cs);
    NodeRoundTrip(cur[i].item, from[0].item, to[0].item, cs);
    CreateEditsPrefix(token, from[0].item, to[0].item, cs);
    if !Replaced(from[0].item, to[0].item) {
      EditedBelow(from[0].item, to[0].item, cs);
      var o := ApplyEdits(cur[i].item, es, cs);
      WalkEdit(cur, from, to, done, es, i, o, cs);
      after := cur[i := Keyed(cur[i].key, o.tree)];
    } else {
      ReplacedEdits(from[0].item, to[0].item, cs);
      after := WalkReplace(cur, from, to, done, cs);
      PrefixedReplace(token, to[0].item);
      SingleEdit(Object(cur), Edit(ReplaceOp, token, Some(to[0].item)), Object(after), cs);
    }
  }

  // ----- the theorem -----

  /** Patching any document that denotes the same value as `from` gives one that denotes `to`. */
  lemma PatchRoundTrips(doc: Json, from: Json, to: Json, cs: bool)
    requires Patchable(from) && Patchable(to) && Usable(from, to, cs)
    requires Meaning(doc, cs) == Meaning(from, cs) && KeysDistinct(doc, false)
    ensures var o := ApplyAll(doc, GeneratePatches(from, to, cs), cs);
            o.status == 0 && Meaning(o.tree, cs) == Meaning(to, cs)
  {
    NodeRoundTrip(doc, from, to, cs);
    ComposedPatchesApply(doc, CreateEdits("", from, to, cs), cs);
  }

  /** Where a key is added it matters: the key can be added by a patch exactly when it survives the in-place decoder. */
  lemma AddedKeyExact(key: string)
    ensures var o := ApplyAll(Object([]), GeneratePatches(Object([]), Object([Keyed(key, Null)]), true), true);
            Meaning(o.tree, true) == Meaning(Object([Keyed(key, Null)]), true) <==> Decodable(key)
  {
    hide AddValue, CreateEdits, Encode, DecodeInPlace, Decodable;
    var to := Object([Keyed(key, Null)]);
    var one := Edit(AddOp, "" + "/" + Encode(key), Some(Null));
    var stored := DecodeInPlace(Encode(key));
    AddedKeyEdit(key);
    DuplicateExact(Null);
    AddValueStored([], key, Null, true);
    ComposedPatchesApply(Object([]), [one], true);
    SingleEdit(Object([]), one, Object([] + [Keyed(stored, Null)]), true);
    DecodeInPlaceExact(key);
    SingleKeyFields(stored);
    SingleKeyFields(key);
  }

  lemma SingleKeyFields(key: string)
    ensures Meaning(Object([] + [Keyed(key, Null)]), true).fields.Keys == {key}
    ensures Meaning(Object([Keyed(key, Null)]), true) == VObject(map[key := VNull])
    ensures [] + [Keyed(key, Null)] == [Keyed(key, Null)]
  {
    var ms: seq<Member> := [Keyed(key, Null)];
    assert ms[1..] == [] && [] + ms == ms;
    assert Fields(ms, true) == Fields(ms[1..], true)[key := VNull];
  }

  lemma AddedKeyEdit(key: string)
    ensures CreateEdits("", Object([]), Object([Keyed(key, Null)]), true) ==
            [Edit(AddOp, "" + "/" + Encode(key), Some(Null))]
  {
  }

  /** So does depth where a value is put in: a new root arrives exactly when it can be copied. */
  lemma ReplacedRootExact(to: Json, cs: bool)
    requires !to.Null?
    ensures var o := ApplyAll(Null, GeneratePatches(Null, to, cs), cs);
            if Copyable(to) then o == Outcome(to, 0) else o == Outcome(Null, 7)
  {
    var one := Edit(ReplaceOp, "", Some(to));
    assert CreateEdits("", Null, to, cs) == [one];
    ComposedPatchesApply(Null, [one], cs);
    DuplicateExact(to);
    assert [one][1..] == [];
  }

  /**
   * A generated removal leaves the other fields exactly when the first member that is found ignoring case is the
   * member meant, in both modes: detach_path looks keys up ignoring case.
   */
  lemma RemovalExact(ms: seq<Member>, key: string, cs: bool)
    requires Distinct(ms, true) && Decodable(key) && IndexOf(ms, key, true) < |ms|
    ensures var removal := ComposedPatches([Edit(RemoveOp, "" + "/" + Encode(key), None)]);
            var o := ApplyAll(Object(ms), removal, cs);
            o.status == 0 &&
            (Meaning(o.tree, true) == VObject(Fields(ms, true) - {key}) <==>
                IndexOf(ms, key, false) == IndexOf(ms, key, true))
  {
    hide ApplyOne, Encode, Decodable;
    var i, meant := IndexOf(ms, key, false), IndexOf(ms, key, true);
    var one := Edit(RemoveOp, "" + "/" + Encode(key), None);
    ComposedPatchesApply(Object(ms), [one], cs);
    RemoveMember(ms, key, cs);
    SingleEdit(Object(ms), one, Object(RemoveAt(ms, i)), cs);
    FieldsWithout(ms, i, true);
    FieldsLookup(ms, key, true);
    assert key in Fields(ms, true);
    assert i != meant ==> ms[i].key != key;
  }

  /** Keys that differ only in case: the case-sensitive patch removes the wrong member. */
  lemma CaseCollision()
    ensures var from := Object([Keyed("A", Null), Keyed("a", True)]);
            var to := Object([Keyed("A", Null)]);
            ApplyAll(from, GeneratePatches(from, to, true), true) == Outcome(Object([Keyed("a", True)]), 0)
  {
    var f: seq<Member> := [Keyed("A", Null), Keyed("a", True)];
    var one := Edit(RemoveOp, "" + "/" + Encode("a"), None);
    CaseCollisionEdits();
    hide CreateEdits, Encode, Decodable;
    ComposedPatchesApply(Object(f), [one], true);
    PlainKeysDecode("a");
    hide ApplyOne;
    RemoveMember(f, "a", true);
    assert Fold("A")[0] == 'a' && Fold("a")[0] == 'a';
    assert Fold("A") == Fold("a");
    assert RemoveAt(f, 0) == [Keyed("a", True)];
    assert [one][1..] == [];
  }

  lemma CaseCollisionEdits()
    ensures CreateEdits("", Object([Keyed("A", Null), Keyed("a", True)]), Object([Keyed("A", Null)]), true) ==
            [Edit(RemoveOp, "" + "/" + Encode("a"), None)]
  {
    var f: seq<Member> := [Keyed("A", Null), Keyed("a", True)];
    var t: seq<Member> := [Keyed("A", Null)];
    hide Encode;
    assert "A"[0] < "a"[0] && StrCmp("A", "a") == -1;
    assert SortedMembers(f, true) == f && SortedMembers(t, true) == t;
    assert f[1..] == [Keyed("a", True)] && t[1..] == [] && f[1..][1..] == [];
    StrCmpZero("A", "A");
    var bound := Height(Object(f));
    assert MemberEdits("", [], [], true, bound) == [];
    assert MemberEdits("", f[1..], [], true, bound) == [Edit(RemoveOp, "" + "/" + Encode("a"), None)] + [];
    assert CreateEdits("" + "/" + Encode("A"), Null, Null, true) == [];
  }
}
