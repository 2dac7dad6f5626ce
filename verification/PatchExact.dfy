/** The JSON Patch round trip holds exactly when the two trees are usable for each other. */
module PatchExact {
  import opened CStrings
  import opened Sorting
  import opened Json
  import opened Compare
  import opened Pointer
  import opened StoredKeys
  import opened Patch
  import opened PatchFrames
  import opened PatchRoundTrip
  import opened PatchTheorem
  import opened Options
  import opened Sequences

  // ----- edits that fail -----

  lemma {:induction false} FailsAtOnce(t: Json, a: seq<Edit>, b: seq<Edit>, cs: bool)
    requires AllGenerated(a) && AllGenerated(b) && ApplyEdits(t, a, cs).status != 0
    ensures AllGenerated(a + b) && ApplyEdits(t, a + b, cs).status != 0
    decreases |a|
  {
    hide ApplyOne;
    if ApplyOne(t, a[0], cs).status == 0 {
      FailsAtOnce(ApplyOne(t, a[0], cs).tree, a[1..], b, cs);
      assert (a + b)[1..] == a[1..] + b;
    }
    assert (a + b)[0] == a[0];
  }

  lemma OneFails(t: Json, e: Edit, cs: bool)
    requires Generated(e.opcode) && ApplyOne(t, e, cs).status != 0
    ensures ApplyEdits(t, [e], cs).status != 0
  {
  }

  /** A value that cannot be copied cannot be put in. */
  lemma NotCopied(t: Json, op: Opcode, path: string, value: Json, cs: bool)
    requires (op.AddOp? || op.ReplaceOp?) && !Copyable(value)
    ensures ApplyOne(t, Edit(op, path, Some(value)), cs).status != 0
  {
    hide Duplicate, DetachPath;
    DuplicateExact(value);
  }

  /** An edit below a child that is not there fails. */
  lemma NoSuchChild(ms: seq<Member>, key: string, e: Edit, cs: bool)
    requires IndexOf(ms, key, cs) == |ms| && Generated(e.opcode) && e.path != [] && e.path[0] == '/'
    ensures ApplyOne(Object(ms), Edit(e.opcode, "/" + Encode(key) + e.path, e.value), cs).status != 0
  {
    hide Duplicate, DecodeInPlace, Encode, CopyOf, Resolve, SkipToken, FirstNamed, IndexOf;
    SplitBehind("/" + Encode(key), e.path);
    var rest := e.path[..LastSlash(e.path).value];
    EncodeNoSlash(key);
    SkipTokenExact(Encode(key), rest);
    FirstNamedExact(ms, key, rest, cs);
    ResolveToken(Object(ms), Encode(key), rest, cs);
  }

  // ----- one edit of a member, whatever its key -----

  lemma DetachStored(ms: seq<Member>, key: string, cs: bool)
    ensures DetachPath(Object(ms), "" + "/" + Encode(key), cs) ==
            var i := IndexOf(ms, Stored(key), false);
            if i < |ms| then Some((Object(RemoveAt(ms, i)), ms[i].item)) else None
  {
    hide Encode, DecodeInPlace, Norm;
    EncodeNoSlash(key);
    OneToken(Encode(key));
  }

  /** The members whose key is the same string ignoring case. */
  function Part(ms: seq<Member>, folded: string): seq<Member> {
    if ms == [] then []
    else (if Fold(ms[0].key) == folded then [ms[0]] else []) + Part(ms[1..], folded)
  }

  lemma {:induction false} PartAppend(a: seq<Member>, b: seq<Member>, folded: string)
    ensures Part(a + b, folded) == Part(a, folded) + Part(b, folded)
    decreases |a|
  {
    hide Fold;
    if a == [] {
      assert a + b == b;
    } else {
      PartAppend(a[1..], b, folded);
      assert (a + b)[0] == a[0] && (a + b)[1..] == a[1..] + b;
      var first := if Fold(a[0].key) == folded then [a[0]] else [];
      assert Part(a, folded) == first + Part(a[1..], folded);
      assert Part(a + b, folded) == first + (Part(a[1..], folded) + Part(b, folded));
    }
  }

  lemma PartOfOne(m: Member, folded: string)
    ensures Part([m], folded) == if Fold(m.key) == folded then [m] else []
  {
  }

  lemma PartAround(ms: seq<Member>, i: nat, folded: string)
    requires i < |ms| && Fold(ms[i].key) != folded
    ensures Part(ms, folded) == Part(ms[..i], folded) + Part(ms[i + 1..], folded)
  {
    hide Fold, Part;
    PartAppend(ms[..i], [ms[i]], folded);
    PartAppend(ms[..i] + [ms[i]], ms[i + 1..], folded);
    PartOfOne(ms[i], folded);
    assert ms == ms[..i] + [ms[i]] + ms[i + 1..];
    assert Part(ms[..i], folded) + [] == Part(ms[..i], folded);
  }

  lemma PartRemoved(ms: seq<Member>, i: nat, folded: string)
    requires i < |ms| && Fold(ms[i].key) != folded
    ensures Part(RemoveAt(ms, i), folded) == Part(ms, folded)
  {
    hide Fold, Part;
    PartAround(ms, i, folded);
    PartAppend(ms[..i], ms[i + 1..], folded);
  }

  lemma PartPut(ms: seq<Member>, i: nat, item: Json, folded: string)
    requires i < |ms| && Fold(ms[i].key) != folded
    ensures Part(ms[i := Keyed(ms[i].key, item)], folded) == Part(ms, folded)
  {
    hide Fold, Part;
    var after := ms[i := Keyed(ms[i].key, item)];
    PartAround(ms, i, folded);
    PartAround(after, i, folded);
    assert after[..i] == ms[..i] && after[i + 1..] == ms[i + 1..];
  }

  lemma PartAdded(ms: seq<Member>, key: string, item: Json, folded: string, cs: bool)
    requires Fold(key) != folded
    ensures Part(DeleteKey(ms, key, cs) + [Keyed(key, item)], folded) == Part(ms, folded)
  {
    hide Fold, Part;
    var i, left := IndexOf(ms, key, cs), DeleteKey(ms, key, cs);
    if i < |ms| {
      SameFold(ms[i].key, key, cs);
      PartRemoved(ms, i, folded);
    }
    PartAppend(left, [Keyed(key, item)], folded);
    PartOfOne(Keyed(key, item), folded);
    assert Part(left, folded) + [] == Part(left, folded);
  }

  /** A lookup sees only the members whose key is the same ignoring case. */
  lemma {:induction false} FieldsOfPart(ms: seq<Member>, key: string, cs: bool)
    ensures Norm(key, cs) in Fields(ms, cs) <==> Norm(key, cs) in Fields(Part(ms, Fold(key)), cs)
    ensures Norm(key, cs) in Fields(ms, cs) ==>
              Fields(ms, cs)[Norm(key, cs)] == Fields(Part(ms, Fold(key)), cs)[Norm(key, cs)]
    decreases |ms|
  {
    hide Fold, Meaning;
    if ms == [] {
    } else {
      FieldsOfPart(ms[1..], key, cs);
      FirstField(ms, cs);
      var rest := Part(ms[1..], Fold(key));
      if Fold(ms[0].key) == Fold(key) {
        assert ([ms[0]] + rest)[1..] == rest;
        FirstField([ms[0]] + rest, cs);
      } else {
        assert [] + rest == rest;
        if Norm(ms[0].key, cs) == Norm(key, cs) { SameFold(ms[0].key, key, cs); }
      }
    }
  }

  /** Two objects with the same members under a key look the same under it. */
  lemma SamePart(a: seq<Member>, b: seq<Member>, key: string, cs: bool)
    requires Part(a, Fold(key)) == Part(b, Fold(key))
    ensures FieldUnder(Fields(a, cs), Norm(key, cs)) == FieldUnder(Fields(b, cs), Norm(key, cs))
  {
    FieldsOfPart(a, key, cs);
    FieldsOfPart(b, key, cs);
  }

  function FieldUnder(f: map<string, Value>, k: string): Option<Value> {
    if k in f then Some(f[k]) else None
  }

  // ----- which keys a walk over two objects edits -----

  /** The keys at the ends of paths. */
  function EditedKeys(from: seq<Member>, to: seq<Member>, cs: bool): seq<string>
    decreases |from| + |to|
  {
    if from == [] && to == [] then []
    else if to == [] || (from != [] && Before(from[0].key, to[0].key, cs)) then
      [from[0].key] + EditedKeys(from[1..], to, cs)
    else if from == [] || Before(to[0].key, from[0].key, cs) then
      [to[0].key] + EditedKeys(from, to[1..], cs)
    else
      (if Replaced(from[0].item, to[0].item) then [from[0].key] else []) + EditedKeys(from[1..], to[1..], cs)
  }

  /** The keys of members that are only edited below. */
  function EnteredKeys(from: seq<Member>, to: seq<Member>, cs: bool): seq<string>
    decreases |from| + |to|
  {
    if from == [] && to == [] then []
    else if to == [] || (from != [] && Before(from[0].key, to[0].key, cs)) then EnteredKeys(from[1..], to, cs)
    else if from == [] || Before(to[0].key, from[0].key, cs) then EnteredKeys(from, to[1..], cs)
    else
      (if Replaced(from[0].item, to[0].item) then [] else [from[0].key]) + EnteredKeys(from[1..], to[1..], cs)
  }

  predicate HasFold(ms: seq<Member>, key: string) {
    exists i :: 0 <= i < |ms| && Fold(ms[i].key) == Fold(key)
  }

  lemma HasFoldCons(ms: seq<Member>, key: string)
    requires ms != []
    ensures HasFold(ms, key) <==> Fold(ms[0].key) == Fold(key) || HasFold(ms[1..], key)
  {
    hide Fold;
    if HasFold(ms[1..], key) {
      var i :| 0 <= i < |ms[1..]| && Fold(ms[1..][i].key) == Fold(key);
      assert ms[i + 1] == ms[1..][i];
    }
    if HasFold(ms, key) && Fold(ms[0].key) != Fold(key) {
      var i :| 0 <= i < |ms| && Fold(ms[i].key) == Fold(key);
      assert ms[1..][i - 1] == ms[i];
    }
  }

  lemma {:induction false} WhereKeysAre(from: seq<Member>, to: seq<Member>, cs: bool)
    ensures forall k :: k in EditedKeys(from, to, cs) ==> HasFold(from, k) || HasFold(to, k)
    ensures forall k :: k in EnteredKeys(from, to, cs) ==> HasFold(from, k) && HasFold(to, k)
    decreases |from| + |to|
  {
    hide Fold, HasFold, Before, Replaced;
    if from != [] { forall k { HasFoldCons(from, k); } }
    if to != [] { forall k { HasFoldCons(to, k); } }
    if from == [] && to == [] {
    } else if to == [] || (from != [] && Before(from[0].key, to[0].key, cs)) {
      WhereKeysAre(from[1..], to, cs);
    } else if from == [] || Before(to[0].key, from[0].key, cs) {
      WhereKeysAre(from, to[1..], cs);
    } else {
      NeitherBefore(from[0].key, to[0].key, cs);
      WhereKeysAre(from[1..], to[1..], cs);
    }
  }

  lemma DistinctHead(ms: seq<Member>, key: string)
    requires ms != [] && Distinct(ms, false) && HasFold(ms[1..], key)
    ensures Fold(ms[0].key) != Fold(key) && Distinct(ms[1..], false)
  {
    var i :| 0 <= i < |ms[1..]| && Fold(ms[1..][i].key) == Fold(key);
    assert ms[i + 1] == ms[1..][i];
  }

  lemma DistinctTail(ms: seq<Member>)
    requires ms != [] && Distinct(ms, false)
    ensures Distinct(ms[1..], false)
  {
  }

  /** No key is edited at its end and below, even ignoring case. */
  lemma {:induction false} EditedOrEntered(from: seq<Member>, to: seq<Member>, cs: bool)
    requires Distinct(from, false) && Distinct(to, false)
    ensures forall k, m :: k in EditedKeys(from, to, cs) && m in EnteredKeys(from, to, cs) ==> Fold(k) != Fold(m)
    decreases |from| + |to|
  {
    hide Fold, HasFold, Before, Replaced, Distinct;
    if from == [] && to == [] {
    } else if to == [] || (from != [] && Before(from[0].key, to[0].key, cs)) {
      DistinctTail(from);
      EditedOrEntered(from[1..], to, cs);
      WhereKeysAre(from[1..], to, cs);
      forall m | m in EnteredKeys(from, to, cs) { DistinctHead(from, m); }
    } else if from == [] || Before(to[0].key, from[0].key, cs) {
      DistinctTail(to);
      EditedOrEntered(from, to[1..], cs);
      WhereKeysAre(from, to[1..], cs);
      forall m | m in EnteredKeys(from, to, cs) { DistinctHead(to, m); }
    } else {
      NeitherBefore(from[0].key, to[0].key, cs);
      DistinctTail(from);
      DistinctTail(to);
      EditedOrEntered(from[1..], to[1..], cs);
      WhereKeysAre(from[1..], to[1..], cs);
      forall m | HasFold(from[1..], m) { DistinctHead(from, m); }
      forall m | HasFold(to[1..], m) { DistinctHead(to, m); }
    }
  }

  lemma ReplacedMeans(a: Json, b: Json, cs: bool)
    requires Replaced(a, b) && Plain(a) && Plain(b)
    ensures Meaning(a, cs) != Meaning(b, cs)
  {
  }

  /** Under a key that is edited the two objects differ. */
  lemma {:induction false} EditedDiffers(from: seq<Member>, to: seq<Member>, cs: bool, key: string)
    requires WalkInput(from, cs) && WalkInput(to, cs) && key in EditedKeys(from, to, cs)
    ensures FieldUnder(Fields(from, cs), Norm(key, cs)) != FieldUnder(Fields(to, cs), Norm(key, cs))
    decreases |from| + |to|
  {
    hide Norm, Before, Replaced, Fields, Meaning, StrictlySorted, MembersPatchable;
    if from != [] { WalkTail(from, cs); }
    if to != [] { WalkTail(to, cs); }
    if from == [] && to == [] {
    } else if to == [] || (from != [] && Before(from[0].key, to[0].key, cs)) {
      AbsentKey(to, from[0].key, cs);
      if key != from[0].key { EditedDiffers(from[1..], to, cs, key); }
    } else if from == [] || Before(to[0].key, from[0].key, cs) {
      AbsentKey(from, to[0].key, cs);
      if key != to[0].key { EditedDiffers(from, to[1..], cs, key); }
    } else {
      NeitherBefore(from[0].key, to[0].key, cs);
      if key in EditedKeys(from[1..], to[1..], cs) {
        EditedDiffers(from[1..], to[1..], cs, key);
      } else {
        PlainHeads(from, to, cs);
        ReplacedMeans(from[0].item, to[0].item, cs);
      }
    }
  }

  lemma PlainHeads(from: seq<Member>, to: seq<Member>, cs: bool)
    requires from != [] && to != [] && WalkInput(from, cs) && WalkInput(to, cs)
    ensures Plain(from[0].item) && Plain(to[0].item)
  {
  }

  // ----- what a walk leaves alone -----

  /** Successful edits leave the members under a key alone. */
  ghost predicate Spares(o: Outcome, cur: seq<Member>, folded: string) {
    o.status == 0 ==> o.tree.Object? && Part(o.tree.members, folded) == Part(cur, folded)
  }

  lemma RemoveSpares(cur: seq<Member>, key: string, cs: bool, folded: string)
    requires Fold(Stored(key)) != folded
    ensures Spares(ApplyOne(Object(cur), Edit(RemoveOp, "" + "/" + Encode(key), None), cs), cur, folded)
  {
    hide Fold, Part, Stored, DetachPath, Encode;
    DetachStored(cur, key, cs);
    var i := IndexOf(cur, Stored(key), false);
    if i < |cur| {
      SameFold(cur[i].key, Stored(key), false);
      PartRemoved(cur, i, folded);
    }
  }

  lemma AddSpares(cur: seq<Member>, key: string, item: Json, cs: bool, folded: string)
    requires Fold(Stored(key)) != folded
    ensures Spares(ApplyOne(Object(cur), Edit(AddOp, "" + "/" + Encode(key), Some(item)), cs), cur, folded)
    ensures Copyable(item) ==> Spares(AddValue(Object(cur), "" + "/" + Encode(key), Some(item), cs), cur, folded)
  {
    hide Fold, Part, AddValue, Encode, Duplicate, DecodeInPlace;
    if Copyable(item) {
      DuplicateExact(item);
      AddValueStored(cur, key, item, cs);
      PartAdded(cur, Stored(key), item, folded, cs);
    } else {
      NotCopied(Object(cur), AddOp, "" + "/" + Encode(key), item, cs);
    }
  }

  lemma ReplaceSpares(cur: seq<Member>, key: string, item: Json, cs: bool, folded: string)
    requires Fold(Stored(key)) != folded
    ensures Spares(ApplyOne(Object(cur), Edit(ReplaceOp, "" + "/" + Encode(key), Some(item)), cs), cur, folded)
  {
    hide Fold, Part, Stored, DetachPath, AddValue, Encode, Duplicate;
    if Copyable(item) {
      DuplicateExact(item);
      DetachStored(cur, key, cs);
      var i := IndexOf(cur, Stored(key), false);
      if i < |cur| {
        SameFold(cur[i].key, Stored(key), false);
        PartRemoved(cur, i, folded);
        AddSpares(RemoveAt(cur, i), key, item, cs, folded);
      }
    } else {
      NotCopied(Object(cur), ReplaceOp, "" + "/" + Encode(key), item, cs);
    }
  }

  lemma BelowSpares(cur: seq<Member>, key: string, es: seq<Edit>, cs: bool, folded: string)
    requires Below(es) && Fold(key) != folded
    ensures AllGenerated(Prefixed("/" + Encode(key), es))
    ensures Spares(ApplyEdits(Object(cur), Prefixed("/" + Encode(key), es), cs), cur, folded)
  {
    hide Fold, Part, ApplyOne, Encode;
    var i := IndexOf(cur, key, cs);
    if i < |cur| {
      hide ApplyEdits;
      EditsUnderChild(Object(cur), Encode(key), key, i, es, cs);
      SameFold(cur[i].key, key, cs);
      PartPut(cur, i, ApplyEdits(cur[i].item, es, cs).tree, folded);
    } else if es != [] {
      NoSuchChild(cur, key, es[0], cs);
    }
  }

  /** Successful edits one after the other. */
  lemma SparesTwice(cur: seq<Member>, a: seq<Edit>, b: seq<Edit>, cs: bool, folded: string)
    requires AllGenerated(a) && AllGenerated(b) && Spares(ApplyEdits(Object(cur), a, cs), cur, folded)
    requires var o := ApplyEdits(Object(cur), a, cs);
             o.status == 0 ==> Spares(ApplyEdits(o.tree, b, cs), o.tree.members, folded)
    ensures AllGenerated(a + b) && Spares(ApplyEdits(Object(cur), a + b, cs), cur, folded)
  {
    hide ApplyOne, ApplyEdits, Part;
    if ApplyEdits(Object(cur), a, cs).status == 0 {
      ApplyEditsAppend(Object(cur), a, b, cs);
    } else {
      FailsAtOnce(Object(cur), a, b, cs);
    }
  }

  lemma OneSpares(cur: seq<Member>, e: Edit, cs: bool, folded: string)
    requires Generated(e.opcode) && Spares(ApplyOne(Object(cur), e, cs), cur, folded)
    ensures Spares(ApplyEdits(Object(cur), [e], cs), cur, folded)
  {
  }

  /** The edits of both members, whatever they do, spare the members under other keys. */
  lemma PairSpares(cur: seq<Member>, key: string, from: Json, to: Json, cs: bool, folded: string)
    requires if Replaced(from, to) then Fold(Stored(key)) != folded else Fold(key) != folded
    ensures var es := CreateEdits("" + "/" + Encode(key), from, to, cs);
            AllGenerated(es) && Spares(ApplyEdits(Object(cur), es, cs), cur, folded)
  {
    hide Fold, Part, ApplyOne, ApplyEdits, CreateEdits, Stored, Encode, Replaced;
    var token := "" + "/" + Encode(key);
    CreateEditsPrefix(token, from, to, cs);
    ReplacedEdits(from, to, cs);
    if Replaced(from, to) {
      PrefixedReplace(token, to);
      ReplaceSpares(cur, key, to, cs, folded);
      OneSpares(cur, Edit(ReplaceOp, token, Some(to)), cs, folded);
    } else {
      EditedBelow(from, to, cs);
      BelowSpares(cur, key, CreateEdits("", from, to, cs), cs, folded);
      assert token == "/" + Encode(key);
    }
  }

  /** A walk over two objects spares the members under every key that it neither stores to nor enters. */
  lemma {:induction false} WalkSpares(cur: seq<Member>, from: seq<Member>, to: seq<Member>, cs: bool, bound: nat,
                                      folded: string)
    requires forall k :: 0 <= k < |from| ==> Height(from[k].item) < bound
    requires forall k :: k in EditedKeys(from, to, cs) ==> Fold(Stored(k)) != folded
    requires forall k :: k in EnteredKeys(from, to, cs) ==> Fold(k) != folded
    ensures AllGenerated(MemberEdits("", from, to, cs, bound))
    ensures Spares(ApplyEdits(Object(cur), MemberEdits("", from, to, cs, bound), cs), cur, folded)
    decreases |from| + |to|, 0
  {
    hide Fold, Part, Stored, Encode, ApplyOne, ApplyEdits, Replaced, CreateEdits, Before, AllGenerated, Spares;
    if from == [] && to == [] {
      NothingSpares(cur, cs, folded);
    } else if to == [] || (from != [] && Before(from[0].key, to[0].key, cs)) {
      var one := Edit(RemoveOp, "" + "/" + Encode(from[0].key), None);
      RemoveSpares(cur, from[0].key, cs, folded);
      OneGenerated(one);
      OneSpares(cur, one, cs, folded);
      WalkSparesRest(cur, [one], from[1..], to, cs, bound, folded);
    } else if from == [] || Before(to[0].key, from[0].key, cs) {
      var one := Edit(AddOp, "" + "/" + Encode(to[0].key), Some(to[0].item));
      AddSpares(cur, to[0].key, to[0].item, cs, folded);
      OneGenerated(one);
      OneSpares(cur, one, cs, folded);
      WalkSparesRest(cur, [one], from, to[1..], cs, bound, folded);
    } else {
      PairSpares(cur, from[0].key, from[0].item, to[0].item, cs, folded);
      var es := CreateEdits("" + "/" + Encode(from[0].key), from[0].item, to[0].item, cs);
      WalkSparesRest(cur, es, from[1..], to[1..], cs, bound, folded);
    }
  }

  lemma OneGenerated(e: Edit)
    requires Generated(e.opcode)
    ensures AllGenerated([e])
  {
  }

  lemma NothingSpares(cur: seq<Member>, cs: bool, folded: string)
    ensures AllGenerated([]) && Spares(ApplyEdits(Object(cur), [], cs), cur, folded)
  {
  }

  /** The rest of the walk, after the edits of one step. */
  lemma {:induction false} WalkSparesRest(cur: seq<Member>, es: seq<Edit>, from: seq<Member>, to: seq<Member>,
                                          cs: bool, bound: nat, folded: string)
    requires AllGenerated(es) && Spares(ApplyEdits(Object(cur), es, cs), cur, folded)
    requires forall k :: 0 <= k < |from| ==> Height(from[k].item) < bound
    requires forall k :: k in EditedKeys(from, to, cs) ==> Fold(Stored(k)) != folded
    requires forall k :: k in EnteredKeys(from, to, cs) ==> Fold(k) != folded
    ensures var all := es + MemberEdits("", from, to, cs, bound);
            AllGenerated(all) && Spares(ApplyEdits(Object(cur), all, cs), cur, folded)
    decreases |from| + |to|, 1
  {
    hide Fold, Part, Stored, ApplyOne, ApplyEdits, EditedKeys, EnteredKeys, MemberEdits;
    var o := ApplyEdits(Object(cur), es, cs);
    if o.status == 0 {
      WalkSpares(o.tree.members, from, to, cs, bound, folded);
      assert Object(o.tree.members) == o.tree;
    } else {
      MemberEditsBelow(from, to, cs, bound);
    }
    SparesTwice(cur, es, MemberEdits("", from, to, cs, bound), cs, folded);
  }

  // ----- keys that do not survive -----

  /** The patch did not do what it is for. */
  ghost predicate Fails(o: Outcome, to: Json, cs: bool) {
    !(o.status == 0 && Meaning(o.tree, cs) == Meaning(to, cs))
  }

  /**
   * With a key at the end of a path that does not survive the decoder, the patch fails: there is such a key that
   * no edit stores to, so the member that should change is spared.
   */
  lemma StrayKeyFails(doc: seq<Member>, from: seq<Member>, to: seq<Member>, cs: bool, bound: nat, key: string)
    requires forall k :: 0 <= k < |from| ==> Height(from[k].item) < bound
    requires WalkInput(from, cs) && WalkInput(to, cs) && Fields(doc, cs) == Fields(from, cs)
    requires key in EditedKeys(from, to, cs) && !Decodable(key)
    ensures AllGenerated(MemberEdits("", from, to, cs, bound))
    ensures var o := ApplyEdits(Object(doc), MemberEdits("", from, to, cs, bound), cs);
            !(o.status == 0 && o.tree.Object? && Fields(o.tree.members, cs) == Fields(to, cs))
  {
    hide Fold, Part, Stored, Decodable, ApplyOne, ApplyEdits, EditedKeys, EnteredKeys, MemberEdits, Fields, Norm,
        StrictlySorted, MembersPatchable;
    var lone := NobodysImage(EditedKeys(from, to, cs), key);
    EditedOrEntered(from, to, cs);
    WalkSpares(doc, from, to, cs, bound, Fold(lone));
    EditedDiffers(from, to, cs, lone);
    var o := ApplyEdits(Object(doc), MemberEdits("", from, to, cs, bound), cs);
    if o.status == 0 {
      SamePart(o.tree.members, doc, lone, cs);
    }
  }

  // ----- arrays -----

  /** A pair of elements, whatever its edits do, changes the element at its index and no other. */
  lemma PairPuts(cur: seq<Json>, index: nat, from: Json, to: Json, cs: bool) returns (after: Json)
    requires index < |cur| && index < SIZE_MODULUS
    ensures AllGenerated(CreateEdits("", from, to, cs))
    ensures AllGenerated(CreateEdits("" + "/" + Digits(index), from, to, cs))
    ensures var o := ApplyEdits(Array(cur), CreateEdits("" + "/" + Digits(index), from, to, cs), cs);
            && (o.status == 0 ==> o.tree == Array(cur[index := after]))
            && (!Replaced(from, to) ==>
                  Outcome(after, o.status) == ApplyEdits(cur[index], CreateEdits("", from, to, cs), cs))
            && (Replaced(from, to) && !Copyable(to) ==> o.status != 0)
  {
    hide ApplyOne, ApplyEdits, CreateEdits, Digits, Replaced;
    var token := "" + "/" + Digits(index);
    var es := CreateEdits("", from, to, cs);
    CreateEditsShape(from, to, cs);
    CreateEditsPrefix(token, from, to, cs);
    if !Replaced(from, to) {
      EditedBelow(from, to, cs);
      after := ApplyEdits(cur[index], es, cs).tree;
      assert token == "/" + Digits(index);
      EditsUnderChild(Array(cur), Digits(index), "", index, es, cs);
    } else {
      after := to;
      ReplacedEdits(from, to, cs);
      PrefixedReplace(token, to);
      var one := Edit(ReplaceOp, token, Some(to));
      if Copyable(to) {
        ReplaceItem(cur, index, to, cs);
        SingleEdit(Array(cur), one, Array(cur[index := to]), cs);
      } else {
        NotCopied(Array(cur), ReplaceOp, token, to, cs);
        OneFails(Array(cur), one, cs);
      }
    }
  }

  /** Successful edits leave the first elements alone. */
  ghost predicate KeepsFirst(o: Outcome, cur: seq<Json>, n: nat) {
    o.status == 0 ==> o.tree.Array? && n <= |o.tree.items| && n <= |cur| && o.tree.items[..n] == cur[..n]
  }

  lemma ApplyCons(t: Json, e: Edit, es: seq<Edit>, cs: bool)
    requires Generated(e.opcode) && AllGenerated(es)
    ensures AllGenerated([e] + es)
    ensures var first := ApplyOne(t, e, cs);
            ApplyEdits(t, [e] + es, cs) == if first.status != 0 then first else ApplyEdits(first.tree, es, cs)
  {
    hide ApplyOne;
    assert ([e] + es)[1..] == es;
  }

  lemma ApplyNothing(t: Json, cs: bool)
    ensures ApplyEdits(t, [], cs) == Outcome(t, 0)
  {
  }

  lemma ItemEditsUnfold(index: nat, from: seq<Json>, to: seq<Json>, cs: bool, bound: nat)
    requires forall k :: 0 <= k < |from| ==> Height(from[k]) < bound
    ensures ItemEdits("", index, from, to, cs, bound) ==
            if from != [] && to != [] then
              CreateEdits("" + "/" + Digits(index), from[0], to[0], cs)
                  + ItemEdits("", index + 1, from[1..], to[1..], cs, bound)
            else if from != [] then
              [Edit(RemoveOp, "" + "/" + Encode(Digits(index)), None)] + ItemEdits("", index, from[1..], to, cs, bound)
            else if to != [] then
              [Edit(AddOp, "" + "/" + Encode("-"), Some(to[0]))] + ItemEdits("", index + 1, from, to[1..], cs, bound)
            else []
  {
    hide Digits, Encode, CreateEdits;
  }

  lemma {:induction false} WalkKeepsFirst(cur: seq<Json>, index: nat, n: nat, from: seq<Json>, to: seq<Json>,
                                          cs: bool, bound: nat)
    requires forall k :: 0 <= k < |from| ==> Height(from[k]) < bound
    requires n <= index && |cur| == index + |from| <= SIZE_MODULUS && index + |to| <= SIZE_MODULUS
    ensures AllGenerated(ItemEdits("", index, from, to, cs, bound))
    ensures KeepsFirst(ApplyEdits(Array(cur), ItemEdits("", index, from, to, cs, bound), cs), cur, n)
    decreases |from| + |to|
  {
    hide ApplyOne, ApplyEdits, Replaced, CreateEdits, Encode, Digits, Copyable, ItemEdits;
    ItemEditsUnfold(index, from, to, cs, bound);
    ItemEditsBelow(index, from, to, cs, bound);
    if from != [] && to != [] {
      var after := PairPuts(cur, index, from[0], to[0], cs);
      var es := CreateEdits("" + "/" + Digits(index), from[0], to[0], cs);
      var rest := ItemEdits("", index + 1, from[1..], to[1..], cs, bound);
      WalkKeepsFirst(cur[index := after], index + 1, n, from[1..], to[1..], cs, bound);
      assert cur[index := after][..n] == cur[..n];
      if ApplyEdits(Array(cur), es, cs).status == 0 {
        ApplyEditsAppend(Array(cur), es, rest, cs);
      } else {
        FailsAtOnce(Array(cur), es, rest, cs);
      }
    } else if from != [] {
      var one := Edit(RemoveOp, "" + "/" + Encode(Digits(index)), None);
      RemoveItem(cur, index, cs);
      ItemEditsBelow(index, from[1..], to, cs, bound);
      ApplyCons(Array(cur), one, ItemEdits("", index, from[1..], to, cs, bound), cs);
      WalkKeepsFirst(RemoveAt(cur, index), index, n, from[1..], to, cs, bound);
      assert RemoveAt(cur, index)[..n] == cur[..n];
    } else if to != [] {
      var one := Edit(AddOp, "" + "/" + Encode("-"), Some(to[0]));
      var rest := ItemEdits("", index + 1, from, to[1..], cs, bound);
      ItemEditsBelow(index + 1, from, to[1..], cs, bound);
      ApplyCons(Array(cur), one, rest, cs);
      if Copyable(to[0]) {
        AppendItem(cur, to[0], cs);
        WalkKeepsFirst(cur + [to[0]], index + 1, n, from, to[1..], cs, bound);
        assert (cur + [to[0]])[..n] == cur[..n];
      } else {
        NotCopied(Array(cur), AddOp, "" + "/" + Encode("-"), to[0], cs);
      }
    } else {
      assert ApplyEdits(Array(cur), [], cs) == Outcome(Array(cur), 0) by { ApplyNothing(Array(cur), cs); }
    }
  }

  /** From an index on the array is what it should be. */
  ghost predicate ItemsGood(o: Outcome, index: nat, to: seq<Json>, cs: bool) {
    && o.status == 0 && o.tree.Array? && index <= |o.tree.items|
    && Meaning(Array(o.tree.items[index..]), cs) == Meaning(Array(to), cs)
  }

  lemma GoodTail(o: Outcome, index: nat, to: seq<Json>, cs: bool)
    requires ItemsGood(o, index, to, cs) && to != []
    ensures ItemsGood(o, index + 1, to[1..], cs)
    ensures index < |o.tree.items| && Meaning(o.tree.items[index], cs) == Meaning(to[0], cs)
  {
    var r := o.tree.items;
    ArrayLengths(r[index..], to, cs);
    ArraySplit(r[index..], to, cs);
    assert r[index..][1..] == r[index + 1..];
  }

  lemma {:induction false} ItemsFail(cur: seq<Json>, index: nat, from: seq<Json>, to: seq<Json>, cs: bool, bound: nat)
    requires forall k :: 0 <= k < |from| ==> Height(from[k]) < bound
    requires ItemsMidway(cur, index, from, to, cs) && !ItemsUsable(from, to, cs, bound)
    ensures AllGenerated(ItemEdits("", index, from, to, cs, bound))
    ensures !ItemsGood(ApplyEdits(Array(cur), ItemEdits("", index, from, to, cs, bound), cs), index, to, cs)
    decreases bound, 0, |from| + |to|
  {
    hide ApplyOne, ItemsMidway, Replaced, CreateEdits, Encode, Digits, Copyable, Usable, ItemsGood, Height;
    ItemEditsBelow(index, from, to, cs, bound);
    var all := ItemEdits("", index, from, to, cs, bound);
    if ItemsGood(ApplyEdits(Array(cur), all, cs), index, to, cs) && to != [] {
      GoodTail(ApplyEdits(Array(cur), all, cs), index, to, cs);
    }
    if from != [] {
      MidwayPair(cur, index, from, to, cs);
      if Usable(from[0], to[0], cs) {
        UsablePairThenFail(cur, index, from, to, cs, bound);
      } else {
        PairFails(cur, index, from, to, cs, bound);
      }
    } else {
      var one := Edit(AddOp, "" + "/" + Encode("-"), Some(to[0]));
      var rest := ItemEdits("", index + 1, from, to[1..], cs, bound);
      assert ([one] + rest)[1..] == rest;
      if Copyable(to[0]) {
        AppendItem(cur, to[0], cs);
        MidwayAppended(cur, index, to, cs);
        ItemsFail(cur + [to[0]], index + 1, from, to[1..], cs, bound);
      } else {
        NotCopied(Array(cur), AddOp, "" + "/" + Encode("-"), to[0], cs);
        NotGood(ApplyEdits(Array(cur), all, cs), index, to, cs);
      }
    }
  }

  lemma NotGood(o: Outcome, index: nat, to: seq<Json>, cs: bool)
    requires o.status != 0
    ensures !ItemsGood(o, index, to, cs)
  {
  }

  /** The first pair is usable, and a later one is not. */
  lemma {:induction false} UsablePairThenFail(cur: seq<Json>, index: nat, from: seq<Json>, to: seq<Json>,
      cs: bool, bound: nat)
    requires forall k :: 0 <= k < |from| ==> Height(from[k]) < bound
    requires ItemsMidway(cur, index, from, to, cs) && from != [] && to != [] && Usable(from[0], to[0], cs)
    requires !ItemsUsable(from[1..], to[1..], cs, bound)
    ensures AllGenerated(ItemEdits("", index, from, to, cs, bound))
    ensures !ItemsGood(ApplyEdits(Array(cur), ItemEdits("", index, from, to, cs, bound), cs), index + 1, to[1..], cs)
    decreases bound, 0, |from| + |to| - 1
  {
    hide ApplyOne, ApplyEdits, ItemsMidway, CreateEdits, Digits, Usable, ItemsUsable, ItemsGood, Meaning, Patchable,
        KeysDistinct;
    MidwayPair(cur, index, from, to, cs);
    var after := PairRoundTrip(cur, index, from[0], to[0], cs);
    MidwayStep(cur, index, from, to, after, cs);
    ItemsFail(cur[index := after], index + 1, from[1..], to[1..], cs, bound);
    ApplyEditsAppend(Array(cur), CreateEdits("" + "/" + Digits(index), from[0], to[0], cs),
                     ItemEdits("", index + 1, from[1..], to[1..], cs, bound), cs);
  }

  /** The first pair is not usable: its element stays wrong, or the patch stops. */
  lemma {:induction false} PairFails(cur: seq<Json>, index: nat, from: seq<Json>, to: seq<Json>, cs: bool, bound: nat)
    requires forall k :: 0 <= k < |from| ==> Height(from[k]) < bound
    requires ItemsMidway(cur, index, from, to, cs) && from != [] && to != [] && !Usable(from[0], to[0], cs)
    ensures AllGenerated(ItemEdits("", index, from, to, cs, bound))
    ensures !ItemsGood(ApplyEdits(Array(cur), ItemEdits("", index, from, to, cs, bound), cs), index, to, cs)
    decreases bound, 0, |from| + |to| - 1
  {
    hide ApplyOne, ApplyEdits, ItemsMidway, CreateEdits, Digits, ItemsUsable, ItemsGood, Meaning, Patchable,
        KeysDistinct, Usable;
    MidwayPair(cur, index, from, to, cs);
    MidwayLengths(cur, index, from, to, cs);
    var es := CreateEdits("" + "/" + Digits(index), from[0], to[0], cs);
    var rest := ItemEdits("", index + 1, from[1..], to[1..], cs, bound);
    var after := PairPuts(cur, index, from[0], to[0], cs);
    ItemEditsBelow(index + 1, from[1..], to[1..], cs, bound);
    if ApplyEdits(Array(cur), es, cs).status != 0 {
      FailsAtOnce(Array(cur), es, rest, cs);
      NotGood(ApplyEdits(Array(cur), es + rest, cs), index, to, cs);
    } else {
      ReplacedUsable(from[0], to[0], cs);
      NodeFails(cur[index], from[0], to[0], cs);
      ApplyEditsAppend(Array(cur), es, rest, cs);
      var next := cur[index := after];
      WalkKeepsFirst(next, index + 1, index + 1, from[1..], to[1..], cs, bound);
      WrongItemStays(ApplyEdits(Array(next), rest, cs), next, index, to, cs);
    }
  }

  lemma WrongItemStays(o: Outcome, next: seq<Json>, index: nat, to: seq<Json>, cs: bool)
    requires index < |next| && to != [] && KeepsFirst(o, next, index + 1)
    requires Meaning(next[index], cs) != Meaning(to[0], cs)
    ensures !ItemsGood(o, index, to, cs)
  {
    hide Meaning;
    if o.status == 0 {
      var r := o.tree.items;
      assert r[index..][0] == r[..index + 1][index] == next[..index + 1][index];
      ArraySplit(r[index..], to, cs);
    }
  }

  lemma ReplacedUsable(from: Json, to: Json, cs: bool)
    ensures Replaced(from, to) ==> (Usable(from, to, cs) <==> Copyable(to))
  {
  }

  lemma MidwayLengths(cur: seq<Json>, index: nat, from: seq<Json>, to: seq<Json>, cs: bool)
    requires ItemsMidway(cur, index, from, to, cs)
    ensures |cur| == index + |from| <= SIZE_MODULUS && index + |to| <= SIZE_MODULUS
  {
    ArrayLengths(cur[index..], from, cs);
  }

  // ----- objects -----

  /** The object is what it should be. */
  ghost predicate MembersGood(o: Outcome, done: map<string, Value>, to: seq<Member>, cs: bool) {
    o.status == 0 && o.tree.Object? && Fields(o.tree.members, cs) == done + Fields(to, cs)
  }

  lemma MembersNotGood(o: Outcome, done: map<string, Value>, to: seq<Member>, cs: bool)
    requires o.status != 0
    ensures !MembersGood(o, done, to, cs)
  {
  }

  lemma {:induction false} MembersFail(cur: seq<Member>, from: seq<Member>, to: seq<Member>,
                                       done: map<string, Value>, cs: bool, bound: nat)
    requires forall k :: 0 <= k < |from| ==> Height(from[k].item) < bound
    requires Walking(cur, from, to, done, cs) && WalkInput(from, cs) && WalkInput(to, cs)
    requires (forall k :: k in EditedKeys(from, to, cs) ==> Decodable(k)) && !MembersUsable(from, to, cs, bound)
    ensures AllGenerated(MemberEdits("", from, to, cs, bound))
    ensures !MembersGood(ApplyEdits(Object(cur), MemberEdits("", from, to, cs, bound), cs), done, to, cs)
    decreases bound, 0, |from| + |to|, 1
  {
    hide ApplyOne, StrictlySorted, MembersPatchable, Decodable, Usable, Copyable, Replaced, MembersGood, Walking,
        Encode;
    MemberEditsBelow(from, to, cs, bound);
    if from == [] && to == [] {
    } else if to == [] || (from != [] && Before(from[0].key, to[0].key, cs)) {
      WalkTail(from, cs);
      assert from[0].key in EditedKeys(from, to, cs);
      var i := WalkRemove(cur, from, to, done, cs);
      MembersFail(RemoveAt(cur, i), from[1..], to, done, cs, bound);
      var rest := MemberEdits("", from[1..], to, cs, bound);
      assert ([Edit(RemoveOp, "" + "/" + Encode(from[0].key), None)] + rest)[1..] == rest;
    } else if from == [] || Before(to[0].key, from[0].key, cs) {
      AddFails(cur, from, to, done, cs, bound);
    } else {
      NeitherBefore(from[0].key, to[0].key, cs);
      if Usable(from[0].item, to[0].item, cs) {
        UsableMemberThenFail(cur, from, to, done, cs, bound);
      } else {
        MemberFails(cur, from, to, done, cs, bound);
      }
    }
  }

  lemma {:induction false} AddFails(cur: seq<Member>, from: seq<Member>, to: seq<Member>,
                                    done: map<string, Value>, cs: bool, bound: nat)
    requires forall k :: 0 <= k < |from| ==> Height(from[k].item) < bound
    requires Walking(cur, from, to, done, cs) && WalkInput(from, cs) && WalkInput(to, cs)
    requires to != [] && (from == [] || Before(to[0].key, from[0].key, cs))
    requires (forall k :: k in EditedKeys(from, to, cs) ==> Decodable(k)) && !MembersUsable(from, to, cs, bound)
    ensures AllGenerated(MemberEdits("", from, to, cs, bound))
    ensures !MembersGood(ApplyEdits(Object(cur), MemberEdits("", from, to, cs, bound), cs), done, to, cs)
    decreases bound, 0, |from| + |to|, 0
  {
    hide ApplyOne, StrictlySorted, MembersPatchable, Decodable, Usable, Copyable, Replaced, Encode, Meaning, Norm;
    MemberEditsBelow(from, to, cs, bound);
    if from != [] { BeforeAsymmetric(to[0].key, from[0].key, cs); }
    var one := Edit(AddOp, "" + "/" + Encode(to[0].key), Some(to[0].item));
    var rest := MemberEdits("", from, to[1..], cs, bound);
    assert ([one] + rest)[1..] == rest;
    assert to[0].key in EditedKeys(from, to, cs);
    if Copyable(to[0].item) {
      WalkTail(to, cs);
      AbsentKey(from, to[0].key, cs);
      WalkAdd(cur, from, to, done, cs);
      var k, v := Norm(to[0].key, cs), Meaning(to[0].item, cs);
      DoneMore(done, Fields(to, cs), k);
      MembersFail(cur + [to[0]], from, to[1..], done[k := v], cs, bound);
    } else {
      NotCopied(Object(cur), AddOp, "" + "/" + Encode(to[0].key), to[0].item, cs);
    }
  }

  lemma {:induction false} UsableMemberThenFail(cur: seq<Member>, from: seq<Member>, to: seq<Member>,
                                                done: map<string, Value>, cs: bool, bound: nat)
    requires forall k :: 0 <= k < |from| ==> Height(from[k].item) < bound
    requires Walking(cur, from, to, done, cs) && WalkInput(from, cs) && WalkInput(to, cs)
    requires from != [] && to != [] && !Before(from[0].key, to[0].key, cs) && !Before(to[0].key, from[0].key, cs)
    requires (forall k :: k in EditedKeys(from, to, cs) ==> Decodable(k)) && !MembersUsable(from, to, cs, bound)
    requires Usable(from[0].item, to[0].item, cs)
    ensures AllGenerated(MemberEdits("", from, to, cs, bound))
    ensures !MembersGood(ApplyEdits(Object(cur), MemberEdits("", from, to, cs, bound), cs), done, to, cs)
    decreases bound, 0, |from| + |to| - 1
  {
    hide ApplyOne, ApplyEdits, StrictlySorted, MembersPatchable, Decodable, Usable, Replaced, Encode, Meaning, Norm,
        CreateEdits, Before;
    NeitherBefore(from[0].key, to[0].key, cs);
    WalkTail(from, cs);
    WalkTail(to, cs);
    assert Replaced(from[0].item, to[0].item) ==> from[0].key in EditedKeys(from, to, cs);
    var k, v := Norm(to[0].key, cs), Meaning(to[0].item, cs);
    var after := MemberRoundTrip(cur, from, to, done, cs, bound);
    MemberEditsBelow(from[1..], to[1..], cs, bound);
    DoneMore(done, Fields(to, cs), k);
    MembersFail(after, from[1..], to[1..], done[k := v], cs, bound);
    ApplyEditsAppend(Object(cur), CreateEdits("" + "/" + Encode(from[0].key), from[0].item, to[0].item, cs),
                     MemberEdits("", from[1..], to[1..], cs, bound), cs);
  }

  lemma MemberPuts(cur: seq<Member>, i: nat, key: string, from: Json, to: Json, cs: bool)
    requires i < |cur| && IndexOf(cur, key, cs) == i && !Replaced(from, to)
    ensures AllGenerated(CreateEdits("", from, to, cs))
    ensures AllGenerated(CreateEdits("" + "/" + Encode(key), from, to, cs))
    ensures var o := ApplyEdits(cur[i].item, CreateEdits("", from, to, cs), cs);
            ApplyEdits(Object(cur), CreateEdits("" + "/" + Encode(key), from, to, cs), cs) ==
            Outcome(Object(cur[i := Keyed(cur[i].key, o.tree)]), o.status)
  {
    hide ApplyOne, ApplyEdits, CreateEdits, Encode, Replaced;
    CreateEditsShape(from, to, cs);
    CreateEditsPrefix("" + "/" + Encode(key), from, to, cs);
    EditedBelow(from, to, cs);
    assert "" + "/" + Encode(key) == "/" + Encode(key);
    EditsUnderChild(Object(cur), Encode(key), key, i, CreateEdits("", from, to, cs), cs);
  }

  /** A replacement whose value cannot be copied stops the patch. */
  lemma ReplacementFails(cur: Json, token: string, from: Json, to: Json, cs: bool)
    requires Replaced(from, to) && !Copyable(to)
    ensures AllGenerated(CreateEdits(token, from, to, cs))
    ensures ApplyEdits(cur, CreateEdits(token, from, to, cs), cs).status != 0
  {
    hide ApplyOne, CreateEdits, Replaced;
    CreateEditsPrefix(token, from, to, cs);
    ReplacedEdits(from, to, cs);
    PrefixedReplace(token, to);
    NotCopied(cur, ReplaceOp, token, to, cs);
    OneFails(cur, Edit(ReplaceOp, token, Some(to)), cs);
  }

  /** Under the key of the first members, the rest of the walk does nothing. */
  lemma RestSparesHead(from: seq<Member>, to: seq<Member>, cs: bool)
    requires from != [] && to != [] && Distinct(from, false) && Distinct(to, false)
    requires Fold(from[0].key) == Fold(to[0].key)
    requires forall k :: k in EditedKeys(from[1..], to[1..], cs) ==> Decodable(k)
    ensures forall k :: k in EditedKeys(from[1..], to[1..], cs) ==> Fold(Stored(k)) != Fold(from[0].key)
    ensures forall k :: k in EnteredKeys(from[1..], to[1..], cs) ==> Fold(k) != Fold(from[0].key)
  {
    hide Fold, HasFold, Distinct, EditedKeys, EnteredKeys, Decodable, Stored;
    WhereKeysAre(from[1..], to[1..], cs);
    forall m | HasFold(from[1..], m) ensures Fold(m) != Fold(from[0].key) { DistinctHead(from, m); }
    forall m | HasFold(to[1..], m) ensures Fold(m) != Fold(from[0].key) { DistinctHead(to, m); }
    forall k | k in EditedKeys(from[1..], to[1..], cs) ensures Stored(k) == k { DecodableFolded(k); }
  }

  /** The first members are both there and not usable: the member stays wrong, or the patch stops. */
  lemma {:induction false} MemberFails(cur: seq<Member>, from: seq<Member>, to: seq<Member>,
                                       done: map<string, Value>, cs: bool, bound: nat)
    requires forall k :: 0 <= k < |from| ==> Height(from[k].item) < bound
    requires Walking(cur, from, to, done, cs) && WalkInput(from, cs) && WalkInput(to, cs)
    requires from != [] && to != [] && !Before(from[0].key, to[0].key, cs) && !Before(to[0].key, from[0].key, cs)
    requires (forall k :: k in EditedKeys(from, to, cs) ==> Decodable(k)) && !Usable(from[0].item, to[0].item, cs)
    ensures AllGenerated(MemberEdits("", from, to, cs, bound))
    ensures !MembersGood(ApplyEdits(Object(cur), MemberEdits("", from, to, cs, bound), cs), done, to, cs)
    decreases bound, 0, |from| + |to| - 1
  {
    hide ApplyOne, ApplyEdits, StrictlySorted, MembersPatchable, Decodable, Usable, Replaced, Encode, Meaning, Norm,
        CreateEdits, Before, Walking, MembersGood, Copyable;
    var token := "" + "/" + Encode(from[0].key);
    var es, rest := CreateEdits(token, from[0].item, to[0].item, cs), MemberEdits("", from[1..], to[1..], cs, bound);
    MemberEditsBelow(from[1..], to[1..], cs, bound);
    if Replaced(from[0].item, to[0].item) {
      ReplacedUsable(from[0].item, to[0].item, cs);
      ReplacementFails(Object(cur), token, from[0].item, to[0].item, cs);
      FailsAtOnce(Object(cur), es, rest, cs);
      MembersNotGood(ApplyEdits(Object(cur), es + rest, cs), done, to, cs);
    } else {
      EnteredFails(cur, from, to, done, cs, bound);
    }
  }

  lemma {:induction false} EnteredFails(cur: seq<Member>, from: seq<Member>, to: seq<Member>,
                                        done: map<string, Value>, cs: bool, bound: nat)
    requires forall k :: 0 <= k < |from| ==> Height(from[k].item) < bound
    requires Walking(cur, from, to, done, cs) && WalkInput(from, cs) && WalkInput(to, cs)
    requires from != [] && to != [] && !Before(from[0].key, to[0].key, cs) && !Before(to[0].key, from[0].key, cs)
    requires forall k :: k in EditedKeys(from, to, cs) ==> Decodable(k)
    requires !Replaced(from[0].item, to[0].item) && !Usable(from[0].item, to[0].item, cs)
    ensures AllGenerated(CreateEdits("" + "/" + Encode(from[0].key), from[0].item, to[0].item, cs))
    ensures AllGenerated(MemberEdits("", from[1..], to[1..], cs, bound))
    ensures var all := CreateEdits("" + "/" + Encode(from[0].key), from[0].item, to[0].item, cs)
                       + MemberEdits("", from[1..], to[1..], cs, bound);
            AllGenerated(all) && !MembersGood(ApplyEdits(Object(cur), all, cs), done, to, cs)
    decreases bound, 0, |from| + |to| - 2
  {
    hide ApplyOne, ApplyEdits, StrictlySorted, MembersPatchable, Decodable, Usable, Replaced, Encode, Meaning, Norm,
        Before, CreateEdits, MemberEdits, Fields, Fold, Part, Stored, EnteredKeys, AllFound;
    var key := from[0].key;
    var es := CreateEdits("" + "/" + Encode(key), from[0].item, to[0].item, cs);
    var rest := MemberEdits("", from[1..], to[1..], cs, bound);
    NeitherBefore(key, to[0].key, cs);
    MemberEditsBelow(from[1..], to[1..], cs, bound);
    var i := WalkHead(cur, from, to, done, cs);
    HeadsPatchable(from, to, cs);
    NodeFails(cur[i].item, from[0].item, to[0].item, cs);
    MemberPuts(cur, i, key, from[0].item, to[0].item, cs);
    var o := ApplyEdits(cur[i].item, CreateEdits("", from[0].item, to[0].item, cs), cs);
    if o.status != 0 {
      FailsAtOnce(Object(cur), es, rest, cs);
    } else {
      var next := cur[i := Keyed(cur[i].key, o.tree)];
      ApplyEditsAppend(Object(cur), es, rest, cs);
      FieldsReplaced(cur, i, o.tree, cs);
      RestSparesHead(from, to, cs);
      WalkSpares(next, from[1..], to[1..], cs, bound, Fold(key));
      WalkTail(to, cs);
      var r := ApplyEdits(Object(next), rest, cs);
      if r.status == 0 {
        SamePart(r.tree.members, next, key, cs);
      }
    }
  }

  lemma HeadsPatchable(from: seq<Member>, to: seq<Member>, cs: bool)
    requires from != [] && to != [] && WalkInput(from, cs) && WalkInput(to, cs)
    ensures Patchable(from[0].item) && Patchable(to[0].item) && Distinct(from, false) && Distinct(to, false)
  {
  }

  // ----- the theorem -----

  lemma {:induction false} NodeFails(doc: Json, from: Json, to: Json, cs: bool)
    requires Patchable(from) && Patchable(to) && !Usable(from, to, cs)
    requires Meaning(doc, cs) == Meaning(from, cs) && KeysDistinct(doc, false)
    ensures AllGenerated(CreateEdits("", from, to, cs))
    ensures Fails(ApplyEdits(doc, CreateEdits("", from, to, cs), cs), to, cs)
    decreases Height(from), 2, 0
  {
    hide ApplyEdits, AllGenerated, Meaning, KeysDistinct, Patchable, CreateEdits, Usable;
    if Replaced(from, to) {
      ReplacedUsable(from, to, cs);
      ReplacementFails(doc, "", from, to, cs);
    } else if from.Array? {
      ArrayFails(doc, from, to, cs);
    } else if from.Object? {
      ObjectFails(doc, from, to, cs);
    } else {
      LeafUsable(from, to, cs);
    }
  }

  lemma LeafUsable(from: Json, to: Json, cs: bool)
    requires !Replaced(from, to) && !from.Array? && !from.Object?
    ensures Usable(from, to, cs)
  {
  }

  lemma {:induction false} ArrayFails(doc: Json, from: Json, to: Json, cs: bool)
    requires Patchable(from) && Patchable(to) && from.Array? && to.Array? && !Usable(from, to, cs)
    requires Meaning(doc, cs) == Meaning(from, cs) && KeysDistinct(doc, false)
    ensures AllGenerated(CreateEdits("", from, to, cs))
    ensures Fails(ApplyEdits(doc, CreateEdits("", from, to, cs), cs), to, cs)
    decreases Height(from), 1, 0
  {
    hide ApplyOne, ApplyEdits, ItemEdits, ItemsUsable;
    ChildHeights(from);
    ChildrenPatchable(from);
    ChildrenPatchable(to);
    assert doc.items[0..] == doc.items && Array(doc.items) == doc;
    ArrayLengths(doc.items, from.items, cs);
    ItemsFail(doc.items, 0, from.items, to.items, cs, Height(from));
    var o := ApplyEdits(doc, CreateEdits("", from, to, cs), cs);
    if o.tree.Array? { assert o.tree.items[0..] == o.tree.items && Array(o.tree.items) == o.tree; }
  }

  lemma {:induction false} ObjectFails(doc: Json, from: Json, to: Json, cs: bool)
    requires Patchable(from) && Patchable(to) && from.Object? && to.Object? && !Usable(from, to, cs)
    requires Meaning(doc, cs) == Meaning(from, cs) && KeysDistinct(doc, false)
    ensures AllGenerated(CreateEdits("", from, to, cs))
    ensures Fails(ApplyEdits(doc, CreateEdits("", from, to, cs), cs), to, cs)
    decreases Height(from), 1, 0
  {
    hide ApplyOne, ApplyEdits, MemberEdits, MembersUsable, SortedMembers, AllGenerated, Fields;
    ChildHeights(from);
    ChildrenPatchable(from);
    ChildrenPatchable(to);
    UnsortedFail(doc.members, from.members, to.members, cs, Height(from));
    assert Object(doc.members) == doc;
  }

  lemma {:induction false} UnsortedFail(doc: seq<Member>, from: seq<Member>, to: seq<Member>, cs: bool, bound: nat)
    requires forall k :: 0 <= k < |from| ==> Height(from[k].item) < bound
    requires MembersPatchable(from) && Distinct(from, false) && MembersPatchable(to) && Distinct(to, false)
    requires Distinct(doc, false) && MembersFolded(doc) && Fields(doc, cs) == Fields(from, cs)
    requires !MembersUsable(SortedMembers(from, cs), SortedMembers(to, cs), cs, bound)
    ensures var es := MemberEdits("", SortedMembers(from, cs), SortedMembers(to, cs), cs, bound);
            AllGenerated(es) &&
            var o := ApplyEdits(Object(doc), es, cs);
            !(o.status == 0 && o.tree.Object? && Fields(o.tree.members, cs) == Fields(to, cs))
    decreases bound, 0, 1 + |from| + |to|
  {
    hide ApplyOne, ApplyEdits, MemberEdits, StrictlySorted, MembersPatchable, MembersFolded, AllFound, MembersUsable,
        EditedKeys, Decodable, Fields, AllGenerated;
    SortedForPatch(from, cs);
    SortedForPatch(to, cs);
    var fs, ts := SortedMembers(from, cs), SortedMembers(to, cs);
    if key :| key in EditedKeys(fs, ts, cs) && !Decodable(key) {
      StrayKeyFails(doc, fs, ts, cs, bound, key);
    } else {
      DistinctFolded(doc, cs);
      AllFoundAtStart(doc, from, fs, cs);
      assert map[] + Fields(from, cs) == Fields(from, cs) && map[] + Fields(to, cs) == Fields(to, cs);
      MembersFail(doc, fs, ts, map[], cs, bound);
    }
  }

  lemma PatchFails(doc: Json, from: Json, to: Json, cs: bool)
    requires Patchable(from) && Patchable(to) && !Usable(from, to, cs)
    requires Meaning(doc, cs) == Meaning(from, cs) && KeysDistinct(doc, false)
    ensures var o := ApplyAll(doc, GeneratePatches(from, to, cs), cs);
            !(o.status == 0 && Meaning(o.tree, cs) == Meaning(to, cs))
  {
    hide ApplyAll, ApplyEdits, CreateEdits, ComposedPatches, Meaning, KeysDistinct, Patchable, Usable, AllGenerated;
    NodeFails(doc, from, to, cs);
    ComposedPatchesApply(doc, CreateEdits("", from, to, cs), cs);
  }

  /**
   * The round trip, exactly: the generated patch returns 0 and turns any document that denotes the same value as
   * `from` into one that denotes the same as `to` if and only if the two are usable for each other.
   */
  lemma PatchRoundTripsExact(doc: Json, from: Json, to: Json, cs: bool)
    requires Patchable(from) && Patchable(to)
    requires Meaning(doc, cs) == Meaning(from, cs) && KeysDistinct(doc, false)
    ensures var o := ApplyAll(doc, GeneratePatches(from, to, cs), cs);
            o.status == 0 && Meaning(o.tree, cs) == Meaning(to, cs) <==> Usable(from, to, cs)
  {
    hide ApplyAll, GeneratePatches, Meaning, KeysDistinct, Patchable, Usable;
    if Usable(from, to, cs) {
      PatchRoundTrips(doc, from, to, cs);
    } else {
      PatchFails(doc, from, to, cs);
    }
  }
}
