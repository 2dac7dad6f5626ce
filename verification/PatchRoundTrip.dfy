/** Applying a generated patch turns any document equal to `from` into one equal to `to`. */
module PatchRoundTrip {
  import opened CStrings
  import opened Sorting
  import opened Json
  import opened Compare
  import opened Pointer
  import opened Patch
  import opened PatchFrames
  import opened Options
  import opened Sequences

  predicate KeysDecodable(t: Json) {
    match t
    case Array(items) => forall i :: 0 <= i < |items| ==> KeysDecodable(items[i])
    case Object(ms) => forall i :: 0 <= i < |ms| ==> Decodable(ms[i].key) && KeysDecodable(ms[i].item)
    case _ => true
  }

  /** Documents that the generator handles. */
  predicate Patchable(t: Json) {
    Plain(t) && KeysDistinct(t, false) && ArraysFit(t)
  }

  predicate MembersPatchable(ms: seq<Member>) {
    forall i :: 0 <= i < |ms| ==> Patchable(ms[i].item)
  }

  predicate ItemsPatchable(items: seq<Json>) {
    forall i :: 0 <= i < |items| ==> Patchable(items[i])
  }

  /** The generator replaces the whole node. */
  predicate Replaced(from: Json, to: Json) {
    !SameKind(from, to) || (from.Number? && from.n != to.n) || (from.String? && from.s != to.s)
  }

  /**
   * What the edits need: where a key ends the path of an edit it is one that the in-place decoder gives back,
   * and a value that is put in can be copied.
   */
  predicate Usable(from: Json, to: Json, cs: bool)
    decreases Height(from), 1, 0
  {
    ChildHeights(from);
    if Replaced(from, to) then Copyable(to)
    else
      match from
      case Array(items) => ItemsUsable(items, to.items, cs, Height(from))
      case Object(ms) => MembersUsable(SortedMembers(ms, cs), SortedMembers(to.members, cs), cs, Height(from))
      case _ => true
  }

  predicate ItemsUsable(from: seq<Json>, to: seq<Json>, cs: bool, ghost bound: nat)
    requires forall k :: 0 <= k < |from| ==> Height(from[k]) < bound
    decreases bound, 0, |from|
  {
    if from == [] then forall k :: 0 <= k < |to| ==> Copyable(to[k])
    else if to == [] then true
    else Usable(from[0], to[0], cs) && ItemsUsable(from[1..], to[1..], cs, bound)
  }

  predicate MembersUsable(from: seq<Member>, to: seq<Member>, cs: bool, ghost bound: nat)
    requires forall k :: 0 <= k < |from| ==> Height(from[k].item) < bound
    decreases bound, 0, |from| + |to|
  {
    if from == [] && to == [] then true
    else if to == [] || (from != [] && Before(from[0].key, to[0].key, cs)) then
      Decodable(from[0].key) && MembersUsable(from[1..], to, cs, bound)
    else if from == [] || Before(to[0].key, from[0].key, cs) then
      Decodable(to[0].key) && Copyable(to[0].item) && MembersUsable(from, to[1..], cs, bound)
    else
      && (Replaced(from[0].item, to[0].item) ==> Decodable(from[0].key))
      && Usable(from[0].item, to[0].item, cs) && MembersUsable(from[1..], to[1..], cs, bound)
  }

  /** Keys that all survive the decoder and a target that can be copied are more than enough. */
  lemma {:induction false} DecodableUsable(from: Json, to: Json, cs: bool)
    requires KeysDecodable(from) && KeysDecodable(to) && Copyable(to)
    ensures Usable(from, to, cs)
    decreases Height(from), 1, 0
  {
    ChildHeights(from);
    if from.Array? && to.Array? {
      ChildHeights(to);
      ItemsDecodable(from.items, to.items, cs, Height(from));
    } else if from.Object? && to.Object? {
      ChildHeights(to);
      MembersDecodable(SortedMembers(from.members, cs), SortedMembers(to.members, cs), cs, Height(from));
    }
  }

  lemma {:induction false} ItemsDecodable(from: seq<Json>, to: seq<Json>, cs: bool, bound: nat)
    requires forall k :: 0 <= k < |from| ==> Height(from[k]) < bound && KeysDecodable(from[k])
    requires forall k :: 0 <= k < |to| ==> Copyable(to[k]) && KeysDecodable(to[k])
    ensures ItemsUsable(from, to, cs, bound)
    decreases bound, 0, |from|
  {
    if from != [] && to != [] {
      DecodableUsable(from[0], to[0], cs);
      ItemsDecodable(from[1..], to[1..], cs, bound);
    }
  }

  lemma {:induction false} MembersDecodable(from: seq<Member>, to: seq<Member>, cs: bool, bound: nat)
    requires forall k :: 0 <= k < |from| ==>
               Height(from[k].item) < bound && Decodable(from[k].key) && KeysDecodable(from[k].item)
    requires forall k :: 0 <= k < |to| ==>
               Decodable(to[k].key) && Copyable(to[k].item) && KeysDecodable(to[k].item)
    ensures MembersUsable(from, to, cs, bound)
    decreases bound, 0, |from| + |to|
  {
    hide Decodable, KeysDecodable, Usable;
    if from == [] && to == [] {
    } else if to == [] || (from != [] && Before(from[0].key, to[0].key, cs)) {
      MembersDecodable(from[1..], to, cs, bound);
    } else if from == [] || Before(to[0].key, from[0].key, cs) {
      MembersDecodable(from, to[1..], cs, bound);
    } else {
      DecodableUsable(from[0].item, to[0].item, cs);
      MembersDecodable(from[1..], to[1..], cs, bound);
    }
  }

  predicate MembersFolded(ms: seq<Member>) {
    forall i :: 0 <= i < |ms| ==> KeysDistinct(ms[i].item, false)
  }

  /** The result of a successful application, as one equation per part. */
  predicate Becomes(o: Outcome, to: Json, cs: bool) {
    o.status == 0 && Meaning(o.tree, cs) == Meaning(to, cs) && KeysDistinct(o.tree, false)
  }

  // ----- documents with the same meaning have the same shape -----

  lemma {:induction false} DistinctTransfers(t: Json, u: Json, cs: bool)
    requires Meaning(t, cs) == Meaning(u, cs) && KeysDistinct(t, cs) && KeysDistinct(u, false)
    ensures KeysDistinct(t, false)
  {
    match t
    case Array(items) =>
      forall i | 0 <= i < |items|
        ensures KeysDistinct(items[i], false)
      {
        assert Meaning(t, cs).items[i] == Meaning(u, cs).items[i];
        DistinctTransfers(items[i], u.items[i], cs);
      }
    case Object(ms) =>
      KeysDistinctFolded(u, cs);
      forall i | 0 <= i < |ms|
        ensures KeysDistinct(ms[i].item, false)
      {
        var j := Counterpart(ms, u.members, i, cs);
        DistinctTransfers(ms[i].item, u.members[j].item, cs);
      }
      DistinctKeysTransfer(ms, u.members, cs);
    case _ =>
  }

  lemma Counterpart(xs: seq<Member>, ys: seq<Member>, i: nat, cs: bool) returns (j: nat)
    requires i < |xs| && Fields(xs, cs) == Fields(ys, cs) && Distinct(xs, cs) && Distinct(ys, cs)
    ensures j < |ys| && Norm(xs[i].key, cs) == Norm(ys[j].key, cs)
    ensures Meaning(xs[i].item, cs) == Meaning(ys[j].item, cs)
  {
    FieldAt(xs, i, cs);
    j := FieldsKey(ys, Norm(xs[i].key, cs), cs);
    FieldAt(ys, j, cs);
  }

  lemma DistinctKeysTransfer(xs: seq<Member>, ys: seq<Member>, cs: bool)
    requires Fields(xs, cs) == Fields(ys, cs) && Distinct(xs, cs) && Distinct(ys, false)
    ensures Distinct(xs, false)
  {
    if cs {
      DistinctFolded(ys, cs);
      forall i, j | 0 <= i < j < |xs|
        ensures Norm(xs[i].key, false) != Norm(xs[j].key, false)
      {
        var p := Counterpart(xs, ys, i, cs);
        var q := Counterpart(xs, ys, j, cs);
        assert xs[i].key == ys[p].key && xs[j].key == ys[q].key;
        assert p != q;
      }
    }
  }

  // ----- one edit on an object -----

  lemma FieldsWithout(ms: seq<Member>, i: nat, cs: bool)
    requires i < |ms| && Distinct(ms, cs)
    ensures Distinct(RemoveAt(ms, i), cs)
    ensures Fields(RemoveAt(ms, i), cs) == Fields(ms, cs) - {Norm(ms[i].key, cs)}
  {
    hide Fields, Norm, Meaning;
    var rest := RemoveAt(ms, i);
    forall j | 0 <= j < |rest|
      ensures rest[j] == ms[if j < i then j else j + 1]
    {
    }
    FieldsSubset(rest, ms, cs);
    forall k | k in Fields(ms, cs) - {Norm(ms[i].key, cs)}
      ensures k in Fields(rest, cs)
    {
      var j := FieldsKey(ms, k, cs);
      var r := if j < i then j else j - 1;
      assert rest[r] == ms[j];
      FieldAt(rest, r, cs);
    }
    forall k | k in Fields(rest, cs)
      ensures k != Norm(ms[i].key, cs)
    {
      var r := FieldsKey(rest, k, cs);
    }
  }

  lemma FieldsPlus(ms: seq<Member>, m: Member, cs: bool)
    requires Distinct(ms, cs) && Norm(m.key, cs) !in Fields(ms, cs)
    ensures Distinct(ms + [m], cs)
    ensures Fields(ms + [m], cs) == Fields(ms, cs)[Norm(m.key, cs) := Meaning(m.item, cs)]
  {
    var all := ms + [m];
    forall i | 0 <= i < |ms|
      ensures Norm(ms[i].key, cs) != Norm(m.key, cs)
    {
      FieldAt(ms, i, cs);
    }
    FieldsSubset(ms, all, cs);
    FieldAt(all, |ms|, cs);
    forall k | k in Fields(all, cs)
      ensures k in Fields(ms, cs) || k == Norm(m.key, cs)
    {
      var r := FieldsKey(all, k, cs);
      if r < |ms| {
        FieldAt(ms, r, cs);
      }
    }
  }

  lemma FieldsReplaced(ms: seq<Member>, i: nat, item: Json, cs: bool)
    requires i < |ms| && Distinct(ms, cs)
    ensures Distinct(ms[i := Keyed(ms[i].key, item)], cs)
    ensures Fields(ms[i := Keyed(ms[i].key, item)], cs) == Fields(ms, cs)[Norm(ms[i].key, cs) := Meaning(item, cs)]
  {
    hide Fields, Norm, Meaning;
    var after := ms[i := Keyed(ms[i].key, item)];
    FieldAt(after, i, cs);
    FieldsWithout(ms, i, cs);
    FieldsWithout(after, i, cs);
    assert RemoveAt(after, i) == RemoveAt(ms, i);
    var k := Norm(ms[i].key, cs);
    assert Fields(after, cs) == (Fields(after, cs) - {k})[k := Meaning(item, cs)];
    FieldAt(ms, i, cs);
  }

  /** A path of one token splits into the root and the token. */
  lemma OneToken(token: string)
    requires '/' !in token
    ensures LastSlash("" + "/" + token) == Some(0)
    ensures ("" + "/" + token)[..0] == "" && ("" + "/" + token)[1..] == token
  {
    assert "" + "/" + token == "/" + token;
    LastSlashAt("/" + token, 0);
  }

  lemma DetachMember(ms: seq<Member>, key: string, cs: bool)
    requires Decodable(key)
    ensures DetachPath(Object(ms), "" + "/" + Encode(key), cs) ==
            var i := IndexOf(ms, key, false);
            if i < |ms| then Some((Object(RemoveAt(ms, i)), ms[i].item)) else None
  {
    hide Encode, DecodeInPlace, Decodable, Norm;
    EncodeNoSlash(key);
    OneToken(Encode(key));
    DecodeInPlaceExact(key);
  }

  /** A member is stored under the key as the in-place decoder leaves it. */
  lemma AddValueStored(ms: seq<Member>, key: string, item: Json, cs: bool)
    requires Copyable(item)
    ensures var stored := DecodeInPlace(Encode(key));
            AddValue(Object(ms), "" + "/" + Encode(key), Some(item), cs) ==
            Outcome(Object(DeleteKey(ms, stored, cs) + [Keyed(stored, item)]), 0)
  {
    hide Encode, DecodeInPlace, Norm, Duplicate;
    EncodeNoSlash(key);
    OneToken(Encode(key));
    DuplicateExact(item);
  }

  lemma AddValueMember(ms: seq<Member>, key: string, item: Json, cs: bool)
    requires Decodable(key) && Copyable(item)
    ensures AddValue(Object(ms), "" + "/" + Encode(key), Some(item), cs) ==
            Outcome(Object(DeleteKey(ms, key, cs) + [Keyed(key, item)]), 0)
  {
    AddValueStored(ms, key, item, cs);
    DecodeInPlaceExact(key);
  }

  lemma RemoveMember(ms: seq<Member>, key: string, cs: bool)
    requires Decodable(key)
    ensures ApplyOne(Object(ms), Edit(RemoveOp, "" + "/" + Encode(key), None), cs) ==
            var i := IndexOf(ms, key, false);
            if i < |ms| then Outcome(Object(RemoveAt(ms, i)), 0) else Outcome(Object(ms), 13)
  {
    hide DetachPath;
    DetachMember(ms, key, cs);
  }

  lemma AddMember(ms: seq<Member>, key: string, item: Json, cs: bool)
    requires Decodable(key) && Copyable(item)
    ensures ApplyOne(Object(ms), Edit(AddOp, "" + "/" + Encode(key), Some(item)), cs) ==
            Outcome(Object(DeleteKey(ms, key, cs) + [Keyed(key, item)]), 0)
  {
    hide AddValue, Duplicate;
    DuplicateExact(item);
    AddValueMember(ms, key, item, cs);
  }

  lemma ReplaceMember(ms: seq<Member>, key: string, item: Json, cs: bool)
    requires Decodable(key) && Copyable(item) && IndexOf(ms, key, false) < |ms|
    ensures ApplyOne(Object(ms), Edit(ReplaceOp, "" + "/" + Encode(key), Some(item)), cs) ==
            Outcome(Object(DeleteKey(RemoveAt(ms, IndexOf(ms, key, false)), key, cs) + [Keyed(key, item)]), 0)
  {
    hide DetachPath, AddValue, Duplicate;
    DuplicateExact(item);
    DetachMember(ms, key, cs);
    AddValueMember(RemoveAt(ms, IndexOf(ms, key, false)), key, item, cs);
  }

  // ----- the walk over two objects -----

  /** The first member that a case-blind lookup meets is the member meant. */
  predicate FoundFolded(ms: seq<Member>, key: string, cs: bool) {
    var i := IndexOf(ms, key, false);
    i < |ms| && Norm(ms[i].key, cs) == Norm(key, cs)
  }

  /** Fields of the current document: those done, and those of `from` still to visit. */
  ghost predicate Midway(cur: map<string, Value>, from: map<string, Value>, to: map<string, Value>,
                         done: map<string, Value>) {
    cur == done + from && done.Keys !! from.Keys && done.Keys !! to.Keys
  }

  predicate AllFound(cur: seq<Member>, from: seq<Member>, cs: bool) {
    forall i :: 0 <= i < |from| ==> FoundFolded(cur, from[i].key, cs)
  }

  ghost predicate Walking(cur: seq<Member>, from: seq<Member>, to: seq<Member>, done: map<string, Value>, cs: bool) {
    && Distinct(cur, cs) && MembersFolded(cur)
    && Midway(Fields(cur, cs), Fields(from, cs), Fields(to, cs), done)
    && AllFound(cur, from, cs)
  }

  lemma MidwayRemove(cur: map<string, Value>, from: map<string, Value>, to: map<string, Value>,
                     done: map<string, Value>, k: string)
    requires Midway(cur, from, to, done) && k in from
    ensures Midway(cur - {k}, from - {k}, to, done)
  {
  }

  lemma MidwayAdd(cur: map<string, Value>, from: map<string, Value>, to: map<string, Value>,
                  done: map<string, Value>, k: string, v: Value)
    requires Midway(cur, from, to, done) && k !in from && k in to
    ensures k !in cur
    ensures Midway(cur[k := v], from, to - {k}, done[k := v])
  {
  }

  lemma MidwayBoth(cur: map<string, Value>, from: map<string, Value>, to: map<string, Value>,
                   done: map<string, Value>, k: string, v: Value)
    requires Midway(cur, from, to, done) && k in from && k in to
    ensures k in cur && cur[k] == from[k]
    ensures Midway(cur[k := v], from - {k}, to - {k}, done[k := v])
  {
  }

  predicate WalkInput(ms: seq<Member>, cs: bool) {
    StrictlySorted(ms, cs) && Distinct(ms, false) && MembersPatchable(ms)
  }

  lemma WalkTail(ms: seq<Member>, cs: bool)
    requires ms != [] && WalkInput(ms, cs)
    ensures WalkInput(ms[1..], cs) && Distinct(ms, cs)
    ensures Norm(ms[0].key, cs) in Fields(ms, cs)
    ensures Fields(ms, cs)[Norm(ms[0].key, cs)] == Meaning(ms[0].item, cs)
    ensures Norm(ms[0].key, cs) !in Fields(ms[1..], cs)
    ensures Fields(ms[1..], cs) == Fields(ms, cs) - {Norm(ms[0].key, cs)}
  {
    StrictDistinct(ms, cs);
    TailFields(ms, cs);
  }

  lemma FoundAfterRemove(ms: seq<Member>, i: nat, key: string, cs: bool)
    requires i < |ms| && FoundFolded(ms, key, cs) && Norm(ms[i].key, false) != Norm(key, false)
    ensures FoundFolded(RemoveAt(ms, i), key, cs)
  {
    hide Norm, IndexOf;
    var j, rest := IndexOf(ms, key, false), RemoveAt(ms, i);
    var r := if j < i then j else j - 1;
    assert rest[r] == ms[j];
    forall m | 0 <= m < r
      ensures Norm(rest[m].key, false) != Norm(key, false)
    {
      assert rest[m] == ms[if m < i then m else m + 1];
    }
    assert IndexOf(rest, key, false) == r;
  }

  lemma {:induction false} FoundAfterAppend(ms: seq<Member>, m: Member, key: string, cs: bool)
    requires FoundFolded(ms, key, cs)
    ensures FoundFolded(ms + [m], key, cs)
  {
    if Norm(ms[0].key, false) != Norm(key, false) {
      FoundAfterAppend(ms[1..], m, key, cs);
      assert (ms + [m])[1..] == ms[1..] + [m];
    }
  }

  lemma FoundAfterPut(ms: seq<Member>, i: nat, item: Json, key: string, cs: bool)
    requires i < |ms| && FoundFolded(ms, key, cs)
    ensures FoundFolded(ms[i := Keyed(ms[i].key, item)], key, cs)
  {
    IndexOfSameKeys(ms, ms[i := Keyed(ms[i].key, item)], key, false);
  }

  lemma AllFoundAfterRemove(cur: seq<Member>, from: seq<Member>, i: nat, cs: bool)
    requires from != [] && Distinct(from, false) && AllFound(cur, from, cs)
    requires i < |cur| && Norm(cur[i].key, false) == Norm(from[0].key, false)
    ensures AllFound(RemoveAt(cur, i), from[1..], cs)
  {
    forall j | 0 <= j < |from[1..]|
      ensures FoundFolded(RemoveAt(cur, i), from[1..][j].key, cs)
    {
      assert from[1..][j] == from[j + 1];
      assert Norm(from[0].key, false) != Norm(from[j + 1].key, false);
      FoundAfterRemove(cur, i, from[j + 1].key, cs);
    }
  }

  lemma AllFoundAfterAppend(cur: seq<Member>, from: seq<Member>, m: Member, cs: bool)
    requires AllFound(cur, from, cs)
    ensures AllFound(cur + [m], from, cs)
  {
    forall j | 0 <= j < |from| {
      FoundAfterAppend(cur, m, from[j].key, cs);
    }
  }

  lemma AllFoundAfterPut(cur: seq<Member>, from: seq<Member>, i: nat, item: Json, cs: bool)
    requires i < |cur| && from != [] && AllFound(cur, from, cs)
    ensures AllFound(cur[i := Keyed(cur[i].key, item)], from[1..], cs)
  {
    forall j | 0 <= j < |from[1..]|
      ensures FoundFolded(cur[i := Keyed(cur[i].key, item)], from[1..][j].key, cs)
    {
      FoundAfterPut(cur, i, item, from[j + 1].key, cs);
    }
  }

  /** The first member of `from` still to visit, in the current document. */
  lemma WalkHead(cur: seq<Member>, from: seq<Member>, to: seq<Member>, done: map<string, Value>, cs: bool)
      returns (i: nat)
    requires Walking(cur, from, to, done, cs) && from != [] && WalkInput(from, cs)
    ensures i < |cur| && i == IndexOf(cur, from[0].key, false) && Norm(cur[i].key, cs) == Norm(from[0].key, cs)
    ensures Norm(cur[i].key, false) == Norm(from[0].key, false)
    ensures i == IndexOf(cur, from[0].key, cs)
    ensures Meaning(cur[i].item, cs) == Meaning(from[0].item, cs) && KeysDistinct(cur[i].item, false)
  {
    assert FoundFolded(cur, from[0].key, cs);
    i := IndexOf(cur, from[0].key, false);
    WalkTail(from, cs);
    FieldAt(cur, i, cs);
    IndexOfNorm(cur, cur[i].key, from[0].key, cs);
  }

  /** A member that only `from` has is taken out. */
  lemma WalkRemove(cur: seq<Member>, from: seq<Member>, to: seq<Member>, done: map<string, Value>, cs: bool)
      returns (i: nat)
    requires Walking(cur, from, to, done, cs) && from != [] && WalkInput(from, cs) && Decodable(from[0].key)
    ensures i < |cur|
    ensures ApplyOne(Object(cur), Edit(RemoveOp, "" + "/" + Encode(from[0].key), None), cs) ==
            Outcome(Object(RemoveAt(cur, i)), 0)
    ensures Walking(RemoveAt(cur, i), from[1..], to, done, cs)
  {
    hide ApplyOne, Midway, AllFound, StrictlySorted;
    i := WalkHead(cur, from, to, done, cs);
    RemoveMember(cur, from[0].key, cs);
    FieldsWithout(cur, i, cs);
    WalkTail(from, cs);
    MidwayRemove(Fields(cur, cs), Fields(from, cs), Fields(to, cs), done, Norm(from[0].key, cs));
    AllFoundAfterRemove(cur, from, i, cs);
  }

  /** A member that only `to` has is appended. */
  lemma WalkAdd(cur: seq<Member>, from: seq<Member>, to: seq<Member>, done: map<string, Value>, cs: bool)
    requires Walking(cur, from, to, done, cs) && to != [] && WalkInput(to, cs)
    requires Decodable(to[0].key) && Copyable(to[0].item)
    requires Norm(to[0].key, cs) !in Fields(from, cs)
    ensures ApplyOne(Object(cur), Edit(AddOp, "" + "/" + Encode(to[0].key), Some(to[0].item)), cs) ==
            Outcome(Object(cur + [to[0]]), 0)
    ensures Walking(cur + [to[0]], from, to[1..], done[Norm(to[0].key, cs) := Meaning(to[0].item, cs)], cs)
  {
    hide ApplyOne, Midway, AllFound, StrictlySorted;
    var key, item := to[0].key, to[0].item;
    WalkTail(to, cs);
    MidwayAdd(Fields(cur, cs), Fields(from, cs), Fields(to, cs), done, Norm(key, cs), Meaning(item, cs));
    FieldsLookup(cur, key, cs);
    AddMember(cur, key, item, cs);
    FieldsPlus(cur, to[0], cs);
    AllFoundAfterAppend(cur, from, to[0], cs);
    assert Keyed(key, item) == to[0];
  }

  /** Both have the member, and the node under it becomes the node of `to`. */
  lemma WalkBoth(cur: seq<Member>, from: seq<Member>, to: seq<Member>, done: map<string, Value>,
                 after: seq<Member>, cs: bool)
    requires Walking(cur, from, to, done, cs)
    requires from != [] && WalkInput(from, cs) && to != [] && WalkInput(to, cs)
    requires Norm(from[0].key, cs) == Norm(to[0].key, cs)
    requires Distinct(after, cs) && MembersFolded(after) && AllFound(after, from[1..], cs)
    requires Fields(after, cs) == Fields(cur, cs)[Norm(from[0].key, cs) := Meaning(to[0].item, cs)]
    ensures Walking(after, from[1..], to[1..], done[Norm(to[0].key, cs) := Meaning(to[0].item, cs)], cs)
  {
    hide Midway, AllFound, StrictlySorted;
    WalkTail(from, cs);
    WalkTail(to, cs);
    MidwayBoth(Fields(cur, cs), Fields(from, cs), Fields(to, cs), done, Norm(to[0].key, cs), Meaning(to[0].item, cs));
  }

  lemma {:induction false} IndexOfNorm(ms: seq<Member>, a: string, b: string, cs: bool)
    requires Norm(a, cs) == Norm(b, cs)
    ensures IndexOf(ms, a, cs) == IndexOf(ms, b, cs)
  {
  }

  /** Both have the member, and its node is edited strictly below. */
  lemma WalkEdit(cur: seq<Member>, from: seq<Member>, to: seq<Member>, done: map<string, Value>,
                 es: seq<Edit>, i: nat, o: Outcome, cs: bool)
    requires Walking(cur, from, to, done, cs)
    requires from != [] && WalkInput(from, cs) && to != [] && WalkInput(to, cs)
    requires Norm(from[0].key, cs) == Norm(to[0].key, cs)
    requires i < |cur| && i == IndexOf(cur, from[0].key, cs)
    requires Below(es) && o == ApplyEdits(cur[i].item, es, cs) && Becomes(o, to[0].item, cs)
    ensures AllGenerated(Prefixed("" + "/" + Encode(from[0].key), es))
    ensures ApplyEdits(Object(cur), Prefixed("" + "/" + Encode(from[0].key), es), cs) ==
            Outcome(Object(cur[i := Keyed(cur[i].key, o.tree)]), 0)
    ensures Walking(cur[i := Keyed(cur[i].key, o.tree)], from[1..], to[1..],
                    done[Norm(to[0].key, cs) := Meaning(to[0].item, cs)], cs)
  {
    hide ApplyOne, ApplyEdits, Midway, AllFound, StrictlySorted;
    assert "" + "/" + Encode(from[0].key) == "/" + Encode(from[0].key);
    EditsUnderChild(Object(cur), Encode(from[0].key), from[0].key, i, es, cs);
    FieldsReplaced(cur, i, o.tree, cs);
    AllFoundAfterPut(cur, from, i, o.tree, cs);
    WalkBoth(cur, from, to, done, cur[i := Keyed(cur[i].key, o.tree)], cs);
  }

  /** Both have the member, and its node is replaced: it moves to the end. */
  lemma WalkReplace(cur: seq<Member>, from: seq<Member>, to: seq<Member>, done: map<string, Value>, cs: bool)
      returns (after: seq<Member>)
    requires Walking(cur, from, to, done, cs)
    requires from != [] && WalkInput(from, cs) && to != [] && WalkInput(to, cs)
    requires Norm(from[0].key, cs) == Norm(to[0].key, cs)
    requires Decodable(from[0].key) && Copyable(to[0].item)
    ensures ApplyOne(Object(cur), Edit(ReplaceOp, "" + "/" + Encode(from[0].key), Some(to[0].item)), cs) ==
            Outcome(Object(after), 0)
    ensures Walking(after, from[1..], to[1..], done[Norm(to[0].key, cs) := Meaning(to[0].item, cs)], cs)
  {
    hide ApplyOne, Midway, AllFound, StrictlySorted, Encode, Meaning, Fields, Norm, Height, Plain, ArraysFit,
        Decodable;
    var key, item := from[0].key, to[0].item;
    var i := WalkHead(cur, from, to, done, cs);
    var left := RemoveAt(cur, i);
    ReplaceMember(cur, key, item, cs);
    FieldsWithout(cur, i, cs);
    FieldsLookup(left, key, cs);
    assert DeleteKey(left, key, cs) == left;
    after := left + [Keyed(key, item)];
    FieldsPlus(left, Keyed(key, item), cs);
    AllFoundAfterRemove(cur, from, i, cs);
    AllFoundAfterAppend(left, from[1..], Keyed(key, item), cs);
    assert Fields(after, cs) == Fields(cur, cs)[Norm(key, cs) := Meaning(item, cs)];
    WalkBoth(cur, from, to, done, after, cs);
  }

  // ----- the walk over two arrays -----

  lemma DigitsPlain(n: nat)
    ensures Encode(Digits(n)) == Digits(n) && DecodeInPlace(Digits(n)) == Digits(n)
    ensures '/' !in Digits(n) && Digits(n) != "-"
  {
    assert forall c :: c in Digits(n) ==> IsDigit(c);
    assert Digits(n) == "-" ==> IsDigit(Digits(n)[0]);
    EncodePlain(Digits(n));
    PlainKeysDecode(Digits(n));
    DecodeInPlaceExact(Digits(n));
  }

  lemma IndexAlone(n: nat)
    requires n < SIZE_MODULUS
    ensures DecodeArrayIndex(Digits(n)) == Some(n)
  {
    hide Digits, DecodeArrayIndex;
    IndexRoundTrip(n, "");
    assert Digits(n) + "" == Digits(n);
  }

  lemma RemoveItem(items: seq<Json>, i: nat, cs: bool)
    requires i < |items| && i < SIZE_MODULUS
    ensures DetachPath(Array(items), "" + "/" + Digits(i), cs) == Some((Array(RemoveAt(items, i)), items[i]))
    ensures ApplyOne(Array(items), Edit(RemoveOp, "" + "/" + Encode(Digits(i)), None), cs) ==
            Outcome(Array(RemoveAt(items, i)), 0)
  {
    hide Digits, Encode, DecodeInPlace, LastSlash, DecodeArrayIndex;
    DigitsPlain(i);
    IndexAlone(i);
    OneToken(Digits(i));
  }

  lemma InsertItem(items: seq<Json>, i: nat, item: Json, cs: bool)
    requires i <= |items| && i < SIZE_MODULUS && Copyable(item)
    ensures AddValue(Array(items), "" + "/" + Digits(i), Some(item), cs) ==
            Outcome(Array(items[..i] + [item] + items[i..]), 0)
  {
    DigitsPlain(i);
    IndexAlone(i);
    OneToken(Digits(i));
    DuplicateExact(item);
  }

  lemma ReplaceItem(items: seq<Json>, i: nat, item: Json, cs: bool)
    requires i < |items| && i < SIZE_MODULUS && Copyable(item)
    ensures ApplyOne(Array(items), Edit(ReplaceOp, "" + "/" + Digits(i), Some(item)), cs) ==
            Outcome(Array(items[i := item]), 0)
  {
    hide DetachPath, AddValue, Duplicate;
    DuplicateExact(item);
    RemoveItem(items, i, cs);
    var left := RemoveAt(items, i);
    InsertItem(left, i, item, cs);
    assert left[..i] + [item] + left[i..] == items[i := item];
  }

  lemma AppendItem(items: seq<Json>, item: Json, cs: bool)
    requires Copyable(item)
    ensures ApplyOne(Array(items), Edit(AddOp, "" + "/" + Encode("-"), Some(item)), cs) ==
            Outcome(Array(items + [item]), 0)
  {
    EncodePlain("-");
    PlainKeysDecode("-");
    DecodeInPlaceExact("-");
    OneToken("-");
    DuplicateExact(item);
  }
}
