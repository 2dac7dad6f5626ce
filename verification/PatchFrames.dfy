/** How edits below a child act on that child alone, and the shape of generated edits. */
module PatchFrames {
  import opened CStrings
  import opened Sorting
  import opened Json
  import opened Compare
  import opened Pointer
  import opened Patch
  import opened Options

  predicate Generated(op: Opcode) {
    op.AddOp? || op.RemoveOp? || op.ReplaceOp?
  }

  predicate AllGenerated(es: seq<Edit>) {
    forall k :: 0 <= k < |es| ==> Generated(es[k].opcode)
  }

  function ApplyOne(t: Json, e: Edit, cs: bool): Outcome
    requires Generated(e.opcode)
  {
    ApplyEdit(t, e.opcode, e.path, CopyOf(e.value), cs)
  }

  function ApplyEdits(t: Json, es: seq<Edit>, cs: bool): Outcome
    requires AllGenerated(es)
    decreases |es|
  {
    if es == [] then Outcome(t, 0)
    else
      var first := ApplyOne(t, es[0], cs);
      if first.status != 0 then first else ApplyEdits(first.tree, es[1..], cs)
  }

  lemma NamesDiffer(a: string, b: string, cs: bool)
    requires |a| != |b|
    ensures Norm(a, cs) != Norm(b, cs)
  {
  }

  lemma FieldOfPatch(e: Edit, cs: bool)
    ensures Field(ComposedPatch(e), "op", cs) == Some(String(OpName(e.opcode)))
    ensures Field(ComposedPatch(e), "path", cs) == Some(String(e.path))
    ensures Field(ComposedPatch(e), "value", cs) == CopyOf(e.value)
  {
    NamesDiffer("op", "path", cs);
    NamesDiffer("op", "value", cs);
    NamesDiffer("path", "value", cs);
    var ms := ComposedPatch(e).members;
    assert ms[0].key == "op" && ms[1].key == "path";
    assert ms[1..][0] == ms[1];
    if CopyOf(e.value).Some? {
      assert ms[1..][1..][0] == ms[2] && ms[2].key == "value";
    } else {
      assert ms[1..][1..] == [];
    }
  }

  lemma OpNameDecodes(op: Opcode)
    ensures DecodeOperation(Some(String(OpName(op)))) == op
  {
  }

  /** apply_patch reads back what compose_patch wrote. */
  lemma ComposedPatchApplies(t: Json, e: Edit, cs: bool)
    requires Generated(e.opcode)
    ensures ApplyPatch(t, ComposedPatch(e), cs) == ApplyOne(t, e, cs)
  {
    FieldOfPatch(e, cs);
    OpNameDecodes(e.opcode);
  }

  lemma {:induction false} ComposedPatchesApply(t: Json, es: seq<Edit>, cs: bool)
    requires AllGenerated(es)
    ensures ApplyAll(t, ComposedPatches(es), cs) == ApplyEdits(t, es, cs)
    decreases |es|
  {
    if es == [] {
    } else {
      ComposedPatchApplies(t, es[0], cs);
      ComposedPatchesApply(ApplyOne(t, es[0], cs).tree, es[1..], cs);
      assert ComposedPatches(es)[1..] == ComposedPatches(es[1..]);
    }
  }

  lemma {:induction false} ApplyEditsAppend(t: Json, a: seq<Edit>, b: seq<Edit>, cs: bool)
    requires AllGenerated(a) && AllGenerated(b) && ApplyEdits(t, a, cs).status == 0
    ensures AllGenerated(a + b)
    ensures ApplyEdits(t, a + b, cs) == ApplyEdits(ApplyEdits(t, a, cs).tree, b, cs)
    decreases |a|
  {
    hide ApplyOne;
    if a == [] {
      assert a + b == b;
    } else {
      ApplyEditsAppend(ApplyOne(t, a[0], cs).tree, a[1..], b, cs);
      assert (a + b)[1..] == a[1..] + b;
    }
  }

  // ----- prefixes -----

  function Prefixed(p: string, es: seq<Edit>): (r: seq<Edit>)
    ensures |r| == |es|
    ensures forall k :: 0 <= k < |es| ==> r[k] == Edit(es[k].opcode, p + es[k].path, es[k].value)
  {
    seq(|es|, k requires 0 <= k < |es| => Edit(es[k].opcode, p + es[k].path, es[k].value))
  }

  lemma PrefixedCons(p: string, e: Edit, es: seq<Edit>)
    ensures Prefixed(p, [e] + es) == [Edit(e.opcode, p + e.path, e.value)] + Prefixed(p, es)
  {
  }

  lemma PrefixedAppend(p: string, a: seq<Edit>, b: seq<Edit>)
    ensures Prefixed(p, a + b) == Prefixed(p, a) + Prefixed(p, b)
  {
  }

  lemma PrefixedTwice(p: string, q: string, es: seq<Edit>)
    ensures Prefixed(p, Prefixed(q, es)) == Prefixed(p + q, es)
  {
    forall k | 0 <= k < |es|
      ensures Prefixed(p, Prefixed(q, es))[k] == Prefixed(p + q, es)[k]
    {
      assert p + (q + es[k].path) == (p + q) + es[k].path;
    }
  }

  /** The edits for a pair of nodes do not depend on the path except as a prefix. */
  lemma {:induction false} CreateEditsPrefix(p: string, from: Json, to: Json, cs: bool)
    ensures CreateEdits(p, from, to, cs) == Prefixed(p, CreateEdits("", from, to, cs))
    decreases Height(from), 1, 0
  {
    ChildHeights(from);
    assert p + "" == p;
    if SameKind(from, to) {
      match from {
        case Array(items) => ItemEditsPrefix(p, 0, items, to.items, cs, Height(from));
        case Object(ms) =>
          MemberEditsPrefix(p, SortedMembers(ms, cs), SortedMembers(to.members, cs), cs, Height(from));
        case _ =>
      }
    }
  }

  /** One edit under a token, with and without the prefix. */
  lemma EditPrefix(p: string, op: Opcode, token: string, value: Option<Json>)
    ensures Edit(op, p + "/" + token, value) == Edit(op, p + ("" + "/" + token), value)
  {
  }

  lemma {:induction false} ChildEditsPrefix(p: string, token: string, from: Json, to: Json, cs: bool)
    ensures CreateEdits(p + "/" + token, from, to, cs) == Prefixed(p, CreateEdits("" + "/" + token, from, to, cs))
    decreases Height(from), 2, 0
  {
    CreateEditsPrefix(p + "/" + token, from, to, cs);
    CreateEditsPrefix("" + "/" + token, from, to, cs);
    PrefixedTwice(p, "" + "/" + token, CreateEdits("", from, to, cs));
    assert p + "/" + token == p + ("" + "/" + token);
  }

  lemma {:induction false} ItemEditsPrefix(p: string, index: nat, from: seq<Json>, to: seq<Json>, cs: bool, bound: nat)
    requires forall k :: 0 <= k < |from| ==> Height(from[k]) < bound
    ensures ItemEdits(p, index, from, to, cs, bound) == Prefixed(p, ItemEdits("", index, from, to, cs, bound))
    decreases bound, 0, |from| + |to|
  {
    if from != [] && to != [] {
      ChildEditsPrefix(p, Digits(index), from[0], to[0], cs);
      ItemEditsPrefix(p, index + 1, from[1..], to[1..], cs, bound);
      PrefixedAppend(p, CreateEdits("" + "/" + Digits(index), from[0], to[0], cs),
                     ItemEdits("", index + 1, from[1..], to[1..], cs, bound));
    } else if from != [] {
      ItemEditsPrefix(p, index, from[1..], to, cs, bound);
      EditPrefix(p, RemoveOp, Encode(Digits(index)), None);
      PrefixedCons(p, Edit(RemoveOp, "" + "/" + Encode(Digits(index)), None),
                   ItemEdits("", index, from[1..], to, cs, bound));
    } else if to != [] {
      ItemEditsPrefix(p, index + 1, from, to[1..], cs, bound);
      EditPrefix(p, AddOp, Encode("-"), Some(to[0]));
      PrefixedCons(p, Edit(AddOp, "" + "/" + Encode("-"), Some(to[0])),
                   ItemEdits("", index + 1, from, to[1..], cs, bound));
    }
  }

  lemma {:induction false} MemberEditsPrefix(p: string, from: seq<Member>, to: seq<Member>, cs: bool, bound: nat)
    requires forall k :: 0 <= k < |from| ==> Height(from[k].item) < bound
    ensures MemberEdits(p, from, to, cs, bound) == Prefixed(p, MemberEdits("", from, to, cs, bound))
    decreases bound, 0, |from| + |to|
  {
    if from == [] && to == [] {
    } else if to == [] || (from != [] && Before(from[0].key, to[0].key, cs)) {
      MemberEditsPrefix(p, from[1..], to, cs, bound);
      EditPrefix(p, RemoveOp, Encode(from[0].key), None);
      PrefixedCons(p, Edit(RemoveOp, "" + "/" + Encode(from[0].key), None),
                   MemberEdits("", from[1..], to, cs, bound));
    } else if from == [] || Before(to[0].key, from[0].key, cs) {
      MemberEditsPrefix(p, from, to[1..], cs, bound);
      EditPrefix(p, AddOp, Encode(to[0].key), Some(to[0].item));
      PrefixedCons(p, Edit(AddOp, "" + "/" + Encode(to[0].key), Some(to[0].item)),
                   MemberEdits("", from, to[1..], cs, bound));
    } else {
      ChildEditsPrefix(p, Encode(from[0].key), from[0].item, to[0].item, cs);
      MemberEditsPrefix(p, from[1..], to[1..], cs, bound);
      PrefixedAppend(p, CreateEdits("" + "/" + Encode(from[0].key), from[0].item, to[0].item, cs),
                     MemberEdits("", from[1..], to[1..], cs, bound));
    }
  }

  // ----- shape -----

  /** Edits strictly below the root. */
  predicate Below(es: seq<Edit>) {
    forall k :: 0 <= k < |es| ==> es[k].path != [] && es[k].path[0] == '/' && Generated(es[k].opcode)
  }

  lemma PrefixedBelow(token: string, es: seq<Edit>)
    requires AllGenerated(es)
    ensures Below(Prefixed("" + "/" + token, es))
  {
  }

  /** A node is either replaced as a whole or edited strictly below. */
  lemma {:induction false} CreateEditsShape(from: Json, to: Json, cs: bool)
    ensures var es := CreateEdits("", from, to, cs);
            AllGenerated(es) && (Below(es) || es == [Edit(ReplaceOp, "", Some(to))])
    decreases Height(from), 1, 0
  {
    ChildHeights(from);
    if SameKind(from, to) {
      match from {
        case Array(items) => ItemEditsBelow(0, items, to.items, cs, Height(from));
        case Object(ms) =>
          MemberEditsBelow(SortedMembers(ms, cs), SortedMembers(to.members, cs), cs, Height(from));
        case _ =>
      }
    }
  }

  lemma {:induction false} ChildEditsBelow(token: string, from: Json, to: Json, cs: bool)
    ensures Below(CreateEdits("" + "/" + token, from, to, cs))
    decreases Height(from), 2, 0
  {
    CreateEditsPrefix("" + "/" + token, from, to, cs);
    CreateEditsShape(from, to, cs);
    PrefixedBelow(token, CreateEdits("", from, to, cs));
  }

  lemma {:induction false} ItemEditsBelow(index: nat, from: seq<Json>, to: seq<Json>, cs: bool, bound: nat)
    requires forall k :: 0 <= k < |from| ==> Height(from[k]) < bound
    ensures Below(ItemEdits("", index, from, to, cs, bound))
    decreases bound, 0, |from| + |to|
  {
    if from != [] && to != [] {
      ChildEditsBelow(Digits(index), from[0], to[0], cs);
      ItemEditsBelow(index + 1, from[1..], to[1..], cs, bound);
    } else if from != [] {
      ItemEditsBelow(index, from[1..], to, cs, bound);
    } else if to != [] {
      ItemEditsBelow(index + 1, from, to[1..], cs, bound);
    }
  }

  lemma {:induction false} MemberEditsBelow(from: seq<Member>, to: seq<Member>, cs: bool, bound: nat)
    requires forall k :: 0 <= k < |from| ==> Height(from[k].item) < bound
    ensures Below(MemberEdits("", from, to, cs, bound))
    decreases bound, 0, |from| + |to|
  {
    if from == [] && to == [] {
    } else if to == [] || (from != [] && Before(from[0].key, to[0].key, cs)) {
      MemberEditsBelow(from[1..], to, cs, bound);
    } else if from == [] || Before(to[0].key, from[0].key, cs) {
      MemberEditsBelow(from, to[1..], cs, bound);
    } else {
      ChildEditsBelow(Encode(from[0].key), from[0].item, to[0].item, cs);
      MemberEditsBelow(from[1..], to[1..], cs, bound);
    }
  }

  // ----- frames -----

  /** Child i is what a token leads to: an index in an array, an escaped key in an object. */
  predicate Named(t: Json, token: string, key: string, i: nat, cs: bool) {
    && i < ChildCount(t)
    && (t.Array? ==> token == Digits(i) && i < SIZE_MODULUS)
    && (t.Object? ==> token == Encode(key) && IndexOf(t.members, key, cs) == i)
  }

  lemma {:induction false} LastSlashAt(s: string, k: nat)
    requires k < |s| && s[k] == '/' && forall m :: k < m < |s| ==> s[m] != '/'
    ensures LastSlash(s) == Some(k)
  {
    if k < |s| - 1 {
      LastSlashAt(s[..|s| - 1], k);
    }
  }

  lemma {:induction false} LastSlashSplits(s: string)
    requires '/' in s
    ensures LastSlash(s).Some? && s[LastSlash(s).value] == '/'
    ensures forall k :: LastSlash(s).value < k < |s| ==> s[k] != '/'
  {
    if s[|s| - 1] == '/' {
    } else {
      assert s == s[..|s| - 1] + [s[|s| - 1]];
      LastSlashSplits(s[..|s| - 1]);
    }
  }

  lemma LastSlashAppend(a: string, p: string)
    requires '/' in p
    ensures LastSlash(p).Some? && LastSlash(a + p) == Some(|a| + LastSlash(p).value)
  {
    hide LastSlash;
    LastSlashSplits(p);
    LastSlashAt(a + p, |a| + LastSlash(p).value);
  }

  lemma NamedResolves(t: Json, token: string, key: string, i: nat, rest: string, cs: bool)
    requires Named(t, token, key, i, cs) && TokenBoundary(rest)
    ensures Resolve(t, "/" + token + rest, cs) ==
            match Resolve(Child(t, i), rest, cs) { case None => None case Some(pos) => Some([i] + pos) }
  {
    if t.Array? {
      StepToken(t, i, rest, cs);
    } else {
      EncodeNoSlash(key);
      SkipTokenExact(token, rest);
      FirstNamedExact(t.members, key, rest, cs);
    }
    ResolveToken(t, token, rest, cs);
  }

  lemma AtPutUnderChild(t: Json, i: nat, pos: seq<nat>, node: Json)
    requires i < ChildCount(t) && ValidPosition(Child(t, i), pos)
    ensures ValidPosition(t, [i] + pos)
    ensures At(t, [i] + pos) == At(Child(t, i), pos)
    ensures Put(t, [i] + pos, node) == PutChild(t, i, Put(Child(t, i), pos, node))
  {
  }

  /** The last token and the rest of a path, by itself and behind another token. */
  lemma SplitBehind(a: string, path: string)
    requires path != [] && path[0] == '/'
    ensures LastSlash(path).Some? && LastSlash(a + path) == Some(|a| + LastSlash(path).value)
    ensures (a + path)[..|a| + LastSlash(path).value] == a + path[..LastSlash(path).value]
    ensures (a + path)[|a| + LastSlash(path).value + 1..] == path[LastSlash(path).value + 1..]
    ensures TokenBoundary(path[..LastSlash(path).value])
  {
    hide LastSlash, TokenBoundary;
    assert '/' in path by { assert path[0] in path; }
    LastSlashAppend(a, path);
    SlicesBehind(a, path, LastSlash(path).value);
  }

  lemma SlicesBehind(a: string, path: string, k: nat)
    requires k < |path| && path[0] == '/'
    ensures (a + path)[..|a| + k] == a + path[..k] && (a + path)[|a| + k + 1..] == path[k + 1..]
    ensures TokenBoundary(path[..k])
  {
  }

  lemma DetachUnderChild(t: Json, token: string, key: string, i: nat, parent: string, child: string, cs: bool)
    requires Named(t, token, key, i, cs) && TokenBoundary(parent)
    ensures DetachAt(t, "/" + token + parent, child, cs) ==
            match DetachAt(Child(t, i), parent, child, cs)
            case None => None
            case Some((left, item)) => Some((PutChild(t, i, left), item))
  {
    hide Resolve, DetachFrom, At, Put, PutChild, Child, TokenBoundary, Encode, Digits, ValidPosition;
    NamedResolves(t, token, key, i, parent, cs);
    var resolved := Resolve(Child(t, i), parent, cs);
    if resolved.Some? {
      var detached := DetachFrom(At(Child(t, i), resolved.value), child);
      AtPutUnderChild(t, i, resolved.value, if detached.Some? then detached.value.0 else Null);
    }
  }

  lemma AddUnderChild(t: Json, token: string, key: string, i: nat, parent: string, child: string, value: Json, cs: bool)
    requires Named(t, token, key, i, cs) && TokenBoundary(parent)
    ensures AddAt(t, "/" + token + parent, child, value, cs) ==
            var o := AddAt(Child(t, i), parent, child, value, cs);
            Outcome(PutChild(t, i, o.tree), o.status)
  {
    hide Resolve, AddTo, At, Put, PutChild, Child, TokenBoundary, Encode, Digits, ValidPosition;
    NamedResolves(t, token, key, i, parent, cs);
    var resolved := Resolve(Child(t, i), parent, cs);
    PutOwnChild(t, i);
    if resolved.Some? {
      var added := AddTo(At(Child(t, i), resolved.value), child, value, cs);
      AtPutUnderChild(t, i, resolved.value, added.tree);
    }
  }

  lemma PutOwnChild(t: Json, i: nat)
    requires i < ChildCount(t)
    ensures PutChild(t, i, Child(t, i)) == t
  {
  }

  lemma NamedAfterPut(t: Json, token: string, key: string, i: nat, node: Json, cs: bool)
    requires Named(t, token, key, i, cs)
    ensures Named(PutChild(t, i, node), token, key, i, cs)
    ensures Child(PutChild(t, i, node), i) == node
  {
    if t.Object? {
      var ms := t.members;
      IndexOfSameKeys(ms, ms[i := Keyed(ms[i].key, node)], key, cs);
    }
  }

  lemma PutTwice(t: Json, i: nat, node: Json, other: Json)
    requires i < ChildCount(t)
    ensures PutChild(PutChild(t, i, node), i, other) == PutChild(t, i, other)
  {
  }

  lemma {:induction false} IndexOfSameKeys(xs: seq<Member>, ys: seq<Member>, key: string, cs: bool)
    requires |xs| == |ys| && forall k :: 0 <= k < |xs| ==> xs[k].key == ys[k].key
    ensures IndexOf(xs, key, cs) == IndexOf(ys, key, cs)
  {
  }

  /** An edit whose path leads through child i changes child i as the rest of the path says. */
  lemma EditUnderChild(t: Json, token: string, key: string, i: nat, e: Edit, cs: bool)
    requires Named(t, token, key, i, cs) && Generated(e.opcode) && e.path != [] && e.path[0] == '/'
    ensures ApplyOne(t, Edit(e.opcode, "/" + token + e.path, e.value), cs) ==
            var o := ApplyOne(Child(t, i), e, cs);
            Outcome(PutChild(t, i, o.tree), o.status)
  {
    hide DetachAt, AddAt, Duplicate, DecodeInPlace, PutChild, LastSlash, CopyOf, TokenBoundary, Encode, Child;
    PutOwnChild(t, i);
    SplitBehind("/" + token, e.path);
    var slash := LastSlash(e.path).value;
    var parent, child := e.path[..slash], DecodeInPlace(e.path[slash + 1..]);
    DetachUnderChild(t, token, key, i, parent, child, cs);
    var detached := DetachAt(Child(t, i), parent, child, cs);
    var copy := match CopyOf(e.value) { case None => None case Some(v) => Duplicate(v) };
    if copy.Some? {
      AddUnderChild(t, token, key, i, parent, child, copy.value, cs);
    }
    if detached.Some? {
      var left := detached.value.0;
      NamedAfterPut(t, token, key, i, left, cs);
      if copy.Some? {
        AddUnderChild(PutChild(t, i, left), token, key, i, parent, child, copy.value, cs);
        PutTwice(t, i, left, AddAt(left, parent, child, copy.value, cs).tree);
      }
    }
  }

  lemma {:induction false} EditsUnderChild(t: Json, token: string, key: string, i: nat, es: seq<Edit>, cs: bool)
    requires Named(t, token, key, i, cs) && Below(es)
    ensures AllGenerated(es) && AllGenerated(Prefixed("/" + token, es))
    ensures ApplyEdits(t, Prefixed("/" + token, es), cs) ==
            var o := ApplyEdits(Child(t, i), es, cs);
            Outcome(PutChild(t, i, o.tree), o.status)
    decreases |es|
  {
    if es == [] {
      PutOwnChild(t, i);
    } else {
      EditUnderChild(t, token, key, i, es[0], cs);
      var o := ApplyOne(Child(t, i), es[0], cs);
      NamedAfterPut(t, token, key, i, o.tree, cs);
      EditsUnderChild(PutChild(t, i, o.tree), token, key, i, es[1..], cs);
      PutTwice(t, i, o.tree, ApplyEdits(o.tree, es[1..], cs).tree);
      assert Prefixed("/" + token, es)[1..] == Prefixed("/" + token, es[1..]);
    }
  }
}
