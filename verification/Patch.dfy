/** JSON Patch: generating edits (create_patches) and applying them (apply_patch). */
module Patch {
  import opened CStrings
  import opened Sorting
  import opened Json
  import opened Compare
  import opened Pointer
  import opened Options
  import opened Sequences

  // ----- applying -----

  /** strrchr(path, '/') */
  function LastSlash(path: string): (r: Option<nat>)
    ensures r.Some? ==> r.value < |path|
  {
    if path == [] then None
    else if path[|path| - 1] == '/' then Some(|path| - 1)
    else LastSlash(path[..|path| - 1])
  }

  /** detach_path at the parent; object keys are always looked up ignoring case. */
  function DetachFrom(parent: Json, child: string): Option<(Json, Json)> {
    match parent
    case Array(items) =>
      (match DecodeArrayIndex(child)
       case None => None
       case Some(i) => if i < |items| then Some((Array(RemoveAt(items, i)), items[i])) else None)
    case Object(ms) =>
      var i := IndexOf(ms, child, false);
      if i < |ms| then Some((Object(RemoveAt(ms, i)), ms[i].item)) else None
    case _ => None
  }

  /** detach_path: the tree left and the item taken. */
  function DetachPath(t: Json, path: string, cs: bool): Option<(Json, Json)> {
    match LastSlash(path)
    case None => None
    case Some(slash) => DetachAt(t, path[..slash], DecodeInPlace(path[slash + 1..]), cs)
  }

  function DetachAt(t: Json, parent: string, child: string, cs: bool): Option<(Json, Json)> {
    match Resolve(t, parent, cs)
    case None => None
    case Some(pos) =>
      match DetachFrom(At(t, pos), child)
      case None => None
      case Some((node, item)) => Some((Put(t, pos, node), item))
  }

  /** get_object_item on any node: only objects have keyed children. */
  function Field(t: Json, name: string, cs: bool): Option<Json> {
    if !t.Object? then None
    else
      var i := IndexOf(t.members, name, cs);
      if i < |t.members| then Some(t.members[i].item) else None
  }

  datatype Opcode = InvalidOp | AddOp | RemoveOp | ReplaceOp | MoveOp | CopyOp | TestOp

  /** decode_patch_operation */
  function DecodeOperation(op: Option<Json>): Opcode {
    match op
    case Some(String(s)) =>
      if s == "add" then AddOp
      else if s == "remove" then RemoveOp
      else if s == "replace" then ReplaceOp
      else if s == "move" then MoveOp
      else if s == "copy" then CopyOp
      else if s == "test" then TestOp
      else InvalidOp
    case _ => InvalidOp
  }

  /** The tree after a patch and the status returned; 0 is success. */
  datatype Outcome = Outcome(tree: Json, status: nat)

  /** cJSON_DeleteItemFromObject(CaseSensitive) */
  function DeleteKey(ms: seq<Member>, key: string, cs: bool): seq<Member> {
    var i := IndexOf(ms, key, cs);
    if i < |ms| then RemoveAt(ms, i) else ms
  }

  /** Adding a value to its parent node. */
  function AddTo(parent: Json, child: string, value: Json, cs: bool): Outcome {
    match parent
    case Array(items) =>
      if child == "-" then Outcome(Array(items + [value]), 0)
      else
        (match DecodeArrayIndex(child)
         case None => Outcome(parent, 11)
         case Some(i) =>
           if i <= |items| then Outcome(Array(items[..i] + [value] + items[i..]), 0) else Outcome(parent, 10))
    case Object(ms) => Outcome(Object(DeleteKey(ms, child, cs) + [Keyed(child, value)]), 0)
    case _ => Outcome(parent, 9)
  }

  /** The last part of apply_patch: put the value at the path. */
  function AddAtPath(t: Json, path: string, value: Json, cs: bool): Outcome {
    match LastSlash(path)
    case None => Outcome(t, 9)
    case Some(slash) => AddAt(t, path[..slash], DecodeInPlace(path[slash + 1..]), value, cs)
  }

  function AddAt(t: Json, parent: string, child: string, value: Json, cs: bool): Outcome {
    match Resolve(t, parent, cs)
    case None => Outcome(t, 9)
    case Some(pos) =>
      var added := AddTo(At(t, pos), child, value, cs);
      if added.status != 0 then Outcome(t, added.status) else Outcome(Put(t, pos, added.tree), 0)
  }

  /** add and replace with the value field of the patch. */
  function AddValue(t: Json, path: string, value: Option<Json>, cs: bool): Outcome {
    match value
    case None => Outcome(t, 7)
    case Some(v) =>
      match Duplicate(v)
      case None => Outcome(t, 8)
      case Some(copy) => AddAtPath(t, path, copy, cs)
  }

  function ReplaceRoot(t: Json, value: Option<Json>): Outcome {
    match value
    case None => Outcome(t, 7)
    case Some(v) =>
      match Duplicate(v)
      case None => Outcome(t, 8)
      case Some(copy) => Outcome(copy, 0)
  }

  /** apply_patch for the operations that the generator uses. */
  function ApplyEdit(t: Json, opcode: Opcode, path: string, value: Option<Json>, cs: bool): Outcome
    requires opcode.AddOp? || opcode.RemoveOp? || opcode.ReplaceOp?
  {
    if path == [] then
      if opcode.RemoveOp? then Outcome(Invalid, 0) else ReplaceRoot(t, value)
    else if opcode.AddOp? then AddValue(t, path, value, cs)
    else
      match DetachPath(t, path, cs)
      case None => Outcome(t, 13)
      case Some((left, _)) =>
        if opcode.RemoveOp? then Outcome(left, 0) else AddValue(left, path, value, cs)
  }

  function ApplyMove(t: Json, path: string, from: Option<Json>, cs: bool): Outcome {
    match from
    case None => Outcome(t, 4)
    case Some(String(source)) =>
      (match DetachPath(t, source, cs)
       case None => Outcome(t, 5)
       case Some((left, item)) => AddAtPath(left, path, item, cs))
    case Some(_) => Outcome(t, 5)
  }

  function ApplyCopy(t: Json, path: string, from: Option<Json>, cs: bool): Outcome {
    match from
    case None => Outcome(t, 4)
    case Some(String(source)) =>
      (match Resolve(t, source, cs)
       case None => Outcome(t, 5)
       case Some(pos) =>
         match Duplicate(At(t, pos))
         case None => Outcome(t, 6)
         case Some(copy) => AddAtPath(t, path, copy, cs))
    case Some(_) => Outcome(t, 5)
  }

  function ApplyTest(t: Json, path: string, value: Option<Json>, cs: bool): Outcome {
    match (Resolve(t, path, cs), value)
    case (Some(pos), Some(v)) => Outcome(t, if CompareJson(At(t, pos), v, cs) then 0 else 1)
    case _ => Outcome(t, 1)
  }

  /** apply_patch */
  function ApplyPatch(t: Json, patch: Json, cs: bool): Outcome {
    match Field(patch, "path", cs)
    case Some(String(path)) =>
      (match DecodeOperation(Field(patch, "op", cs))
       case InvalidOp => Outcome(t, 3)
       case TestOp => ApplyTest(t, path, Field(patch, "value", cs), cs)
       case MoveOp => ApplyMove(t, path, Field(patch, "from", cs), cs)
       case CopyOp => ApplyCopy(t, path, Field(patch, "from", cs), cs)
       case opcode => ApplyEdit(t, opcode, path, Field(patch, "value", cs), cs))
    case _ => Outcome(t, 2)
  }

  /** Patches in order, up to the first that fails. */
  function ApplyAll(t: Json, patches: seq<Json>, cs: bool): Outcome
    decreases |patches|
  {
    if patches == [] then Outcome(t, 0)
    else
      var first := ApplyPatch(t, patches[0], cs);
      if first.status != 0 then first else ApplyAll(first.tree, patches[1..], cs)
  }

  /** The document that patches are applied to. */
  class Document {
    var root: Json

    constructor (tree: Json)
      ensures root == tree
    {
      root := tree;
    }

    /** cJSONUtils_ApplyPatches and its case-sensitive twin. */
    method ApplyPatches(patches: Json, cs: bool) returns (status: nat)
      modifies this
      ensures Outcome(root, status) ==
              if patches.Array? then ApplyAll(old(root), patches.items, cs) else Outcome(old(root), 1)
    {
      if !patches.Array? {
        return 1;
      }
      var i := 0;
      while i < |patches.items|
        invariant i <= |patches.items|
        invariant ApplyAll(old(root), patches.items, cs) == ApplyAll(root, patches.items[i..], cs)
      {
        var outcome := ApplyPatch(root, patches.items[i], cs);
        root := outcome.tree;
        if outcome.status != 0 {
          return outcome.status;
        }
        i := i + 1;
      }
      return 0;
    }
  }

  // ----- generating -----

  /** One composed patch before it is written as an object. */
  datatype Edit = Edit(opcode: Opcode, path: string, value: Option<Json>)

  function OpName(opcode: Opcode): string {
    match opcode
    case AddOp => "add"
    case RemoveOp => "remove"
    case ReplaceOp => "replace"
    case MoveOp => "move"
    case CopyOp => "copy"
    case TestOp => "test"
    case InvalidOp => ""
  }

  function CopyOf(value: Option<Json>): Option<Json> {
    match value
    case None => None
    case Some(v) => Duplicate(v)
  }

  /** compose_patch, as the object it adds; a failed copy leaves the value out. */
  function ComposedPatch(e: Edit): Json {
    Object([Keyed("op", String(OpName(e.opcode))), Keyed("path", String(e.path))] +
           match CopyOf(e.value) { case None => [] case Some(copy) => [Keyed("value", copy)] })
  }

  function ComposedPatches(es: seq<Edit>): (r: seq<Json>)
    ensures |r| == |es|
    ensures forall i :: 0 <= i < |es| ==> r[i] == ComposedPatch(es[i])
  {
    seq(|es|, i requires 0 <= i < |es| => ComposedPatch(es[i]))
  }

  /** create_patches */
  function CreateEdits(path: string, from: Json, to: Json, cs: bool): seq<Edit>
    decreases Height(from), 1, 0
  {
    ChildHeights(from);
    if !SameKind(from, to) then [Edit(ReplaceOp, path, Some(to))]
    else
      match from
      case Number(n) => if n != to.n then [Edit(ReplaceOp, path, Some(to))] else []
      case String(s) => if s != to.s then [Edit(ReplaceOp, path, Some(to))] else []
      case Array(items) => ItemEdits(path, 0, items, to.items, cs, Height(from))
      case Object(ms) => MemberEdits(path, SortedMembers(ms, cs), SortedMembers(to.members, cs), cs, Height(from))
      case _ => []
  }

  /** The three loops over arrays, with `index` elements already passed. */
  function ItemEdits(path: string, index: nat, from: seq<Json>, to: seq<Json>, cs: bool, ghost bound: nat): seq<Edit>
    requires forall k :: 0 <= k < |from| ==> Height(from[k]) < bound
    decreases bound, 0, |from| + |to|
  {
    if from != [] && to != [] then
      CreateEdits(path + "/" + Digits(index), from[0], to[0], cs)
      + ItemEdits(path, index + 1, from[1..], to[1..], cs, bound)
    else if from != [] then
      [Edit(RemoveOp, path + "/" + Encode(Digits(index)), None)] + ItemEdits(path, index, from[1..], to, cs, bound)
    else if to != [] then
      [Edit(AddOp, path + "/" + Encode("-"), Some(to[0]))] + ItemEdits(path, index + 1, from, to[1..], cs, bound)
    else []
  }

  /** The merge walk over two sorted objects. */
  function MemberEdits(path: string, from: seq<Member>, to: seq<Member>, cs: bool, ghost bound: nat): seq<Edit>
    requires forall k :: 0 <= k < |from| ==> Height(from[k].item) < bound
    decreases bound, 0, |from| + |to|
  {
    if from == [] && to == [] then []
    else if to == [] || (from != [] && Before(from[0].key, to[0].key, cs)) then
      [Edit(RemoveOp, path + "/" + Encode(from[0].key), None)] + MemberEdits(path, from[1..], to, cs, bound)
    else if from == [] || Before(to[0].key, from[0].key, cs) then
      [Edit(AddOp, path + "/" + Encode(to[0].key), Some(to[0].item))] + MemberEdits(path, from, to[1..], cs, bound)
    else
      CreateEdits(path + "/" + Encode(from[0].key), from[0].item, to[0].item, cs)
      + MemberEdits(path, from[1..], to[1..], cs, bound)
  }

  /** The array that create_patches appends to. */
  class PatchList {
    var patches: seq<Json>

    constructor ()
      ensures patches == []
    {
      patches := [];
    }

    /** compose_patch */
    method Compose(opcode: Opcode, path: string, suffix: Option<string>, value: Option<Json>)
      modifies this
      ensures patches == old(patches) +
        ComposedPatches([Edit(opcode, if suffix.None? then path else path + "/" + Encode(suffix.value), value)])
    {
      var fullPath := path;
      if suffix.Some? {
        fullPath := path + "/" + Encode(suffix.value);
      }
      var members := [Keyed("op", String(OpName(opcode))), Keyed("path", String(fullPath))];
      if value.Some? {
        var copy := Duplicate(value.value);
        if copy.Some? {
          members := members + [Keyed("value", copy.value)];
        }
      }
      ghost var e := Edit(opcode, fullPath, value);
      assert Object(members) == ComposedPatch(e);
      assert ComposedPatches([e]) == [ComposedPatch(e)];
      patches := patches + [Object(members)];
    }

    /** create_patches */
    method Create(path: string, from: Json, to: Json, cs: bool)
      modifies this
      ensures patches == old(patches) + ComposedPatches(CreateEdits(path, from, to, cs))
      decreases Height(from), 1, 0
    {
      ChildHeights(from);
      if !SameKind(from, to) {
        Compose(ReplaceOp, path, None, Some(to));
        return;
      }
      match from {
        case Number(n) =>
          if n != to.n {
            Compose(ReplaceOp, path, None, Some(to));
          }
        case String(s) =>
          if s != to.s {
            Compose(ReplaceOp, path, None, Some(to));
          }
        case Array(items) =>
          CreateForItems(path, items, to.items, cs, Height(from));
        case Object(ms) =>
          CreateForMembers(path, SortedMembers(ms, cs), SortedMembers(to.members, cs), cs, Height(from));
        case _ =>
      }
    }

    method CreateForItems(path: string, from: seq<Json>, to: seq<Json>, cs: bool, ghost bound: nat)
      requires forall k :: 0 <= k < |from| ==> Height(from[k]) < bound
      modifies this
      ensures patches == old(patches) + ComposedPatches(ItemEdits(path, 0, from, to, cs, bound))
      decreases bound, 0, 0
    {
      ghost var total := patches + ComposedPatches(ItemEdits(path, 0, from, to, cs, bound));
      var index := 0;
      while index < |from| && index < |to|
        invariant index <= |from| && index <= |to|
        invariant patches + ComposedPatches(ItemEdits(path, index, from[index..], to[index..], cs, bound)) == total
      {
        ghost var before := patches;
        Create(path + "/" + Digits(index), from[index], to[index], cs);
        ItemEditsStep(path, index, from, index, to, cs, bound);
        Advance(before, CreateEdits(path + "/" + Digits(index), from[index], to[index], cs), patches,
                ItemEdits(path, index + 1, from[index + 1..], to[index + 1..], cs, bound));
        index := index + 1;
      }
      RemoveLeftover(path, index, from, to, cs, bound);
      AddLeftover(path, index, to, cs, bound);
    }

    /** Elements that only `from` has: each removal is at the same index. */
    method RemoveLeftover(path: string, index: nat, from: seq<Json>, to: seq<Json>, cs: bool, ghost bound: nat)
      requires forall k :: 0 <= k < |from| ==> Height(from[k]) < bound
      requires index <= |from| && index <= |to| && (index == |from| || index == |to|)
      modifies this
      ensures patches + ComposedPatches(ItemEdits(path, index, [], to[index..], cs, bound))
              == old(patches) + ComposedPatches(ItemEdits(path, index, from[index..], to[index..], cs, bound))
    {
      hide ItemEdits, ComposedPatches, Digits, Encode;
      ghost var total := patches + ComposedPatches(ItemEdits(path, index, from[index..], to[index..], cs, bound));
      var child := index;
      while child < |from|
        invariant index <= child <= |from|
        invariant patches + ComposedPatches(ItemEdits(path, index, from[child..], to[index..], cs, bound)) == total
      {
        ghost var before := patches;
        Compose(RemoveOp, path, Some(Digits(index)), None);
        ItemEditsStep(path, index, from, child, to, cs, bound);
        Advance(before, [Edit(RemoveOp, path + "/" + Encode(Digits(index)), None)], patches,
                ItemEdits(path, index, from[child + 1..], to[index..], cs, bound));
        child := child + 1;
      }
      assert from[child..] == [];
    }

    /** Elements that only `to` has: each is appended. */
    method AddLeftover(path: string, start: nat, to: seq<Json>, cs: bool, ghost bound: nat)
      requires start <= |to|
      modifies this
      ensures patches == old(patches) + ComposedPatches(ItemEdits(path, start, [], to[start..], cs, bound))
    {
      ghost var total := patches + ComposedPatches(ItemEdits(path, start, [], to[start..], cs, bound));
      var index := start;
      while index < |to|
        invariant start <= index <= |to|
        invariant patches + ComposedPatches(ItemEdits(path, index, [], to[index..], cs, bound)) == total
      {
        ghost var before := patches;
        Compose(AddOp, path, Some("-"), Some(to[index]));
        ItemEditsStep(path, index, [], 0, to, cs, bound);
        Advance(before, [Edit(AddOp, path + "/" + Encode("-"), Some(to[index]))], patches,
                ItemEdits(path, index + 1, [], to[index + 1..], cs, bound));
        index := index + 1;
      }
    }

    method CreateForMembers(path: string, from: seq<Member>, to: seq<Member>, cs: bool, ghost bound: nat)
      requires forall k :: 0 <= k < |from| ==> Height(from[k].item) < bound
      modifies this
      ensures patches == old(patches) + ComposedPatches(MemberEdits(path, from, to, cs, bound))
      decreases bound, 0, 0
    {
      hide MemberEdits, CreateEdits, Encode, ComposedPatches, Before;
      ghost var total := patches + ComposedPatches(MemberEdits(path, from, to, cs, bound));
      assert from[0..] == from && to[0..] == to;
      var i, j := 0, 0;
      while i < |from| || j < |to|
        invariant i <= |from| && j <= |to|
        invariant patches + ComposedPatches(MemberEdits(path, from[i..], to[j..], cs, bound)) == total
        decreases |from| - i + |to| - j
      {
        var diff: int;
        if i == |from| {
          diff := 1;
        } else if j == |to| {
          diff := -1;
        } else {
          diff := CompareStrings(from[i].key, to[j].key, cs);
          BeforeAsymmetric(from[i].key, to[j].key, cs);
        }
        ghost var before := patches;
        MemberEditsStep(path, from, i, to, j, cs, bound);
        if diff == 0 {
          Create(path + "/" + Encode(from[i].key), from[i].item, to[j].item, cs);
          Advance(before, CreateEdits(path + "/" + Encode(from[i].key), from[i].item, to[j].item, cs), patches,
                  MemberEdits(path, from[i + 1..], to[j + 1..], cs, bound));
          i, j := i + 1, j + 1;
        } else if diff < 0 {
          Compose(RemoveOp, path, Some(from[i].key), None);
          Advance(before, [Edit(RemoveOp, path + "/" + Encode(from[i].key), None)], patches,
                  MemberEdits(path, from[i + 1..], to[j..], cs, bound));
          i := i + 1;
        } else {
          Compose(AddOp, path, Some(to[j].key), Some(to[j].item));
          Advance(before, [Edit(AddOp, path + "/" + Encode(to[j].key), Some(to[j].item))], patches,
                  MemberEdits(path, from[i..], to[j + 1..], cs, bound));
          j := j + 1;
        }
      }
      MemberEditsStep(path, from, i, to, j, cs, bound);
      NothingComposed();
    }
  }

  /** Writing the next edits out leaves the rest still to be written. */
  lemma NothingComposed()
    ensures ComposedPatches([]) == []
  {
  }

  lemma Advance(before: seq<Json>, es: seq<Edit>, after: seq<Json>, rest: seq<Edit>)
    requires after == before + ComposedPatches(es)
    ensures before + ComposedPatches(es + rest) == after + ComposedPatches(rest)
  {
  }

  lemma ItemEditsStep(path: string, index: nat, from: seq<Json>, child: nat, to: seq<Json>, cs: bool, bound: nat)
    requires forall k :: 0 <= k < |from| ==> Height(from[k]) < bound
    requires child <= |from| && index <= |to|
    ensures ItemEdits(path, index, from[child..], to[index..], cs, bound) ==
      if child < |from| && index < |to| then
        CreateEdits(path + "/" + Digits(index), from[child], to[index], cs)
        + ItemEdits(path, index + 1, from[child + 1..], to[index + 1..], cs, bound)
      else if child < |from| then
        [Edit(RemoveOp, path + "/" + Encode(Digits(index)), None)]
        + ItemEdits(path, index, from[child + 1..], to[index..], cs, bound)
      else if index < |to| then
        [Edit(AddOp, path + "/" + Encode("-"), Some(to[index]))]
        + ItemEdits(path, index + 1, from[child..], to[index + 1..], cs, bound)
      else []
  {
  }

  lemma MemberEditsStep(path: string, from: seq<Member>, i: nat, to: seq<Member>, j: nat, cs: bool, bound: nat)
    requires forall k :: 0 <= k < |from| ==> Height(from[k].item) < bound
    requires i <= |from| && j <= |to|
    ensures MemberEdits(path, from[i..], to[j..], cs, bound) ==
      if i == |from| && j == |to| then []
      else if j == |to| || (i < |from| && Before(from[i].key, to[j].key, cs)) then
        [Edit(RemoveOp, path + "/" + Encode(from[i].key), None)] + MemberEdits(path, from[i + 1..], to[j..], cs, bound)
      else if i == |from| || Before(to[j].key, from[i].key, cs) then
        [Edit(AddOp, path + "/" + Encode(to[j].key), Some(to[j].item))]
        + MemberEdits(path, from[i..], to[j + 1..], cs, bound)
      else
        CreateEdits(path + "/" + Encode(from[i].key), from[i].item, to[j].item, cs)
        + MemberEdits(path, from[i + 1..], to[j + 1..], cs, bound)
  {
  }

  /** cJSONUtils_GeneratePatches and its case-sensitive twin, as the array they return. */
  function GeneratePatches(from: Json, to: Json, cs: bool): seq<Json> {
    ComposedPatches(CreateEdits("", from, to, cs))
  }
}
