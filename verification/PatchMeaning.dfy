/** JSON Patch operations on the values that trees denote, as RFC 6902 describes them. */
module PatchMeaning {
  import opened CStrings
  import opened Sorting
  import opened Json
  import opened Compare
  import opened Pointer
  import opened Patch
  import opened PatchFrames
  import opened PatchRoundTrip
  import opened Options
  import opened Sequences
  import Text
  import TextRoundTrip

  // ----- the reference -----

  /** The pointer for a list of names, section 3 of RFC 6901. */
  function PathText(path: seq<string>): string {
    if path == [] then "" else "/" + Encode(path[0]) + PathText(path[1..])
  }

  /** A name as an array index: no leading zeros; the number wraps with size_t, and no digits at all are zero. */
  ghost function Index(name: string): Option<nat> {
    if name == "" then Some(0)
    else if n: nat :| name == Digits(n) then Some(n % SIZE_MODULUS)
    else None
  }

  /** The value under a name. */
  ghost function Under(v: Value, name: string, cs: bool): Option<Value> {
    match v
    case VArray(items) =>
      (match Index(name)
       case None => None
       case Some(i) => if i < |items| then Some(items[i]) else None)
    case VObject(fields) => if Norm(name, cs) in fields then Some(fields[Norm(name, cs)]) else None
    case _ => None
  }

  ghost function Over(v: Value, name: string, cs: bool, w: Value): Value
    requires Under(v, name, cs).Some?
  {
    match v
    case VArray(items) => VArray(items[Index(name).value := w])
    case VObject(fields) => VObject(fields[Norm(name, cs) := w])
  }

  ghost function ValueAt(v: Value, path: seq<string>, cs: bool): Option<Value>
    decreases |path|
  {
    if path == [] then Some(v)
    else
      match Under(v, path[0], cs)
      case None => None
      case Some(w) => ValueAt(w, path[1..], cs)
  }

  /** The value with something else where the path leads. */
  ghost function With(v: Value, path: seq<string>, cs: bool, w: Value): Value
    requires ValueAt(v, path, cs).Some?
    decreases |path|
  {
    if path == [] then w
    else Over(v, path[0], cs, With(Under(v, path[0], cs).value, path[1..], cs, w))
  }

  /** Section 4.1 of RFC 6902: an element goes in before another, a member that exists is replaced. */
  ghost function AddedTo(v: Value, name: string, x: Value, cs: bool): Option<Value> {
    match v
    case VArray(items) =>
      if name == "-" then Some(VArray(items + [x]))
      else
        (match Index(name)
         case None => None
         case Some(i) => if i <= |items| then Some(VArray(items[..i] + [x] + items[i..])) else None)
    case VObject(fields) => Some(VObject(fields[Norm(name, cs) := x]))
    case _ => None
  }

  /** The key of an object that a removal takes, which is looked up ignoring case in either mode. */
  ghost predicate TakesKey(fields: map<string, Value>, name: string, k: string) {
    k in fields && Fold(k) == Fold(name)
  }

  /** What is left, and what was taken. */
  ghost function TakenFrom(v: Value, name: string): Option<(Value, Value)> {
    match v
    case VArray(items) =>
      (match Index(name)
       case None => None
       case Some(i) => if i < |items| then Some((VArray(RemoveAt(items, i)), items[i])) else None)
    case VObject(fields) =>
      if k :| TakesKey(fields, name, k) then Some((VObject(fields - {k}), fields[k])) else None
    case _ => None
  }

  /** add with a value at a path; the document itself is no member of anything. */
  ghost function Added(v: Value, path: seq<string>, x: Value, cs: bool): Option<Value> {
    if path == [] then None
    else
      match ValueAt(v, Parent(path), cs)
      case None => None
      case Some(node) =>
        match AddedTo(node, Last(path), x, cs)
        case None => None
        case Some(after) => Some(With(v, Parent(path), cs, after))
  }

  /** remove at a path, with what was there. */
  ghost function Taken(v: Value, path: seq<string>, cs: bool): Option<(Value, Value)> {
    if path == [] then None
    else
      match ValueAt(v, Parent(path), cs)
      case None => None
      case Some(node) =>
        match TakenFrom(node, Last(path))
        case None => None
        case Some((left, item)) => Some((With(v, Parent(path), cs, left), item))
  }

  function Parent(path: seq<string>): seq<string>
    requires path != []
  {
    path[..|path| - 1]
  }

  function Last(path: seq<string>): string
    requires path != []
  {
    path[|path| - 1]
  }

  /** At most so many levels below the top. */
  predicate Shallow(v: Value, n: nat) {
    match v
    case VArray(items) => items != [] ==> n > 0 && forall i :: 0 <= i < |items| ==> Shallow(items[i], n - 1)
    case VObject(fields) => fields != map[] ==> n > 0 && forall k :: k in fields ==> Shallow(fields[k], n - 1)
    case _ => true
  }

  /** The operations of section 4 of RFC 6902. */
  datatype Operation =
    | Add(path: seq<string>, value: Json)
    | Remove(path: seq<string>)
    | Replace(path: seq<string>, value: Json)
    | Move(from: seq<string>, path: seq<string>)
    | Copy(from: seq<string>, path: seq<string>)
    | Test(path: seq<string>, value: Json)

  /** What an operation makes of a value; None when it fails. */
  ghost function Performed(v: Value, op: Operation, cs: bool): Option<Value> {
    match op
    case Add(path, x) =>
      if !Shallow(Meaning(x, cs), CIRCULAR_LIMIT) then None
      else if path == [] then Some(Meaning(x, cs))
      else Added(v, path, Meaning(x, cs), cs)
    case Remove(path) =>
      if path == [] then Some(VInvalid)
      else if Taken(v, path, cs).Some? then Some(Taken(v, path, cs).value.0) else None
    case Replace(path, x) =>
      if !Shallow(Meaning(x, cs), CIRCULAR_LIMIT) then None
      else if path == [] then Some(Meaning(x, cs))
      else if Taken(v, path, cs).Some? then Added(Taken(v, path, cs).value.0, path, Meaning(x, cs), cs)
      else None
    case Move(from, path) =>
      if Taken(v, from, cs).Some? then Added(Taken(v, from, cs).value.0, path, Taken(v, from, cs).value.1, cs)
      else None
    case Copy(from, path) =>
      (match ValueAt(v, from, cs)
       case None => None
       case Some(item) => if Shallow(item, CIRCULAR_LIMIT) then Added(v, path, item, cs) else None)
    case Test(path, x) =>
      (match ValueAt(v, path, cs)
       case None => None
       case Some(w) => if Unraw(w) == Unraw(Meaning(x, cs)) then Some(v) else None)
  }

  /** The operations of a patch document in order. */
  ghost function PerformedAll(v: Value, ops: seq<Operation>, cs: bool): Option<Value>
    decreases |ops|
  {
    if ops == [] then Some(v)
    else
      match Performed(v, ops[0], cs)
      case None => None
      case Some(w) => PerformedAll(w, ops[1..], cs)
  }

  // ----- what the patches must be like -----

  /** The last name of a path survives the decoder. */
  predicate Sendable(path: seq<string>) {
    path != [] ==> Decodable(Last(path))
  }

  /** A patch object for an operation. */
  ghost predicate Describes(patch: Json, op: Operation, cs: bool) {
    && Field(patch, "path", cs) == Some(String(PathText(op.path)))
    && (op.Test? || Sendable(op.path))
    && match op
       case Add(_, x) => Asks(patch, "add", cs) && Carries(patch, x, cs)
       case Remove(_) => Asks(patch, "remove", cs)
       case Replace(_, x) => Asks(patch, "replace", cs) && Carries(patch, x, cs)
       case Move(from, _) => Asks(patch, "move", cs) && ComesFrom(patch, from, cs) && Sendable(from)
       case Copy(from, _) => Asks(patch, "copy", cs) && ComesFrom(patch, from, cs)
       case Test(_, x) => Asks(patch, "test", cs) && Carries(patch, x, cs)
  }

  predicate Asks(patch: Json, name: string, cs: bool) {
    Field(patch, "op", cs) == Some(String(name))
  }

  predicate Carries(patch: Json, value: Json, cs: bool) {
    Field(patch, "value", cs) == Some(value) && KeysDistinct(value, cs)
  }

  predicate ComesFrom(patch: Json, from: seq<string>, cs: bool) {
    Field(patch, "from", cs) == Some(String(PathText(from)))
  }

  /** The name that a removal goes by is that of one key at most, ignoring case. */
  ghost predicate Lone(v: Value, name: string) {
    v.VObject? ==> forall j, k :: TakesKey(v.fields, name, j) && TakesKey(v.fields, name, k) ==> j == k
  }

  ghost predicate LoneAt(v: Value, path: seq<string>, cs: bool) {
    path != [] && ValueAt(v, Parent(path), cs).Some? ==> Lone(ValueAt(v, Parent(path), cs).value, Last(path))
  }

  /** Nothing is removed by a name that two keys share; ignoring case throughout, no two keys do. */
  ghost predicate Clear(v: Value, op: Operation, cs: bool) {
    cs ==>
      match op
      case Remove(path) => LoneAt(v, path, cs)
      case Replace(path, _) => LoneAt(v, path, cs)
      case Move(from, _) => LoneAt(v, from, cs)
      case _ => true
  }

  ghost predicate AllClear(v: Value, ops: seq<Operation>, cs: bool)
    decreases |ops|
  {
    ops == [] || (Clear(v, ops[0], cs) &&
                  (Performed(v, ops[0], cs).Some? ==> AllClear(Performed(v, ops[0], cs).value, ops[1..], cs)))
  }

  // ----- array indexes -----

  lemma {:induction false} ParsedBehindRun(p: string, parsed: nat)
    ensures ParseDigits(p, parsed).1 == p[Text.Run(p)..]
    decreases |p|
  {
    if p != [] && IsDigit(p[0]) {
      ParsedBehindRun(p[1..], (10 * parsed + (p[0] as int - '0' as int)) % SIZE_MODULUS);
    }
  }

  /** A digit string without a leading zero is what its number prints. */
  lemma {:induction false} PrintedAgain(s: string)
    requires s != "" && (forall i :: 0 <= i < |s| ==> IsDigit(s[i])) && (s[0] == '0' ==> |s| == 1)
    ensures Digits(Text.NumberOf(s)) == s
    ensures s[0] != '0' ==> Text.NumberOf(s) > 0
    decreases |s|
  {
    var front, d := s[..|s| - 1], s[|s| - 1] as int - '0' as int;
    assert s == front + [DigitChar(d)];
    if front == "" {
      assert Text.NumberOf("") == 0;
    } else {
      PrintedAgain(front);
      assert front[0] != '0';
    }
  }

  lemma SameDigits(n: nat, m: nat)
    requires Digits(n) == Digits(m)
    ensures n == m
  {
    TextRoundTrip.NumberOfDigits(n);
    TextRoundTrip.NumberOfDigits(m);
  }

  /** decode_array_index_from_pointer on a name and what follows it. */
  lemma IndexExact(name: string, rest: string)
    requires '/' !in name && TokenBoundary(rest)
    ensures DecodeArrayIndex(name + rest) == Index(name)
  {
    hide Digits, ParseDigits, Text.Run, Text.NumberOf;
    var p := name + rest;
    if name == "" {
      ParsedBehindRun(p, 0);
      NoDigits(rest);
    } else if n: nat :| name == Digits(n) {
      IndexRoundTrip(n, rest);
      forall m: nat | name == Digits(m) ensures m == n { SameDigits(n, m); }
    } else {
      ParsedBehindRun(p, 0);
      if DecodeArrayIndex(p).Some? {
        RunCovers(name, rest);
        PrintedAgain(name);
        assert false;
      }
    }
  }

  lemma NoDigits(rest: string)
    requires TokenBoundary(rest)
    ensures ParseDigits("" + rest, 0) == (0, rest) && DecodeArrayIndex("" + rest) == Some(0)
  {
    assert "" + rest == rest;
  }

  lemma RunCovers(name: string, rest: string)
    requires '/' !in name && TokenBoundary((name + rest)[Text.Run(name + rest)..])
    ensures forall i :: 0 <= i < |name| ==> IsDigit(name[i])
  {
    var p, r := name + rest, Text.Run(name + rest);
    if r < |name| {
      assert false;
    }
    forall i | 0 <= i < |name| ensures IsDigit(name[i]) { assert p[i] == name[i]; }
  }

  lemma {:induction false} EncodedDigits(name: string)
    requires '~' !in Encode(name)
    ensures Encode(name) == name
  {
    if name != "" {
      assert Encode(name) == EncodeChar(name[0]) + Encode(name[1..]);
      assert EncodeChar(name[0])[0] in Encode(name);
      assert forall c :: c in Encode(name[1..]) ==> c in Encode(name);
      EncodedDigits(name[1..]);
    }
  }

  lemma DigitsUnescaped(n: nat)
    ensures '/' !in Digits(n) && '~' !in Digits(n) && Encode(Digits(n)) == Digits(n)
  {
    assert forall c :: c in Digits(n) ==> IsDigit(c);
    EncodePlain(Digits(n));
  }

  lemma IndexOfEncoded(name: string)
    ensures Index(Encode(name)) == Index(name)
  {
    hide Digits;
    if name == "" {
    } else {
      assert Encode(name) != "" by { EncodedStart(name[0]); }
      forall n: nat ensures name == Digits(n) <==> Encode(name) == Digits(n) {
        DigitsUnescaped(n);
        if Encode(name) == Digits(n) { EncodedDigits(name); }
      }
      if n: nat :| name == Digits(n) {
        forall m: nat | name == Digits(m) ensures m == n { SameDigits(n, m); }
      }
    }
  }

  // ----- one step down -----

  /** The child that a name selects. */
  ghost function ChildOf(t: Json, name: string, cs: bool): (r: Option<nat>)
    ensures r.Some? ==> r.value < ChildCount(t)
  {
    match t
    case Array(items) =>
      if Index(name).Some? && Index(name).value < |items| then Some(Index(name).value) else None
    case Object(ms) => if IndexOf(ms, name, cs) < |ms| then Some(IndexOf(ms, name, cs)) else None
    case _ => None
  }

  lemma StepExact(t: Json, name: string, rest: string, cs: bool)
    requires TokenBoundary(rest)
    ensures Step(t, Encode(name) + rest, cs) == ChildOf(t, name, cs)
    ensures SkipToken(Encode(name) + rest) == rest
  {
    hide Index, DecodeArrayIndex, FirstNamed;
    EncodeNoSlash(name);
    SkipTokenExact(Encode(name), rest);
    if t.Array? {
      IndexExact(Encode(name), rest);
      IndexOfEncoded(name);
    } else if t.Object? {
      FirstNamedExact(t.members, name, rest, cs);
    }
  }

  lemma ChildMeans(t: Json, name: string, cs: bool)
    requires KeysDistinct(t, cs)
    ensures ChildOf(t, name, cs).Some? <==> Under(Meaning(t, cs), name, cs).Some?
    ensures ChildOf(t, name, cs).Some? ==>
              && KeysDistinct(Child(t, ChildOf(t, name, cs).value), cs)
              && Under(Meaning(t, cs), name, cs) == Some(Meaning(Child(t, ChildOf(t, name, cs).value), cs))
  {
    hide Index, Fields;
    if t.Object? {
      FieldsLookup(t.members, name, cs);
    }
  }

  lemma PutMeans(t: Json, name: string, node: Json, cs: bool)
    requires KeysDistinct(t, cs) && KeysDistinct(node, cs) && ChildOf(t, name, cs).Some?
    ensures var after := PutChild(t, ChildOf(t, name, cs).value, node);
            && KeysDistinct(after, cs) && Under(Meaning(t, cs), name, cs).Some?
            && Meaning(after, cs) == Over(Meaning(t, cs), name, cs, Meaning(node, cs))
  {
    hide Index, Fields;
    ChildMeans(t, name, cs);
    var i := ChildOf(t, name, cs).value;
    if t.Object? {
      FieldsReplaced(t.members, i, node, cs);
    }
  }

  // ----- all the way down -----

  lemma PathBoundary(path: seq<string>)
    ensures TokenBoundary(PathText(path))
  {
  }

  /** A path leads to the node that denotes the value at the path. */
  lemma {:induction false} ResolveMeans(t: Json, path: seq<string>, cs: bool)
    requires KeysDistinct(t, cs)
    ensures Resolve(t, PathText(path), cs).Some? <==> ValueAt(Meaning(t, cs), path, cs).Some?
    ensures Resolve(t, PathText(path), cs).Some? ==>
              var node := At(t, Resolve(t, PathText(path), cs).value);
              KeysDistinct(node, cs) && ValueAt(Meaning(t, cs), path, cs) == Some(Meaning(node, cs))
    decreases |path|
  {
    if path == [] {
    } else {
      hide Step, Under, KeysDistinct, Meaning, ChildOf, Encode;
      var rest := PathText(path[1..]);
      PathBoundary(path[1..]);
      StepExact(t, path[0], rest, cs);
      ResolveToken(t, Encode(path[0]), rest, cs);
      ChildMeans(t, path[0], cs);
      var i := ChildOf(t, path[0], cs);
      if i.Some? {
        ResolveMeans(Child(t, i.value), path[1..], cs);
        var pos := Resolve(Child(t, i.value), rest, cs);
        if pos.Some? { AtPutUnderChild(t, i.value, pos.value, Null); }
      }
    }
  }

  lemma {:induction false} PutAtMeans(t: Json, path: seq<string>, node: Json, cs: bool)
    requires KeysDistinct(t, cs) && KeysDistinct(node, cs) && Resolve(t, PathText(path), cs).Some?
    ensures var after := Put(t, Resolve(t, PathText(path), cs).value, node);
            && KeysDistinct(after, cs) && ValueAt(Meaning(t, cs), path, cs).Some?
            && Meaning(after, cs) == With(Meaning(t, cs), path, cs, Meaning(node, cs))
    decreases |path|
  {
    if path == [] {
    } else {
      hide Step, Under, Over, KeysDistinct, Meaning, ChildOf, PutChild, Encode;
      var rest := PathText(path[1..]);
      PathBoundary(path[1..]);
      StepExact(t, path[0], rest, cs);
      ResolveToken(t, Encode(path[0]), rest, cs);
      ChildMeans(t, path[0], cs);
      var i := ChildOf(t, path[0], cs).value;
      var pos := Resolve(Child(t, i), rest, cs).value;
      PutAtMeans(Child(t, i), path[1..], node, cs);
      AtPutUnderChild(t, i, pos, node);
      PutMeans(t, path[0], Put(Child(t, i), pos, node), cs);
    }
  }

  /** The text of a path splits at its last name. */
  lemma {:induction false} PathSplits(path: seq<string>)
    requires path != []
    ensures PathText(path) == PathText(Parent(path)) + ("/" + Encode(Last(path)))
    decreases |path|
  {
    if |path| == 1 {
      assert PathText([]) == "" && path[1..] == [];
      assert "/" + Encode(path[0]) + "" == "" + ("/" + Encode(path[0]));
    } else {
      PathSplits(path[1..]);
      assert Parent(path)[1..] == Parent(path[1..]) && Last(path[1..]) == Last(path) && Parent(path)[0] == path[0];
    }
  }

  /** The last slash of a text with no slash behind it. */
  lemma SplitsAt(front: string, last: string)
    requires '/' !in last
    ensures var text := front + ("/" + last);
            LastSlash(text) == Some(|front|) && text[..|front|] == front && text[|front| + 1..] == last
  {
    hide LastSlash;
    var text := front + ("/" + last);
    forall m | |front| < m < |text| ensures text[m] != '/' {
      assert text[m] == last[m - |front| - 1] && text[m] in last;
    }
    LastSlashAt(text, |front|);
  }

  lemma PathParts(path: seq<string>)
    requires path != [] && Sendable(path)
    ensures var text, front := PathText(path), PathText(Parent(path));
            && LastSlash(text) == Some(|front|) && |front| < |text| && text[..|front|] == front
            && DecodeInPlace(text[|front| + 1..]) == Last(path)
  {
    hide DecodeInPlace, Decodable, LastSlash, Encode, PathText;
    PathSplits(path);
    EncodeNoSlash(Last(path));
    SplitsAt(PathText(Parent(path)), Encode(Last(path)));
    DecodeInPlaceExact(Last(path));
  }

  // ----- adding and taking away at the parent -----

  lemma AddToMeans(parent: Json, name: string, value: Json, cs: bool)
    requires KeysDistinct(parent, cs) && KeysDistinct(value, cs) && '/' !in name
    ensures var o, v := AddTo(parent, name, value, cs), AddedTo(Meaning(parent, cs), name, Meaning(value, cs), cs);
            && (o.status == 0 <==> v.Some?)
            && (v.Some? ==> Meaning(o.tree, cs) == v.value && KeysDistinct(o.tree, cs))
            && (v.None? ==> 9 <= o.status <= 11)
  {
    hide Index, DecodeArrayIndex, Fields, DeleteKey;
    match parent
    case Array(items) => AddItemMeans(items, name, value, cs);
    case Object(ms) => AddMemberMeans(ms, name, value, cs);
    case _ =>
  }

  lemma AddItemMeans(items: seq<Json>, name: string, value: Json, cs: bool)
    requires KeysDistinct(Array(items), cs) && KeysDistinct(value, cs) && '/' !in name
    ensures var o, v := AddTo(Array(items), name, value, cs),
                        AddedTo(VArray(Meanings(items, cs)), name, Meaning(value, cs), cs);
            && (o.status == 0 <==> v.Some?) && Meaning(Array(items), cs) == VArray(Meanings(items, cs))
            && (v.Some? ==> Meaning(o.tree, cs) == v.value && KeysDistinct(o.tree, cs))
            && (v.None? ==> 9 <= o.status <= 11)
  {
    hide Index, DecodeArrayIndex, Meaning, Meanings;
    assert name + "" == name;
    IndexExact(name, "");
    ItemInserted(items, |items|, value, cs);
    assert items[..|items|] + [value] + items[|items|..] == items + [value];
    if Index(name).Some? && Index(name).value <= |items| { ItemInserted(items, Index(name).value, value, cs); }
  }

  function Meanings(items: seq<Json>, cs: bool): seq<Value> {
    seq(|items|, i requires 0 <= i < |items| => Meaning(items[i], cs))
  }

  lemma ItemInserted(items: seq<Json>, i: nat, value: Json, cs: bool)
    requires i <= |items|
    ensures var v := Meanings(items, cs);
            Meaning(Array(items[..i] + [value] + items[i..]), cs) == VArray(v[..i] + [Meaning(value, cs)] + v[i..])
    ensures Meaning(Array(items), cs) == VArray(Meanings(items, cs)) && |Meanings(items, cs)| == |items|
    ensures var v := Meanings(items, cs); i == |items| ==>
            v[..i] + [Meaning(value, cs)] + v[i..] == v + [Meaning(value, cs)]
  {
  }

  lemma ItemTaken(items: seq<Json>, i: nat, cs: bool)
    requires i < |items|
    ensures Meaning(Array(RemoveAt(items, i)), cs) == VArray(RemoveAt(Meanings(items, cs), i))
    ensures Meaning(Array(items), cs) == VArray(Meanings(items, cs))
  {
  }

  lemma AddMemberMeans(ms: seq<Member>, name: string, value: Json, cs: bool)
    requires KeysDistinct(Object(ms), cs) && KeysDistinct(value, cs)
    ensures var after := DeleteKey(ms, name, cs) + [Keyed(name, value)];
            && KeysDistinct(Object(after), cs)
            && Fields(after, cs) == Fields(ms, cs)[Norm(name, cs) := Meaning(value, cs)]
  {
    hide Fields, Norm, Meaning;
    var i := IndexOf(ms, name, cs);
    FieldsLookup(ms, name, cs);
    if i < |ms| { FieldsWithout(ms, i, cs); }
    FieldsPlus(DeleteKey(ms, name, cs), Keyed(name, value), cs);
  }

  lemma FoldTwice(s: string)
    ensures Fold(Fold(s)) == Fold(s)
  {
  }

  /** Which key a removal takes. */
  lemma KeyTaken(ms: seq<Member>, name: string, cs: bool)
    requires Distinct(ms, cs) && (cs ==> Lone(VObject(Fields(ms, cs)), name))
    ensures var i := IndexOf(ms, name, false);
            if i < |ms| then forall k :: TakesKey(Fields(ms, cs), name, k) <==> k == Norm(ms[i].key, cs)
            else forall k :: !TakesKey(Fields(ms, cs), name, k)
  {
    hide Fields, Fold;
    var i := IndexOf(ms, name, false);
    forall k | TakesKey(Fields(ms, cs), name, k)
      ensures i < |ms| && (!cs ==> k == Norm(ms[i].key, cs))
    {
      var j := FieldsKey(ms, k, cs);
      FoldTwice(ms[j].key);
      FoldTwice(name);
    }
    if i < |ms| {
      FieldAt(ms, i, cs);
      FoldTwice(ms[i].key);
      assert TakesKey(Fields(ms, cs), name, Norm(ms[i].key, cs));
    }
  }

  lemma DetachFromMeans(parent: Json, name: string, cs: bool)
    requires KeysDistinct(parent, cs) && '/' !in name && (cs ==> Lone(Meaning(parent, cs), name))
    ensures var d, v := DetachFrom(parent, name), TakenFrom(Meaning(parent, cs), name);
            && (d.Some? <==> v.Some?)
            && (d.Some? ==> KeysDistinct(d.value.0, cs) && KeysDistinct(d.value.1, cs)
                            && v.value == (Meaning(d.value.0, cs), Meaning(d.value.1, cs)))
  {
    hide Index, DecodeArrayIndex, Fields, TakesKey;
    match parent
    case Array(items) =>
      assert name + "" == name;
      IndexExact(name, "");
      if Index(name).Some? && Index(name).value < |items| { ItemTaken(items, Index(name).value, cs); }
    case Object(ms) => DetachMemberMeans(ms, name, cs);
    case _ =>
  }

  lemma DetachMemberMeans(ms: seq<Member>, name: string, cs: bool)
    requires KeysDistinct(Object(ms), cs) && (cs ==> Lone(VObject(Fields(ms, cs)), name))
    ensures var d, v := DetachFrom(Object(ms), name), TakenFrom(VObject(Fields(ms, cs)), name);
            && (d.Some? <==> v.Some?)
            && (d.Some? ==> KeysDistinct(d.value.0, cs) && KeysDistinct(d.value.1, cs)
                            && v.value == (Meaning(d.value.0, cs), Meaning(d.value.1, cs)))
  {
    hide Fields, TakesKey, Lone;
    KeyTaken(ms, name, cs);
    var i := IndexOf(ms, name, false);
    if i < |ms| {
      FieldsWithout(ms, i, cs);
      FieldAt(ms, i, cs);
      assert TakesKey(Fields(ms, cs), name, Norm(ms[i].key, cs));
    }
  }

  /** The outcome is what the reference says. */
  ghost predicate Meant(o: Outcome, v: Option<Value>, cs: bool) {
    && (o.status == 0 <==> v.Some?)
    && (v.Some? ==> Meaning(o.tree, cs) == v.value && KeysDistinct(o.tree, cs))
  }

  lemma DecodableNoSlash(name: string)
    requires Decodable(name)
    ensures '/' !in name
  {
  }

  lemma AddAtLast(t: Json, path: seq<string>, value: Json, cs: bool)
    requires path != [] && Sendable(path)
    ensures AddAtPath(t, PathText(path), value, cs) == AddAt(t, PathText(Parent(path)), Last(path), value, cs)
    ensures '/' !in Last(path)
  {
    hide AddAt, DecodeInPlace, LastSlash, PathText;
    PathParts(path);
    DecodableNoSlash(Last(path));
  }

  /** The reference, one step opened. */
  lemma AddedIs(v: Value, path: seq<string>, x: Value, cs: bool)
    requires path != []
    ensures var node := ValueAt(v, Parent(path), cs);
            Added(v, path, x, cs) ==
            if node.Some? && AddedTo(node.value, Last(path), x, cs).Some?
            then Some(With(v, Parent(path), cs, AddedTo(node.value, Last(path), x, cs).value)) else None
  {
  }

  lemma AddMeans(t: Json, path: seq<string>, value: Json, cs: bool)
    requires KeysDistinct(t, cs) && KeysDistinct(value, cs) && Sendable(path)
    ensures var o := AddAtPath(t, PathText(path), value, cs);
            && Meant(o, Added(Meaning(t, cs), path, Meaning(value, cs), cs), cs)
            && (o.status != 0 ==> o.tree == t && 9 <= o.status <= 11)
  {
    hide AddTo, AddedTo, Meaning, KeysDistinct, Resolve, At, Put, With, ValueAt, PathText, AddAtPath, Sendable, Parent,
        Last, Added, AddAt;
    if path == [] {
      AddNowhere(t, value, cs);
    } else {
      AddAtLast(t, path, value, cs);
      AddedIs(Meaning(t, cs), path, Meaning(value, cs), cs);
      AddAtMeans(t, path, value, cs);
    }
  }

  lemma AddAtMeans(t: Json, path: seq<string>, value: Json, cs: bool)
    requires KeysDistinct(t, cs) && KeysDistinct(value, cs) && path != [] && '/' !in Last(path)
    ensures var o, node := AddAt(t, PathText(Parent(path)), Last(path), value, cs),
                           ValueAt(Meaning(t, cs), Parent(path), cs);
            if node.Some? && AddedTo(node.value, Last(path), Meaning(value, cs), cs).Some?
            then
              var after := AddedTo(node.value, Last(path), Meaning(value, cs), cs).value;
              o.status == 0 && KeysDistinct(o.tree, cs) && Meaning(o.tree, cs) ==
                  With(Meaning(t, cs), Parent(path), cs, after)
            else o.tree == t && 9 <= o.status <= 11
  {
    hide AddTo, AddedTo, Meaning, KeysDistinct, Resolve, At, Put, With, ValueAt, PathText, Parent, Last;
    ResolveMeans(t, Parent(path), cs);
    var pos := Resolve(t, PathText(Parent(path)), cs);
    if pos.Some? {
      var node := At(t, pos.value);
      AddToMeans(node, Last(path), value, cs);
      var added := AddTo(node, Last(path), value, cs);
      if added.status == 0 { PutAtMeans(t, Parent(path), added.tree, cs); }
    }
  }

  lemma AddNowhere(t: Json, value: Json, cs: bool)
    ensures AddAtPath(t, PathText([]), value, cs) == Outcome(t, 9)
    ensures forall v, x :: Added(v, [], x, cs) == None
  {
  }

  lemma NoPath()
    ensures PathText([]) == "" && LastSlash("") == None
  {
  }

  lemma TakeMeans(t: Json, path: seq<string>, cs: bool)
    requires KeysDistinct(t, cs) && Sendable(path) && (cs ==> LoneAt(Meaning(t, cs), path, cs))
    ensures var d, v := DetachPath(t, PathText(path), cs), Taken(Meaning(t, cs), path, cs);
            && (d.Some? <==> v.Some?)
            && (d.Some? ==> KeysDistinct(d.value.0, cs) && KeysDistinct(d.value.1, cs)
                            && v.value == (Meaning(d.value.0, cs), Meaning(d.value.1, cs)))
  {
    hide DetachFrom, TakenFrom, Meaning, KeysDistinct, Resolve, At, Put, With, ValueAt, PathText, DecodeInPlace,
        LastSlash, Decodable, Lone;
    if path == [] {
      NoPath();
    } else {
      PathParts(path);
      DecodableNoSlash(Last(path));
      ResolveMeans(t, Parent(path), cs);
      var pos := Resolve(t, PathText(Parent(path)), cs);
      if pos.Some? {
        var node := At(t, pos.value);
        DetachFromMeans(node, Last(path), cs);
        var detached := DetachFrom(node, Last(path));
        if detached.Some? { PutAtMeans(t, Parent(path), detached.value.0, cs); }
      }
    }
  }

  // ----- the depth that can be copied -----

  lemma {:induction false} ShallowExact(t: Json, n: nat, cs: bool)
    requires KeysDistinct(t, cs)
    ensures Shallow(Meaning(t, cs), n) <==> Height(t) <= n
    decreases t
  {
    if t.Array? && n > 0 {
      hide Meaning, Height, Shallow, KeysDistinct;
      forall i | 0 <= i < |t.items|
        ensures Shallow(Meaning(t.items[i], cs), n - 1) <==> Height(t.items[i]) <= n - 1
      {
        assert KeysDistinct(t.items[i], cs) by { ItemsKeysDistinct(t, cs); }
        ShallowExact(t.items[i], n - 1, cs);
      }
      ShallowArray(t.items, n, cs);
    } else if t.Object? && n > 0 {
      hide Meaning, Height, Shallow, KeysDistinct, Fields;
      forall i | 0 <= i < |t.members|
        ensures Shallow(Meaning(t.members[i].item, cs), n - 1) <==> Height(t.members[i].item) <= n - 1
      {
        assert KeysDistinct(t.members[i].item, cs) by { ItemsKeysDistinct(t, cs); }
        ShallowExact(t.members[i].item, n - 1, cs);
      }
      assert Distinct(t.members, cs) by { ItemsKeysDistinct(t, cs); }
      ShallowObject(t.members, n, cs);
    } else if t.Object? && t.members != [] {
      assert Norm(t.members[0].key, cs) in Fields(t.members, cs);
    }
  }

  lemma ItemsKeysDistinct(t: Json, cs: bool)
    requires KeysDistinct(t, cs)
    ensures t.Array? ==> forall i :: 0 <= i < |t.items| ==> KeysDistinct(t.items[i], cs)
    ensures t.Object? ==>
              Distinct(t.members, cs) && forall i :: 0 <= i < |t.members| ==> KeysDistinct(t.members[i].item, cs)
  {
  }

  lemma ShallowArray(items: seq<Json>, n: nat, cs: bool)
    requires n > 0
    requires forall i :: 0 <= i < |items| ==> (Shallow(Meaning(items[i], cs), n - 1) <==> Height(items[i]) <= n - 1)
    ensures Shallow(Meaning(Array(items), cs), n) <==> Height(Array(items)) <= n
  {
    var v := Meanings(items, cs);
    assert forall i :: 0 <= i < |items| ==> (Shallow(v[i], n - 1) <==> Height(items[i]) <= n - 1);
    assert Meaning(Array(items), cs) == VArray(v);
    ShallowItems(v, n);
    hide Meaning, Shallow, ItemsHeight, Meanings;
    ItemsBelow(items, n - 1);
    if forall i :: 0 <= i < |items| ==> Height(items[i]) <= n - 1 {
      assert forall i :: 0 <= i < |v| ==> Shallow(v[i], n - 1);
    } else {
      var i :| 0 <= i < |items| && Height(items[i]) > n - 1;
      assert !Shallow(v[i], n - 1);
    }
  }

  lemma ShallowItems(v: seq<Value>, n: nat)
    requires n > 0
    ensures Shallow(VArray(v), n) <==> forall i :: 0 <= i < |v| ==> Shallow(v[i], n - 1)
  {
  }

  lemma ShallowObject(ms: seq<Member>, n: nat, cs: bool)
    requires n > 0 && Distinct(ms, cs)
    requires forall i :: 0 <= i < |ms| ==>
               (Shallow(Meaning(ms[i].item, cs), n - 1) <==> Height(ms[i].item) <= n - 1)
    ensures Shallow(Meaning(Object(ms), cs), n) <==> Height(Object(ms)) <= n
  {
    hide Meaning, Shallow, MembersHeight, Fields, Distinct;
    ObjectMeaning(ms, cs);
    ShallowMembers(Fields(ms, cs), n);
    ShallowFields(ms, n - 1, cs);
    MembersBelow(ms, n - 1);
    if ms == [] { ObjectOfNothing(cs); }
  }

  lemma ObjectOfNothing(cs: bool)
    ensures Fields([], cs) == map[]
  {
  }

  lemma ObjectMeaning(ms: seq<Member>, cs: bool)
    ensures Meaning(Object(ms), cs) == VObject(Fields(ms, cs))
  {
  }

  lemma ShallowMembers(fields: map<string, Value>, n: nat)
    requires n > 0
    ensures Shallow(VObject(fields), n) <==> forall k :: k in fields ==> Shallow(fields[k], n - 1)
  {
  }

  lemma ItemsBelow(items: seq<Json>, n: nat)
    ensures items != [] ==> (ItemsHeight(items) <= n <==> forall i :: 0 <= i < |items| ==> Height(items[i]) <= n)
  {
  }

  lemma MembersBelow(ms: seq<Member>, n: nat)
    ensures ms != [] ==> (MembersHeight(ms) <= n <==> forall i :: 0 <= i < |ms| ==> Height(ms[i].item) <= n)
  {
  }

  lemma ShallowFields(ms: seq<Member>, n: nat, cs: bool)
    requires Distinct(ms, cs)
    requires forall i :: 0 <= i < |ms| ==> (Shallow(Meaning(ms[i].item, cs), n) <==> Height(ms[i].item) <= n)
    ensures (forall k :: k in Fields(ms, cs) ==> Shallow(Fields(ms, cs)[k], n))
        <==> (forall i :: 0 <= i < |ms| ==> Height(ms[i].item) <= n)
  {
    hide Fields, Meaning, Shallow, Norm, Height, Distinct;
    forall i | 0 <= i < |ms|
      ensures Norm(ms[i].key, cs) in Fields(ms, cs)
      ensures Shallow(Fields(ms, cs)[Norm(ms[i].key, cs)], n) <==> Height(ms[i].item) <= n
    {
      FieldAt(ms, i, cs);
    }
    forall k | k in Fields(ms, cs)
      ensures exists i :: 0 <= i < |ms| && Norm(ms[i].key, cs) == k
    {
      var i := FieldsKey(ms, k, cs);
    }
  }

  lemma CopyMeans(t: Json, cs: bool)
    requires KeysDistinct(t, cs)
    ensures Duplicate(t) == if Shallow(Meaning(t, cs), CIRCULAR_LIMIT) then Some(t) else None
  {
    hide Shallow;
    DuplicateExact(t);
    ShallowExact(t, CIRCULAR_LIMIT, cs);
  }

  // ----- the operations -----

  /** move: the member goes from its old place to the new one; when it cannot be put there it is lost. */
  lemma MoveMeans(t: Json, from: seq<string>, path: seq<string>, cs: bool)
    requires KeysDistinct(t, cs) && Sendable(from) && Sendable(path) && (cs ==> LoneAt(Meaning(t, cs), from, cs))
    ensures var o, taken := ApplyMove(t, PathText(path), Some(String(PathText(from))), cs),
                            Taken(Meaning(t, cs), from, cs);
            match taken
            case None => o == Outcome(t, 5)
            case Some((rest, item)) =>
              && Meant(o, Added(rest, path, item, cs), cs)
              && (Added(rest, path, item, cs).None? ==> Meaning(o.tree, cs) == rest && 9 <= o.status <= 11)
  {
    hide DetachPath, AddAtPath, Taken, Added, Meaning, KeysDistinct, PathText, Sendable, LoneAt;
    TakeMeans(t, from, cs);
    var detached := DetachPath(t, PathText(from), cs);
    if detached.Some? { AddMeans(detached.value.0, path, detached.value.1, cs); }
  }

  /** copy: the same value at both places. */
  lemma CopiedMeans(t: Json, from: seq<string>, path: seq<string>, cs: bool)
    requires KeysDistinct(t, cs) && Sendable(path)
    ensures var o, item := ApplyCopy(t, PathText(path), Some(String(PathText(from))), cs),
                           ValueAt(Meaning(t, cs), from, cs);
            match item
            case None => o == Outcome(t, 5)
            case Some(x) =>
              if !Shallow(x, CIRCULAR_LIMIT) then o == Outcome(t, 6)
              else
                && Meant(o, Added(Meaning(t, cs), path, x, cs), cs)
                && (o.status != 0 ==> o.tree == t && 9 <= o.status <= 11)
  {
    hide Resolve, AddAtPath, ValueAt, Added, Meaning, KeysDistinct, PathText, Sendable, Duplicate, Shallow, At;
    ResolveMeans(t, from, cs);
    var pos := Resolve(t, PathText(from), cs);
    if pos.Some? {
      CopyMeans(At(t, pos.value), cs);
      AddMeans(t, path, At(t, pos.value), cs);
    }
  }

  /** test: success exactly when the value at the path is the given one, and nothing changes. */
  lemma TestMeans(t: Json, path: seq<string>, value: Json, cs: bool)
    requires KeysDistinct(t, cs) && KeysDistinct(value, cs)
    ensures var o := ApplyTest(t, PathText(path), Some(value), cs);
            && o.tree == t && o.status <= 1
            && (o.status == 0 <==>
                match ValueAt(Meaning(t, cs), path, cs)
                case None => false
                case Some(v) => Unraw(v) == Unraw(Meaning(value, cs)))
  {
    hide Resolve, ValueAt, Meaning, KeysDistinct, PathText, Unraw, At, CompareJson;
    ResolveMeans(t, path, cs);
    var pos := Resolve(t, PathText(path), cs);
    if pos.Some? { CompareJsonUnraw(At(t, pos.value), value, cs); }
  }

  /** add: before an element, at the end, or instead of a member that exists. */
  lemma AddedMeans(t: Json, path: seq<string>, value: Json, cs: bool)
    requires KeysDistinct(t, cs) && KeysDistinct(value, cs) && Sendable(path) && path != []
    ensures var o := ApplyEdit(t, AddOp, PathText(path), Some(value), cs);
            if !Shallow(Meaning(value, cs), CIRCULAR_LIMIT) then o == Outcome(t, 8)
            else
              && Meant(o, Added(Meaning(t, cs), path, Meaning(value, cs), cs), cs)
              && (o.status != 0 ==> o.tree == t && 9 <= o.status <= 11)
  {
    hide AddAtPath, Added, Meaning, KeysDistinct, Sendable, Duplicate, Shallow;
    CopyMeans(value, cs);
    AddMeans(t, path, value, cs);
  }

  /** remove and replace take the value away first; when the new one cannot be put there the old one is lost. */
  lemma RemovedMeans(t: Json, path: seq<string>, value: Option<Json>, replace: bool, cs: bool)
    requires KeysDistinct(t, cs) && Sendable(path) && path != [] && (cs ==> LoneAt(Meaning(t, cs), path, cs))
    requires value.Some? ==> KeysDistinct(value.value, cs)
    ensures var o := ApplyEdit(t, if replace then ReplaceOp else RemoveOp, PathText(path), value, cs);
            match Taken(Meaning(t, cs), path, cs)
            case None => o == Outcome(t, 13)
            case Some((rest, _)) =>
              if !replace then Meant(o, Some(rest), cs)
              else if value == None || !Shallow(Meaning(value.value, cs), CIRCULAR_LIMIT)
              then Meaning(o.tree, cs) == rest && o.status == if value == None then 7 else 8
              else
                && Meant(o, Added(rest, path, Meaning(value.value, cs), cs), cs)
                && (o.status != 0 ==> Meaning(o.tree, cs) == rest && 9 <= o.status <= 11)
  {
    hide AddAtPath, DetachPath, Added, Taken, Meaning, KeysDistinct, Sendable, Duplicate, Shallow, LoneAt;
    TakeMeans(t, path, cs);
    var detached := DetachPath(t, PathText(path), cs);
    if value.Some? {
      CopyMeans(value.value, cs);
      if detached.Some? { AddMeans(detached.value.0, path, value.value, cs); }
    }
  }

  /** What apply_patch does with the patch of an operation. */
  ghost function Applied(t: Json, op: Operation, cs: bool): Outcome {
    match op
    case Add(path, x) => ApplyEdit(t, AddOp, PathText(path), Some(x), cs)
    case Remove(path) => ApplyEdit(t, RemoveOp, PathText(path), None, cs)
    case Replace(path, x) => ApplyEdit(t, ReplaceOp, PathText(path), Some(x), cs)
    case Move(from, path) => ApplyMove(t, PathText(path), Some(String(PathText(from))), cs)
    case Copy(from, path) => ApplyCopy(t, PathText(path), Some(String(PathText(from))), cs)
    case Test(path, x) => ApplyTest(t, PathText(path), Some(x), cs)
  }

  lemma PatchApplied(t: Json, patch: Json, op: Operation, cs: bool)
    requires Describes(patch, op, cs)
    ensures ApplyPatch(t, patch, cs) == Applied(t, op, cs)
  {
    hide ApplyTest, ApplyMove, ApplyCopy, AddValue, DetachPath, ReplaceRoot, Field, PathText, Sendable, KeysDistinct;
  }

  lemma EmptyPath(path: seq<string>)
    ensures PathText(path) == "" <==> path == []
  {
  }

  lemma AddPerforms(t: Json, op: Operation, cs: bool)
    requires KeysDistinct(t, cs) && op.Add? && KeysDistinct(op.value, cs) && Sendable(op.path)
    ensures Meant(Applied(t, op, cs), Performed(Meaning(t, cs), op, cs), cs)
  {
    hide AddValue, Added, Duplicate, Shallow, PathText, Sendable, Meaning, KeysDistinct;
    EmptyPath(op.path);
    CopyMeans(op.value, cs);
    if op.path != [] { AddedMeans(t, op.path, op.value, cs); }
  }

  lemma TakePerforms(t: Json, op: Operation, cs: bool)
    requires KeysDistinct(t, cs) && (op.Remove? || (op.Replace? && KeysDistinct(op.value, cs))) && Sendable(op.path)
    requires Clear(Meaning(t, cs), op, cs)
    ensures Meant(Applied(t, op, cs), Performed(Meaning(t, cs), op, cs), cs)
  {
    hide AddValue, DetachPath, Added, Taken, Duplicate, Shallow, LoneAt, PathText, Sendable;
    EmptyPath(op.path);
    if op.Replace? {
      CopyMeans(op.value, cs);
      if op.path != [] { RemovedMeans(t, op.path, Some(op.value), true, cs); }
    } else if op.path != [] {
      RemovedMeans(t, op.path, None, false, cs);
    }
  }

  /** Any patch for an operation succeeds exactly when the operation does, and does what it says. */
  lemma PatchPerforms(t: Json, patch: Json, op: Operation, cs: bool)
    requires KeysDistinct(t, cs) && Describes(patch, op, cs) && Clear(Meaning(t, cs), op, cs)
    ensures Meant(ApplyPatch(t, patch, cs), Performed(Meaning(t, cs), op, cs), cs)
  {
    hide ApplyPatch, ApplyEdit, ApplyTest, ApplyMove, ApplyCopy, ValueAt, Added, Taken, Shallow, LoneAt, Field,
        PathText, Sendable, KeysDistinct, Meaning;
    PatchApplied(t, patch, op, cs);
    match op
    case Add(_, _) => AddPerforms(t, op, cs);
    case Remove(_) => TakePerforms(t, op, cs);
    case Replace(_, _) => TakePerforms(t, op, cs);
    case Move(from, path) => MoveMeans(t, from, path, cs);
    case Copy(from, path) => CopiedMeans(t, from, path, cs);
    case Test(path, x) => TestMeans(t, path, x, cs);
  }

  /**
   * A patch document succeeds exactly when its operations, one after the other, do on the value that the tree
   * denotes, and then leaves a tree for the value that they make.
   */
  lemma {:induction false} PatchesPerform(t: Json, patches: seq<Json>, ops: seq<Operation>, cs: bool)
    requires KeysDistinct(t, cs) && |patches| == |ops| && AllClear(Meaning(t, cs), ops, cs)
    requires forall i :: 0 <= i < |ops| ==> Describes(patches[i], ops[i], cs)
    ensures Meant(ApplyAll(t, patches, cs), PerformedAll(Meaning(t, cs), ops, cs), cs)
    decreases |ops|
  {
    hide ApplyPatch, Performed, Describes, Clear, Meaning, KeysDistinct;
    if ops == [] {
    } else {
      PatchPerforms(t, patches[0], ops[0], cs);
      var first := ApplyPatch(t, patches[0], cs);
      if first.status == 0 { PatchesPerform(first.tree, patches[1..], ops[1..], cs); }
    }
  }

  /** Ignoring case, every removal is clear. */
  lemma {:induction false} FoldedAllClear(v: Value, ops: seq<Operation>)
    ensures AllClear(v, ops, false)
    decreases |ops|
  {
    if ops == [] {
    } else if Performed(v, ops[0], false).Some? {
      FoldedAllClear(Performed(v, ops[0], false).value, ops[1..]);
    }
  }
}
