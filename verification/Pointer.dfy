/** JSON Pointer: escaping, token comparison, array indexes, resolution and the finder. */
module Pointer {
  import opened CStrings
  import opened Sorting
  import opened Json
  import opened Options

  /** size_t is 32 bits wide on the device. */
  const SIZE_MODULUS: nat := 0x1_0000_0000

  // ----- escaping -----

  function EncodeChar(c: char): string {
    if c == '/' then "~1" else if c == '~' then "~0" else [c]
  }

  /** encode_string_as_pointer */
  function Encode(key: string): string {
    if key == [] then [] else EncodeChar(key[0]) + Encode(key[1..])
  }

  lemma {:induction false} EncodeNoSlash(key: string)
    ensures '/' !in Encode(key)
  {
    if key == [] {
    } else {
      EncodeNoSlash(key[1..]);
    }
  }

  lemma {:induction false} EncodeAppend(a: string, b: string)
    ensures Encode(a + b) == Encode(a) + Encode(b)
  {
    if a == [] {
      assert a + b == b;
    } else {
      EncodeAppend(a[1..], b);
      assert (a + b)[1..] == a[1..] + b;
      assert Encode(a) + Encode(b) == EncodeChar(a[0]) + (Encode(a[1..]) + Encode(b));
    }
  }

  lemma EncodeNext(s: string, i: nat)
    requires i < |s|
    ensures Encode(s[..i + 1]) == Encode(s[..i]) + EncodeChar(s[i])
    ensures |Encode(s[..i + 1])| <= |Encode(s)|
  {
    EncodeAppend(s[..i], [s[i]]);
    EncodeAppend(s[..i + 1], s[i + 1..]);
    assert s[..i + 1] == s[..i] + [s[i]] && s == s[..i + 1] + s[i + 1..];
    assert Encode([s[i]]) == EncodeChar(s[i]) + Encode([]) == EncodeChar(s[i]);
  }

  lemma {:induction false} EncodePlain(key: string)
    requires '/' !in key && '~' !in key
    ensures Encode(key) == key
  {
    if key == [] {
    } else {
      EncodePlain(key[1..]);
    }
  }

  /** A C string stored in an array from an offset on. */
  ghost predicate HoldsString(a: array<char>, start: nat, s: string)
    reads a
  {
    start + |s| < a.Length && a[start..start + |s|] == s && a[start + |s|] == '\0'
  }

  /** pointer_encoded_length */
  method PointerEncodedLength(s: string) returns (length: nat)
    ensures length == |Encode(s)|
  {
    length := 0;
    for i := 0 to |s|
      invariant length == |Encode(s[..i])|
    {
      EncodeNext(s, i);
      if s[i] == '~' || s[i] == '/' {
        length := length + 1;
      }
      length := length + 1;
    }
    assert s[..|s|] == s;
  }

  method WriteEncodedChar(destination: array<char>, d: nat, c: char) returns (next: nat)
    requires d + |EncodeChar(c)| < destination.Length
    modifies destination
    ensures next == d + |EncodeChar(c)|
    ensures destination[..next] == old(destination[..d]) + EncodeChar(c)
  {
    if c == '/' {
      destination[d] := '~';
      destination[d + 1] := '1';
      return d + 2;
    } else if c == '~' {
      destination[d] := '~';
      destination[d + 1] := '0';
      return d + 2;
    } else {
      destination[d] := c;
      return d + 1;
    }
  }

  /** encode_string_as_pointer writes into a buffer sized by pointer_encoded_length. */
  method EncodeStringAsPointer(destination: array<char>, offset: nat, source: string)
    requires offset + |Encode(source)| < destination.Length
    modifies destination
    ensures HoldsString(destination, offset, Encode(source))
    ensures destination[..offset] == old(destination[..offset])
  {
    ghost var before := destination[..offset];
    var d := offset;
    for i := 0 to |source|
      invariant d == offset + |Encode(source[..i])| < destination.Length
      invariant destination[..d] == before + Encode(source[..i])
    {
      EncodeNext(source, i);
      d := WriteEncodedChar(destination, d, source[i]);
    }
    assert source[..|source|] == source;
    destination[d] := '\0';
    assert destination[..d] == before + Encode(source);
    assert destination[offset..d] == destination[..d][offset..];
    assert destination[..offset] == destination[..d][..offset];
  }

  // ----- in-place decoding -----

  /** decode_pointer_inplace on the string in `buf`: reading at s, writing at d. */
  function DecodeFrom(buf: string, s: nat, d: nat): string
    requires d <= s
    decreases |buf| - s
  {
    if s >= |buf| then (if d <= |buf| then buf[..d] else buf)
    else if buf[s] == '~' then
      if s + 1 < |buf| && buf[s + 1] == '0' then DecodeFrom(buf[d := '~'], s + 2, d + 1)
      else if s + 1 < |buf| && buf[s + 1] == '1' then DecodeFrom(buf[d + 1 := '/'], s + 2, d + 1)
      else buf
    else DecodeFrom(buf, s + 1, d + 1)
  }

  function DecodeInPlace(s: string): string {
    DecodeFrom(s, 0, 0)
  }

  /** The loop of decode_pointer_inplace; the array ends with the terminator. */
  method DecodePointerInplace(a: array<char>) returns (length: nat)
    requires a.Length > 0 && a[a.Length - 1] == '\0'
    modifies a
    ensures HoldsString(a, 0, DecodeInPlace(old(a[..a.Length - 1])))
    ensures length == |DecodeInPlace(old(a[..a.Length - 1]))|
  {
    var n := a.Length - 1;
    var s, d := 0, 0;
    while s < n
      invariant d <= s <= n && a[n] == '\0'
      invariant DecodeFrom(a[..n], s, d) == DecodeInPlace(old(a[..a.Length - 1]))
    {
      if a[s] == '~' {
        ghost var buf := a[..n];
        if a[s + 1] == '0' {
          a[d] := '~';
          assert a[..n] == buf[d := '~'];
        } else if a[s + 1] == '1' {
          a[d + 1] := '/';
          assert a[..n] == buf[d + 1 := '/'];
        } else {
          length := n;
          return;
        }
        s := s + 1;
      }
      d, s := d + 1, s + 1;
    }
    a[d] := '\0';
    length := d;
  }

  lemma {:induction false} DecodeKeeps(buf: string, s: nat, d: nat, i: nat)
    requires d <= s <= |buf| && i < d
    ensures i < |DecodeFrom(buf, s, d)| && DecodeFrom(buf, s, d)[i] == buf[i]
    decreases |buf| - s
  {
    if s < |buf| {
      if buf[s] == '~' {
        if s + 1 < |buf| && buf[s + 1] == '0' {
          DecodeKeeps(buf[d := '~'], s + 2, d + 1, i);
        } else if s + 1 < |buf| && buf[s + 1] == '1' {
          DecodeKeeps(buf[d + 1 := '/'], s + 2, d + 1, i);
        }
      } else {
        DecodeKeeps(buf, s + 1, d + 1, i);
      }
    }
  }

  /** The escaped text at a place of the buffer begins with one escaped character. */
  lemma EncodedHead(buf: string, s: nat, rest: string)
    requires s <= |buf| && buf[s..] == Encode(rest) && rest != []
    ensures s < |buf|
    ensures if rest[0] == '~' || rest[0] == '/'
            then buf[s] == '~' && s + 1 < |buf| && buf[s + 1] == (if rest[0] == '~' then '0' else '1')
                 && buf[s + 2..] == Encode(rest[1..])
            else buf[s] == rest[0] && buf[s + 1..] == Encode(rest[1..])
  {
    var left := buf[s..];
    assert left == EncodeChar(rest[0]) + Encode(rest[1..]);
    assert buf[s] == left[0] && (|left| > 1 ==> buf[s + 1] == left[1]);
    assert buf[s + 1..] == left[1..] && (|left| > 1 ==> buf[s + 2..] == left[2..]);
  }

  lemma PutBefore(buf: string, d: nat, c: char, s: nat)
    requires d < s <= |buf|
    ensures buf[d := c][s..] == buf[s..]
  {
  }

  lemma {:induction false} DecodeLength(buf: string, s: nat, d: nat, rest: string)
    requires d <= s <= |buf| && buf[s..] == Encode(rest)
    ensures |DecodeFrom(buf, s, d)| == d + |rest|
    decreases rest
  {
    hide Encode;
    if rest != [] {
      EncodedHead(buf, s, rest);
      if rest[0] == '~' {
        PutBefore(buf, d, '~', s + 2);
        DecodeLength(buf[d := '~'], s + 2, d + 1, rest[1..]);
      } else if rest[0] == '/' {
        PutBefore(buf, d + 1, '/', s + 2);
        DecodeLength(buf[d + 1 := '/'], s + 2, d + 1, rest[1..]);
      } else {
        DecodeLength(buf, s + 1, d + 1, rest[1..]);
      }
    } else {
      EncodeNothing();
    }
  }

  lemma EncodeNothing()
    ensures Encode([]) == []
  {
  }

  /** What ends up at one place: ordinary bytes are never copied. */
  lemma {:induction false} DecodeAt(buf: string, s: nat, d: nat, rest: string, i: nat)
    requires d <= s <= |buf| && buf[s..] == Encode(rest)
    requires i < |rest| && '/' !in rest[..i]
    ensures d + i < |DecodeFrom(buf, s, d)| && d + i < |buf|
    ensures DecodeFrom(buf, s, d)[d + i] == if rest[i] == '~' then '~' else buf[d + i]
    decreases rest
  {
    hide Encode;
    DecodeLength(buf, s, d, rest);
    EncodedHead(buf, s, rest);
    if i > 0 {
      assert rest[0] == rest[..i][0];
      assert rest[1..][..i - 1] == rest[..i][1..];
      if rest[0] == '~' {
        PutBefore(buf, d, '~', s + 2);
        DecodeAt(buf[d := '~'], s + 2, d + 1, rest[1..], i - 1);
      } else {
        DecodeAt(buf, s + 1, d + 1, rest[1..], i - 1);
      }
    } else if rest[0] == '~' {
      DecodeKeeps(buf[d := '~'], s + 2, d + 1, d);
    } else if rest[0] == '/' {
      DecodeKeeps(buf[d + 1 := '/'], s + 2, d + 1, d);
    } else {
      DecodeKeeps(buf, s + 1, d + 1, d);
    }
  }

  /** The keys that survive escaping followed by in-place decoding. */
  predicate Decodable(key: string) {
    && '/' !in key
    && forall i :: 0 <= i < |key| && key[i] != '~' ==> i < |Encode(key)| && Encode(key)[i] == key[i]
  }

  /** decode_pointer_inplace undoes encode_string_as_pointer on exactly these keys. */
  lemma DecodeInPlaceExact(key: string)
    ensures DecodeInPlace(Encode(key)) == key <==> Decodable(key)
  {
    var buf := Encode(key);
    assert buf[0..] == buf;
    DecodeLength(buf, 0, 0, key);
    var r := DecodeInPlace(buf);
    if '/' in key {
      var m := FirstSlash(key);
      DecodeAt(buf, 0, 0, key, m);
      EncodeNoSlash(key);
      assert r[m] != key[m];
    } else {
      forall i | 0 <= i < |key|
        ensures i < |buf| && r[i] == if key[i] == '~' then '~' else buf[i]
      {
        DecodeAt(buf, 0, 0, key, i);
      }
    }
  }

  lemma {:induction false} FirstSlash(s: string) returns (m: nat)
    requires '/' in s
    ensures m < |s| && s[m] == '/' && '/' !in s[..m]
  {
    if s[0] == '/' {
      m := 0;
    } else {
      m := FirstSlash(s[1..]);
      assert s[..m + 1] == [s[0]] + s[1..][..m];
      m := m + 1;
    }
  }

  /** Keys without `/` and `~` always survive; some with `~` do not. */
  lemma PlainKeysDecode(key: string)
    requires '/' !in key && '~' !in key
    ensures Decodable(key)
  {
    EncodePlain(key);
  }

  lemma TildeKeys()
    ensures Decodable("a~") && Decodable("~~") && !Decodable("~a")
  {
    assert Encode("a~") == ['a'] + Encode("~") && Encode("~") == "~0" + Encode("");
    assert Encode("~~") == "~0" + Encode("~");
    assert Encode("~a") == "~0" + Encode("a") && Encode("a") == ['a'] + Encode("");
    assert Encode("~a")[1] == '0' && "~a"[1] == 'a';
  }

  // ----- token comparison -----

  /** compare_pointers: does the first token of `p` name the key? */
  predicate ComparePointers(name: string, p: string, cs: bool)
    decreases |name|
  {
    if name == [] || p == [] || p[0] == '/' then
      (p != [] && p[0] != '/') == (name != [])
    else if p[0] == '~' then
      && |p| > 1
      && ((p[1] == '0' && name[0] == '~') || (p[1] == '1' && name[0] == '/'))
      && ComparePointers(name[1..], p[2..], cs)
    else
      && (if cs then name[0] == p[0] else ToLower(name[0]) == ToLower(p[0]))
      && ComparePointers(name[1..], p[1..], cs)
  }

  method ComparePointersLoop(name: string, p: string, cs: bool) returns (same: bool)
    ensures same == ComparePointers(name, p, cs)
  {
    var i, j := 0, 0;
    while i < |name| && j < |p| && p[j] != '/'
      invariant i <= |name| && j <= |p|
      invariant ComparePointers(name, p, cs) == ComparePointers(name[i..], p[j..], cs)
    {
      if p[j] == '~' {
        var escape := if j + 1 < |p| then p[j + 1] else '\0';
        if (escape != '0' || name[i] != '~') && (escape != '1' || name[i] != '/') {
          return false;
        }
        j := j + 1;
      } else if (!cs && ToLower(name[i]) != ToLower(p[j])) || (cs && name[i] != p[j]) {
        return false;
      }
      i, j := i + 1, j + 1;
    }
    if (j < |p| && p[j] != '/') != (i < |name|) {
      return false;
    }
    return true;
  }

  predicate TokenBoundary(rest: string) {
    rest == [] || rest[0] == '/'
  }

  lemma NormHeadTail(a: string, b: string, cs: bool)
    requires a != [] && b != []
    ensures Norm(a, cs) == Norm(b, cs) <==>
            && (if cs then a[0] == b[0] else ToLower(a[0]) == ToLower(b[0]))
            && Norm(a[1..], cs) == Norm(b[1..], cs)
  {
  }

  predicate SameChar(a: char, b: char, cs: bool) {
    if cs then a == b else ToLower(a) == ToLower(b)
  }

  /** One escaped character is compared as the character it stands for. */
  lemma CompareEncodedChar(name: string, c: char, tail: string, cs: bool)
    requires name != []
    ensures ComparePointers(name, EncodeChar(c) + tail, cs) <==>
            SameChar(name[0], c, cs) && ComparePointers(name[1..], tail, cs)
  {
  }

  lemma EncodedStart(c: char)
    ensures EncodeChar(c) != "" && EncodeChar(c)[0] != '/'
  {
  }

  lemma EncodeSplit(key: string, rest: string)
    requires key != []
    ensures Encode(key) + rest == EncodeChar(key[0]) + (Encode(key[1..]) + rest)
  {
  }

  lemma CompareWithNothing(name: string, key: string, rest: string, cs: bool)
    requires TokenBoundary(rest) && (name == [] || key == [])
    ensures ComparePointers(name, Encode(key) + rest, cs) <==> Norm(name, cs) == Norm(key, cs)
  {
    hide EncodeChar;
    assert |Norm(name, cs)| == |name| && |Norm(key, cs)| == |key|;
    if key == [] {
      assert Encode(key) + rest == rest;
    } else {
      hide Encode;
      EncodeSplit(key, rest);
      EncodedStart(key[0]);
    }
  }

  /** compare_pointers on an escaped key is key equality, escapes included. */
  lemma {:induction false} ComparePointersExact(name: string, key: string, rest: string, cs: bool)
    requires TokenBoundary(rest)
    ensures ComparePointers(name, Encode(key) + rest, cs) <==> Norm(name, cs) == Norm(key, cs)
  {
    hide Encode, EncodeChar, Norm, ComparePointers;
    if name == [] || key == [] {
      CompareWithNothing(name, key, rest, cs);
    } else {
      var tail := Encode(key[1..]) + rest;
      EncodeSplit(key, rest);
      CompareEncodedChar(name, key[0], tail, cs);
      ComparePointersExact(name[1..], key[1..], rest, cs);
      NormHeadTail(name, key, cs);
    }
  }

  // ----- array indexes -----

  predicate IsDigit(c: char) {
    '0' <= c <= '9'
  }

  function DigitChar(d: nat): char
    requires d < 10
  {
    ('0' as int + d) as char
  }

  /** Decimal, as %lu and %d print a non-negative number. */
  function Digits(n: nat): (s: string)
    ensures |s| > 0 && forall i :: 0 <= i < |s| ==> IsDigit(s[i])
  {
    if n < 10 then [DigitChar(n)] else Digits(n / 10) + [DigitChar(n % 10)]
  }

  /** The digit loop: the wrapped value and what follows the digits. */
  function ParseDigits(p: string, parsed: nat): (nat, string)
    decreases |p|
  {
    if p != [] && IsDigit(p[0]) then
      ParseDigits(p[1..], (10 * parsed + (p[0] as int - '0' as int)) % SIZE_MODULUS)
    else (parsed, p)
  }

  /** decode_array_index_from_pointer */
  function DecodeArrayIndex(p: string): Option<nat> {
    if |p| > 1 && p[0] == '0' && p[1] != '/' then None
    else
      var (index, rest) := ParseDigits(p, 0);
      if TokenBoundary(rest) then Some(index) else None
  }

  method DecodeArrayIndexLoop(p: string) returns (index: Option<nat>)
    ensures index == DecodeArrayIndex(p)
  {
    if |p| > 1 && p[0] == '0' && p[1] != '/' {
      return None;
    }
    var parsed: nat, position := 0, 0;
    while position < |p| && IsDigit(p[position])
      invariant position <= |p|
      invariant ParseDigits(p, 0) == ParseDigits(p[position..], parsed)
    {
      parsed := (10 * parsed + (p[position] as int - '0' as int)) % SIZE_MODULUS;
      position := position + 1;
    }
    if position < |p| && p[position] != '/' {
      return None;
    }
    return Some(parsed);
  }

  lemma {:induction false} ParseDigitsAppend(a: string, b: string, parsed: nat)
    requires forall i :: 0 <= i < |a| ==> IsDigit(a[i])
    ensures ParseDigits(a + b, parsed) == ParseDigits(b, ParseDigits(a, parsed).0)
  {
    if a == [] {
      assert a + b == b;
    } else {
      assert (a + b)[1..] == a[1..] + b;
      ParseDigitsAppend(a[1..], b, (10 * parsed + (a[0] as int - '0' as int)) % SIZE_MODULUS);
    }
  }

  lemma ModularStep(n: nat)
    ensures (10 * ((n / 10) % SIZE_MODULUS) + n % 10) % SIZE_MODULUS == n % SIZE_MODULUS
  {
  }

  lemma {:induction false} ParseDigitsOfDigits(n: nat)
    ensures ParseDigits(Digits(n), 0).0 == n % SIZE_MODULUS
  {
    if n >= 10 {
      ParseDigitsOfDigits(n / 10);
      ParseDigitsAppend(Digits(n / 10), [DigitChar(n % 10)], 0);
      ModularStep(n);
    }
  }

  lemma {:induction false} DigitsNoLeadingZero(n: nat)
    ensures Digits(n)[0] == '0' ==> n == 0
  {
    if n >= 10 {
      DigitsNoLeadingZero(n / 10);
    }
  }

  /** Reading back a printed index gives it modulo the width of size_t. */
  lemma IndexRoundTrip(n: nat, rest: string)
    requires TokenBoundary(rest)
    ensures DecodeArrayIndex(Digits(n) + rest) == Some(n % SIZE_MODULUS)
  {
    ParseDigitsOfDigits(n);
    ParseDigitsAppend(Digits(n), rest, 0);
    DigitsNoLeadingZero(n);
    if n == 0 {
      assert Digits(n) == "0";
    }
  }

  // ----- resolution -----

  predicate ValidPosition(t: Json, pos: seq<nat>)
    decreases |pos|
  {
    pos == [] ||
    match t
    case Array(items) => pos[0] < |items| && ValidPosition(items[pos[0]], pos[1..])
    case Object(ms) => pos[0] < |ms| && ValidPosition(ms[pos[0]].item, pos[1..])
    case _ => false
  }

  function ChildCount(t: Json): nat {
    match t
    case Array(items) => |items|
    case Object(ms) => |ms|
    case _ => 0
  }

  function Child(t: Json, i: nat): Json
    requires i < ChildCount(t)
  {
    match t
    case Array(items) => items[i]
    case Object(ms) => ms[i].item
  }

  function PutChild(t: Json, i: nat, child: Json): Json
    requires i < ChildCount(t)
  {
    match t
    case Array(items) => Array(items[i := child])
    case Object(ms) => Object(ms[i := Keyed(ms[i].key, child)])
  }

  /** The node at a position, reached through child lists. */
  function At(t: Json, pos: seq<nat>): Json
    requires ValidPosition(t, pos)
    decreases |pos|
  {
    if pos == [] then t else At(Child(t, pos[0]), pos[1..])
  }

  /** Overwriting the node at a position. */
  function Put(t: Json, pos: seq<nat>, node: Json): Json
    requires ValidPosition(t, pos)
    decreases |pos|
  {
    if pos == [] then node else PutChild(t, pos[0], Put(Child(t, pos[0]), pos[1..], node))
  }

  function FirstNamed(ms: seq<Member>, p: string, cs: bool): (r: nat)
    ensures r <= |ms|
  {
    if ms == [] || ComparePointers(ms[0].key, p, cs) then 0 else 1 + FirstNamed(ms[1..], p, cs)
  }

  /** One token: the child it selects. */
  function Step(t: Json, p: string, cs: bool): (r: Option<nat>)
    ensures r.Some? ==> r.value < ChildCount(t)
  {
    match t
    case Array(items) =>
      (match DecodeArrayIndex(p)
       case None => None
       case Some(index) => if index < |items| then Some(index) else None)
    case Object(ms) =>
      var i := FirstNamed(ms, p, cs);
      if i < |ms| then Some(i) else None
    case _ => None
  }

  function SkipToken(p: string): (r: string)
    ensures |r| <= |p|
  {
    if TokenBoundary(p) then p else SkipToken(p[1..])
  }

  /** get_item_from_pointer, as the position of the node found. */
  function Resolve(t: Json, p: string, cs: bool): (r: Option<seq<nat>>)
    ensures r.Some? ==> ValidPosition(t, r.value)
    decreases |p|
  {
    if p == [] || p[0] != '/' then Some([])
    else
      match Step(t, p[1..], cs)
      case None => None
      case Some(i) =>
        match Resolve(Child(t, i), SkipToken(p[1..]), cs)
        case None => None
        case Some(pos) =>
          assert ([i] + pos)[1..] == pos;
          Some([i] + pos)
  }

  /** One round of get_item_from_pointer: the child that the token names. */
  method StepLoop(t: Json, token: string, cs: bool) returns (r: Option<nat>)
    ensures r == Step(t, token, cs)
  {
    match t {
      case Array(items) =>
        var index := DecodeArrayIndexLoop(token);
        if index == None || index.value >= |items| {
          return None;
        }
        return index;
      case Object(ms) =>
        var i := 0;
        while i < |ms|
          invariant i <= |ms| && FirstNamed(ms, token, cs) == i + FirstNamed(ms[i..], token, cs)
        {
          var same := ComparePointersLoop(ms[i].key, token, cs);
          if same { return Some(i); }
          i := i + 1;
        }
        return None;
      case _ =>
        return None;
    }
  }

  method SkipTokenLoop(p: string, start: nat) returns (j: nat)
    requires start <= |p|
    ensures start <= j <= |p| && SkipToken(p[start..]) == p[j..]
  {
    j := start;
    while j < |p| && p[j] != '/'
      invariant start <= j <= |p| && SkipToken(p[start..]) == SkipToken(p[j..])
    {
      assert p[j..][1..] == p[j + 1..];
      j := j + 1;
    }
  }

  /** The element that a resolved pointer denotes. */
  function Target(t: Json, p: string, cs: bool): Option<Json> {
    match Resolve(t, p, cs)
    case None => None
    case Some(pos) => Some(At(t, pos))
  }

  lemma TargetStep(t: Json, p: string, cs: bool)
    requires p != [] && p[0] == '/'
    ensures Target(t, p, cs) ==
            match Step(t, p[1..], cs)
            case None => None
            case Some(i) => Target(Child(t, i), SkipToken(p[1..]), cs)
  {
  }

  /** The loop of get_item_from_pointer. */
  method GetItemFromPointer(t: Json, pointer: string, cs: bool) returns (element: Option<Json>)
    ensures element == Target(t, pointer, cs)
  {
    var j := 0;
    var current := t;
    while j < |pointer| && pointer[j] == '/'
      invariant j <= |pointer|
      invariant Target(t, pointer, cs) == Target(current, pointer[j..], cs)
      decreases |pointer| - j
    {
      TargetStep(current, pointer[j..], cs);
      assert pointer[j..][1..] == pointer[j + 1..];
      j := j + 1;
      var i := StepLoop(current, pointer[j..], cs);
      if i == None {
        return None;
      }
      current := Child(current, i.value);
      j := SkipTokenLoop(pointer, j);
    }
    return Some(current);
  }

  // ----- the finder -----

  /** The token that names child i. */
  function TokenOf(t: Json, i: nat): string
    requires i < ChildCount(t)
  {
    if t.Array? then Digits(i) else Encode(t.members[i].key)
  }

  /** cJSONUtils_FindPointerFromObjectTo: search the subtree at `here` for the node at `target`. */
  function FindPointer(t: Json, here: seq<nat>, target: seq<nat>): Option<string>
    decreases t, 1, 0
  {
    if here == target then Some("") else FindInChildren(t, 0, here, target)
  }

  function FindInChildren(t: Json, i: nat, here: seq<nat>, target: seq<nat>): Option<string>
    requires i <= ChildCount(t)
    decreases t, 0, ChildCount(t) - i
  {
    if i == ChildCount(t) then None
    else
      match FindPointer(Child(t, i), here + [i], target)
      case Some(p) => Some("/" + TokenOf(t, i) + p)
      case None => FindInChildren(t, i + 1, here, target)
  }

  /** The pointer of a position, read off the tree. */
  function PointerTo(t: Json, pos: seq<nat>): string
    requires ValidPosition(t, pos)
    decreases |pos|
  {
    if pos == [] then "" else "/" + TokenOf(t, pos[0]) + PointerTo(Child(t, pos[0]), pos[1..])
  }

  ghost predicate Leads(t: Json, here: seq<nat>, target: seq<nat>) {
    here <= target && ValidPosition(t, target[|here|..])
  }

  lemma {:induction false} FindPointerExact(t: Json, here: seq<nat>, target: seq<nat>)
    ensures FindPointer(t, here, target) ==
            if Leads(t, here, target) then Some(PointerTo(t, target[|here|..])) else None
    decreases t, 1, 0
  {
    if here != target {
      FindInChildrenExact(t, 0, here, target);
    }
  }

  lemma {:induction false} FindInChildrenExact(t: Json, i: nat, here: seq<nat>, target: seq<nat>)
    requires i <= ChildCount(t) && here != target
    ensures FindInChildren(t, i, here, target) ==
            if Leads(t, here, target) && target[|here|] >= i then Some(PointerTo(t, target[|here|..])) else None
    decreases t, 0, ChildCount(t) - i
  {
    if i < ChildCount(t) {
      FindPointerExact(Child(t, i), here + [i], target);
      FindInChildrenExact(t, i + 1, here, target);
      if here < target && target[|here|] == i {
        assert here + [i] <= target;
        assert target[|here|..][1..] == target[|here + [i]|..];
      }
    }
  }

  /** No earlier sibling shares a key on the way, and indexes fit size_t. */
  predicate Reachable(t: Json, pos: seq<nat>, cs: bool)
    requires ValidPosition(t, pos)
    decreases |pos|
  {
    pos != [] ==>
    && (t.Array? ==> pos[0] < SIZE_MODULUS)
    && (t.Object? ==> IndexOf(t.members, t.members[pos[0]].key, cs) == pos[0])
    && Reachable(Child(t, pos[0]), pos[1..], cs)
  }

  lemma {:induction false} FirstNamedExact(ms: seq<Member>, key: string, rest: string, cs: bool)
    requires TokenBoundary(rest)
    ensures FirstNamed(ms, Encode(key) + rest, cs) == IndexOf(ms, key, cs)
  {
    if ms == [] {
    } else {
      ComparePointersExact(ms[0].key, key, rest, cs);
      FirstNamedExact(ms[1..], key, rest, cs);
    }
  }

  lemma {:induction false} SkipTokenExact(token: string, rest: string)
    requires '/' !in token && TokenBoundary(rest)
    ensures SkipToken(token + rest) == rest
  {
    if token == [] {
      assert token + rest == rest;
    } else {
      assert token[0] in token;
      assert (token + rest)[1..] == token[1..] + rest;
      SkipTokenExact(token[1..], rest);
    }
  }

  lemma TokenOfNoSlash(t: Json, i: nat)
    requires i < ChildCount(t)
    ensures '/' !in TokenOf(t, i)
  {
    if !t.Array? {
      EncodeNoSlash(t.members[i].key);
    }
  }

  /** The first step along a pointer, exactly. */
  lemma StepToken(t: Json, i: nat, rest: string, cs: bool)
    requires i < ChildCount(t) && TokenBoundary(rest)
    ensures Step(t, TokenOf(t, i) + rest, cs) == Some(i) <==>
            if t.Array? then i < SIZE_MODULUS else IndexOf(t.members, t.members[i].key, cs) == i
    ensures SkipToken(TokenOf(t, i) + rest) == rest
  {
    TokenOfNoSlash(t, i);
    SkipTokenExact(TokenOf(t, i), rest);
    if t.Array? {
      IndexRoundTrip(i, rest);
    } else {
      FirstNamedExact(t.members, t.members[i].key, rest, cs);
    }
  }

  lemma ResolveToken(t: Json, token: string, rest: string, cs: bool)
    requires SkipToken(token + rest) == rest
    ensures Resolve(t, "/" + token + rest, cs) ==
            match Step(t, token + rest, cs)
            case None => None
            case Some(i) =>
              match Resolve(Child(t, i), rest, cs) { case None => None case Some(pos) => Some([i] + pos) }
  {
    var p := "/" + token + rest;
    assert p[0] == '/' && p[1..] == token + rest;
  }

  lemma HeadAndTail(pos: seq<nat>, i: nat, tail: seq<nat>)
    requires pos != []
    ensures [i] + tail == pos <==> i == pos[0] && tail == pos[1..]
  {
    assert ([i] + tail)[0] == i && ([i] + tail)[1..] == tail;
    assert pos == [pos[0]] + pos[1..];
  }

  lemma {:induction false} ResolvePointerTo(t: Json, pos: seq<nat>, cs: bool)
    requires ValidPosition(t, pos)
    ensures TokenBoundary(PointerTo(t, pos))
    ensures Resolve(t, PointerTo(t, pos), cs) == Some(pos) <==> Reachable(t, pos, cs)
    decreases |pos|
  {
    if pos == [] {
    } else {
      hide Step, TokenOf, SkipToken, IndexOf;
      var i, tail := pos[0], pos[1..];
      var rest := PointerTo(Child(t, i), tail);
      ResolvePointerTo(Child(t, i), tail, cs);
      StepToken(t, i, rest, cs);
      ResolveToken(t, TokenOf(t, i), rest, cs);
      match Step(t, TokenOf(t, i) + rest, cs)
      case None =>
      case Some(j) =>
        match Resolve(Child(t, j), rest, cs)
        case None =>
        case Some(other) => HeadAndTail(pos, j, other);
    }
  }

  /** The finder yields a pointer for exactly the nodes of the tree. */
  lemma FoundExactlyInTree(t: Json, target: seq<nat>)
    ensures FindPointer(t, [], target).Some? <==> ValidPosition(t, target)
  {
    FindPointerExact(t, [], target);
    assert target[0..] == target;
  }

  /** Resolving the pointer found leads back to the node, escapes included, unless its path is shadowed. */
  lemma FindResolveRoundTrip(t: Json, target: seq<nat>, cs: bool)
    requires ValidPosition(t, target)
    ensures FindPointer(t, [], target).Some?
    ensures Resolve(t, FindPointer(t, [], target).value, cs) == Some(target) <==> Reachable(t, target, cs)
  {
    FindPointerExact(t, [], target);
    assert target[0..] == target;
    ResolvePointerTo(t, target, cs);
  }

  /** Arrays short enough for size_t indexes. */
  predicate ArraysFit(t: Json) {
    match t
    case Array(items) => |items| <= SIZE_MODULUS && forall i :: 0 <= i < |items| ==> ArraysFit(items[i])
    case Object(ms) => forall i :: 0 <= i < |ms| ==> ArraysFit(ms[i].item)
    case _ => true
  }

  /** With distinct keys every node is reachable. */
  lemma {:induction false} DistinctReachable(t: Json, pos: seq<nat>, cs: bool)
    requires ValidPosition(t, pos) && KeysDistinct(t, cs) && ArraysFit(t)
    ensures Reachable(t, pos, cs)
    decreases |pos|
  {
    if pos == [] {
    } else {
      if t.Object? {
        FieldAt(t.members, pos[0], cs);
      }
      DistinctReachable(Child(t, pos[0]), pos[1..], cs);
    }
  }
}
