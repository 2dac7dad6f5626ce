/** The printer, writing into a buffer that grows or is fixed. */
module TextPrinter {
  import opened CStrings
  import opened Json
  import opened Text
  import opened TextRoundTrip

  const INT_MAX: nat := 0x7FFF_FFFF
  const ZERO: char := 0 as char

  // ----- lengths and pieces of the text -----

  lemma {:induction false} EscapedAppend(s: string, c: char)
    ensures Escaped(s + [c]) == Escaped(s) + Escape(c)
    decreases |s|
  {
    hide Escape;
    if s == "" {
      assert (s + [c])[1..] == "";
      assert Escape(c) + "" == Escape(c) && "" + Escape(c) == Escape(c);
    } else {
      EscapedAppend(s[1..], c);
      assert (s + [c])[1..] == s[1..] + [c];
      assert Escape(s[0]) + (Escaped(s[1..]) + Escape(c)) == Escape(s[0]) + Escaped(s[1..]) + Escape(c);
    }
  }

  lemma {:induction false} NoEscapes(s: string)
    ensures |Escaped(s)| >= |s|
    ensures |Escaped(s)| == |s| ==> Escaped(s) == s
    decreases |s|
  {
    if s == "" {
    } else {
      NoEscapes(s[1..]);
      assert |Escape(s[0])| == 1 ==> Escape(s[0]) == [s[0]];
      assert [s[0]] + s[1..] == s;
    }
  }

  predicate HoldsCStrings(t: Json) {
    match t
    case String(s) => NoNul(s)
    case Raw(s) => NoNul(s)
    case Array(items) => forall i :: 0 <= i < |items| ==> HoldsCStrings(items[i])
    case Object(ms) => forall i :: 0 <= i < |ms| ==> NoNul(ms[i].key) && HoldsCStrings(ms[i].item)
    case _ => true
  }

  lemma NoNulAppend(a: string, b: string)
    requires NoNul(a) && NoNul(b)
    ensures NoNul(a + b)
  {
  }

  lemma {:induction false} EscapedNoNul(s: string)
    requires NoNul(s)
    ensures NoNul(Escaped(s))
    decreases |s|
  {
    if s == "" {
    } else {
      EscapedNoNul(s[1..]);
      NoNulAppend(Escape(s[0]), Escaped(s[1..]));
    }
  }

  lemma QuotedNoNul(s: string)
    requires NoNul(s)
    ensures NoNul(Quoted(s))
  {
    hide Escaped;
    EscapedNoNul(s);
  }

  lemma {:induction false} TextNoNul(t: Json, format: bool, depth: nat)
    requires HoldsCStrings(t)
    ensures NoNul(TextOf(t, format, depth))
    decreases t, 0
  {
    match t
    case Number(n) => assert NoNul(Signed(n)) by { SignedNoNul(n); }
    case String(s) => QuotedNoNul(s);
    case Array(items) => ItemsNoNul(items, format, depth + 1);
    case Object(ms) => MembersNoNul(ms, format, depth + 1);
    case _ =>
  }

  lemma SignedNoNul(n: int)
    ensures NoNul(Signed(n))
  {
  }

  lemma {:induction false} ItemsNoNul(items: seq<Json>, format: bool, depth: nat)
    requires forall i :: 0 <= i < |items| ==> HoldsCStrings(items[i])
    ensures NoNul(ItemsText(items, format, depth))
    decreases items, 1
  {
    hide TextOf;
    if items == [] {
    } else {
      TextNoNul(items[0], format, depth);
      ItemsNoNul(items[1..], format, depth);
    }
  }

  lemma {:induction false} MembersNoNul(ms: seq<Member>, format: bool, depth: nat)
    requires forall i :: 0 <= i < |ms| ==> NoNul(ms[i].key) && HoldsCStrings(ms[i].item)
    ensures NoNul(MembersText(ms, format, depth))
    decreases ms, 1
  {
    hide TextOf, Quoted, MembersText;
    if ms == [] {
      NoMembers(format, depth);
    } else {
      TextNoNul(ms[0].item, format, depth);
      QuotedNoNul(ms[0].key);
      MembersNoNul(ms[1..], format, depth);
      var first := MemberText(ms[0], format, depth) + MemberEnd(|ms| == 1, format);
      assert NoNul(first);
      NoNulAppend(first, MembersText(ms[1..], format, depth));
      MembersStep(ms, format, depth);
    }
  }

  lemma MembersStep(ms: seq<Member>, format: bool, depth: nat)
    requires ms != []
    ensures MembersText(ms, format, depth)
         == MemberText(ms[0], format, depth) + MemberEnd(|ms| == 1, format) + MembersText(ms[1..], format, depth)
  {
  }

  lemma EscapedNothing()
    ensures Escaped("") == ""
  {
  }

  lemma ArrayTextIs(items: seq<Json>, format: bool, depth: nat)
    ensures TextOf(Array(items), format, depth) == "[" + ItemsText(items, format, depth + 1) + "]"
  {
  }

  lemma ObjectTextIs(ms: seq<Member>, format: bool, depth: nat)
    ensures TextOf(Object(ms), format, depth)
         == (if format then "{\n" else "{") + MembersText(ms, format, depth + 1)
            + ((if format then Repeat('\t', depth) else "") + "}")
  {
  }

  lemma Associate(a: string, b: string, c: string, d: string)
    ensures a + b + c + d == a + (b + c + d)
  {
  }

  lemma ItemsStep(items: seq<Json>, format: bool, depth: nat)
    requires items != []
    ensures ItemsText(items, format, depth)
         == TextOf(items[0], format, depth) + Separator(|items| == 1, format) + ItemsText(items[1..], format, depth)
  {
  }

  function Separator(last: bool, format: bool): string {
    if last then "" else Comma(format)
  }

  /** printbuffer */
  class Printer {
    var buffer: array<char>
    var offset: nat
    var depth: nat
    const noalloc: bool
    const format: bool

    constructor (buffer: array<char>, noalloc: bool, format: bool)
      requires buffer.Length <= INT_MAX
      ensures Valid() && this.buffer == buffer && offset == 0 && depth == 0
      ensures this.noalloc == noalloc && this.format == format
    {
      this.buffer, this.noalloc, this.format, offset, depth := buffer, noalloc, format, 0, 0;
    }

    predicate Valid()
      reads this
    {
      buffer.Length <= INT_MAX && (offset < buffer.Length || (offset == 0 && buffer.Length == 0))
    }

    /** How many bytes the buffer may come to have. */
    function Capacity(): nat
      reads this
    {
      if noalloc then buffer.Length else INT_MAX
    }

    /** What has been printed so far. */
    function Printed(): string
      requires Valid()
      reads this, buffer
    {
      buffer[..offset]
    }

    /** The text stands after what was printed, with room for a terminator. */
    ghost predicate Wrote(before: string, text: string)
      reads this, buffer
    {
      |before| + |text| < buffer.Length && buffer[..|before| + |text|] == before + text
    }

    ghost predicate Terminated(end: nat)
      reads this, buffer
    {
      end < buffer.Length && buffer[end] == ZERO
    }

    /** What stands behind the parts of a text stands behind the text. */
    lemma WroteMore(before: string, a: string, b: string, c: string)
      requires Wrote(before + a + b, c)
      ensures Wrote(before, a + b + c)
    {
      Associate(before, a, b, c);
    }

    /** ensure: room for `needed` bytes and one more, by growing to twice the need when that is allowed. */
    method Ensure(needed: nat) returns (ok: bool)
      requires Valid()
      modifies this`buffer
      ensures Valid() && (buffer == old(buffer) || (fresh(buffer) && !noalloc)) && Printed() == old(Printed())
      ensures ok <==> offset + needed + 1 <= old(Capacity())
      ensures ok ==> offset + needed < buffer.Length
    {
      if buffer.Length > 0 && offset >= buffer.Length { return false; }
      if needed > INT_MAX { return false; }
      var wanted := needed + offset + 1;
      if wanted <= buffer.Length { return true; }
      if noalloc { return false; }
      var newSize := 0;
      if wanted > INT_MAX / 2 {
        if wanted <= INT_MAX {
          newSize := INT_MAX;
        } else {
          return false;
        }
      } else {
        newSize := wanted * 2;
      }
      var grown := new char[newSize];
      var i := 0;
      while i < offset
        invariant buffer == old(buffer) && i <= offset <= buffer.Length && offset <= grown.Length
        invariant grown[..i] == buffer[..i]
      {
        grown[i] := buffer[i];
        i := i + 1;
      }
      buffer := grown;
      return true;
    }

    /** A copy into the buffer from a position on. */
    method Put(at: nat, s: string)
      requires at + |s| < buffer.Length
      modifies buffer
      ensures buffer[..at + |s|] == old(buffer[..at]) + s
    {
      var i := 0;
      while i < |s|
        invariant i <= |s| && buffer[..at + i] == old(buffer[..at]) + s[..i]
      {
        buffer[at + i] := s[i];
        i := i + 1;
      }
      assert s[..i] == s;
    }

    method Terminate(at: nat, ghost text: string)
      requires at < buffer.Length && buffer[..at] == text
      modifies buffer
      ensures buffer[..at] == text && buffer[at] == ZERO
    {
      buffer[at] := ZERO;
    }

    /** strcpy */
    method Copy(s: string)
      requires Valid() && offset + |s| < buffer.Length
      modifies buffer
      ensures Wrote(old(Printed()), s) && Terminated(offset + |s|)
    {
      Put(offset, s);
      buffer[offset + |s|] := ZERO;
      assert buffer[..offset + |s|] == old(Printed()) + s;
    }

    /** update_offset: strlen of what has been written. */
    method UpdateOffset(ghost before: string, ghost text: string)
      requires Valid() && Wrote(before, text) && Terminated(|before| + |text|) && NoNul(text)
      requires |before| <= offset <= |before| + |text|
      modifies this`offset
      ensures Valid() && offset == |before| + |text| && Printed() == before + text
    {
      ghost var end := |before| + |text|;
      assert forall k :: 0 <= k < end ==> buffer[k] == buffer[..end][k];
      while buffer[offset] != ZERO
        invariant |before| <= offset <= end
        decreases end - offset
      {
        if offset == end { assert false; }
        offset := offset + 1;
      }
    }

    /** The constants, numbers and raw text: as much room as the text and its terminator take. */
    method PrintWord(s: string) returns (ok: bool)
      requires Valid()
      modifies this`buffer, buffer
      ensures Valid() && (buffer == old(buffer) || (fresh(buffer) && !noalloc))
      ensures ok <==> offset + |s| + 2 <= old(Capacity())
      ensures ok ==> Wrote(old(Printed()), s) && Terminated(offset + |s|)
    {
      ok := Ensure(|s| + 1);
      if ok { Copy(s); }
    }

    /** print_number moves the offset itself. */
    method PrintNumber(n: Int32) returns (ok: bool)
      requires Valid()
      modifies this, buffer
      ensures Valid() && (buffer == old(buffer) || (fresh(buffer) && !noalloc)) && depth == old(depth)
      ensures ok <==> old(offset) + |Signed(n)| + 2 <= old(Capacity())
      ensures ok ==> offset == old(offset) + |Signed(n)|
      ensures ok ==> Wrote(old(Printed()), Signed(n)) && Terminated(offset)
    {
      ok := PrintWord(Signed(n));
      if ok { offset := offset + |Signed(n)|; }
    }

    /** print_string_ptr: counts the escapes, makes room once, then copies or escapes. */
    method PrintString(s: string) returns (ok: bool)
      requires Valid()
      modifies this`buffer, buffer
      ensures Valid() && (buffer == old(buffer) || (fresh(buffer) && !noalloc))
      ensures ok <==> offset + |Quoted(s)| + 2 <= old(Capacity())
      ensures ok ==> Wrote(old(Printed()), Quoted(s)) && Terminated(offset + |Quoted(s)|)
    {
      hide Escaped;
      var escapes := CountEscapes(s);
      ok := Ensure(|s| + escapes + 3);
      if ok { PutQuoted(s, escapes); }
    }

    method PutQuoted(s: string, escapes: nat)
      requires Valid() && |s| + escapes == |Escaped(s)| && offset + |Quoted(s)| < buffer.Length
      modifies buffer
      ensures Wrote(old(Printed()), Quoted(s)) && Terminated(offset + |Quoted(s)|)
    {
      hide Escaped;
      ghost var before := Printed();
      var end := offset + 1 + |s| + escapes;
      Put(offset, "\"");
      if escapes == 0 {
        NoEscapes(s);
        Put(offset + 1, s);
      } else {
        PutEscaped(offset + 1, s);
      }
      Put(end, "\"");
      Associate(before, "\"", Escaped(s), "\"");
      Terminate(end + 1, before + Quoted(s));
    }

    method PutEscaped(at: nat, s: string)
      requires at + |Escaped(s)| < buffer.Length
      modifies buffer
      ensures buffer[..at + |Escaped(s)|] == old(buffer[..at]) + Escaped(s)
    {
      hide Escape, Escaped;
      var i, position := 0, at;
      assert s[..0] == "";
      EscapedNothing();
      while i < |s|
        invariant i <= |s| && position == at + |Escaped(s[..i])| <= at + |Escaped(s)|
        invariant buffer[..position] == old(buffer[..at]) + Escaped(s[..i])
      {
        EscapedPrefix(s, i);
        Put(position, Escape(s[i]));
        position := position + |Escape(s[i])|;
        i := i + 1;
      }
      assert s[..i] == s;
    }

    /** print_value */
    method PrintValue(t: Json) returns (ok: bool)
      requires Valid() && HoldsCStrings(t)
      modifies this, buffer
      ensures Valid() && (buffer == old(buffer) || (fresh(buffer) && !noalloc))
      ensures ok <==> Printable(t, old(depth)) && old(offset) + |TextOf(t, format, old(depth))| + 2 <= old(Capacity())
      ensures ok ==> depth == old(depth) && old(offset) <= offset <= old(offset) + |TextOf(t, format, depth)|
      ensures ok ==> Wrote(old(Printed()), TextOf(t, format, depth))
      ensures ok ==> Terminated(old(offset) + |TextOf(t, format, depth)|)
      decreases t, 0
    {
      hide TextOf, Printable, HoldsCStrings, Wrote, Terminated;
      if t.Array? {
        ok := PrintArray(t.items);
      } else if t.Object? {
        ok := PrintObject(t.members);
      } else {
        ok := PrintLeaf(t);
      }
    }

    /** The cases of print_value without children. */
    method PrintLeaf(t: Json) returns (ok: bool)
      requires Valid() && HoldsCStrings(t) && !t.Array? && !t.Object?
      modifies this, buffer
      ensures Valid() && (buffer == old(buffer) || (fresh(buffer) && !noalloc))
      ensures ok <==> Printable(t, old(depth)) && old(offset) + |TextOf(t, format, old(depth))| + 2 <= old(Capacity())
      ensures ok ==> depth == old(depth) && old(offset) <= offset <= old(offset) + |TextOf(t, format, depth)|
      ensures ok ==> Wrote(old(Printed()), TextOf(t, format, depth))
      ensures ok ==> Terminated(old(offset) + |TextOf(t, format, depth)|)
    {
      hide ItemsText, MembersText, Quoted, NoNul, Signed, Wrote, Terminated;
      match t
      case Invalid => return false;
      case Null => ok := PrintWord("null");
      case False => ok := PrintWord("false");
      case True => ok := PrintWord("true");
      case Number(n) => ok := PrintNumber(n);
      case Raw(s) => ok := PrintWord(s);
      case String(s) => ok := PrintString(s);
    }

    /** A value that stays: printed, and the offset moved behind it. */
    method PrintAndAdvance(t: Json) returns (ok: bool)
      requires Valid() && HoldsCStrings(t)
      modifies this, buffer
      ensures Valid() && (buffer == old(buffer) || (fresh(buffer) && !noalloc))
      ensures ok <==> Printable(t, old(depth)) && old(offset) + |TextOf(t, format, old(depth))| + 2 <= old(Capacity())
      ensures ok ==> depth == old(depth) && Printed() == old(Printed()) + TextOf(t, format, depth)
      decreases t, 1
    {
      hide Printable, TextOf, HoldsCStrings;
      ok := PrintValue(t);
      if ok {
        TextNoNul(t, format, depth);
        UpdateOffset(old(Printed()), TextOf(t, format, depth));
      }
    }

    /** Bytes that stay, after room has been made for them. */
    method Append(s: string)
      requires Valid() && offset + |s| < buffer.Length
      modifies this`offset, buffer
      ensures Valid() && Printed() == old(Printed()) + s
    {
      Put(offset, s);
      offset := offset + |s|;
    }

    /** An element and what separates it from the next. */
    method PrintElement(t: Json, last: bool) returns (ok: bool)
      requires Valid() && HoldsCStrings(t)
      modifies this, buffer
      ensures Valid() && (buffer == old(buffer) || (fresh(buffer) && !noalloc))
      ensures var text := TextOf(t, format, old(depth)) + Separator(last, format);
              && (ok <==> Printable(t, old(depth)) && old(offset) + |text| + 2 <= old(Capacity()))
              && (ok ==> depth == old(depth) && Printed() == old(Printed()) + text)
      decreases t, 2
    {
      hide Printable, TextOf, HoldsCStrings;
      ok := PrintAndAdvance(t);
      if ok && !last {
        var length := if format then 2 else 1;
        ok := Ensure(length + 1);
        if ok {
          Append(Comma(format));
          buffer[offset] := ZERO;
        }
      }
    }

    /** The start of an array or object: room for it as the source asks, and one level deeper. */
    method Open(s: string, needed: nat) returns (ok: bool)
      requires Valid() && |s| <= needed
      modifies this, buffer
      ensures Valid() && (buffer == old(buffer) || (fresh(buffer) && !noalloc))
      ensures ok <==> old(offset) + needed + 1 <= old(Capacity())
      ensures ok ==> depth == old(depth) + 1 && Printed() == old(Printed()) + s
    {
      ok := Ensure(needed);
      if ok {
        Append(s);
        depth := depth + 1;
      }
    }

    /** The end of an array or object, one level up again. */
    method Close(s: string) returns (ok: bool)
      requires Valid() && depth > 0
      modifies this, buffer
      ensures Valid() && (buffer == old(buffer) || (fresh(buffer) && !noalloc))
      ensures ok <==> old(offset) + |s| + 2 <= old(Capacity())
      ensures ok ==> depth == old(depth) - 1 && offset == old(offset)
      ensures ok ==> Wrote(old(Printed()), s) && Terminated(offset + |s|)
    {
      ok := PrintWord(s);
      depth := depth - 1;
    }

    /** The loop of print_array. */
    method PrintItems(items: seq<Json>) returns (ok: bool)
      requires Valid() && HoldsCStrings(Array(items))
      modifies this, buffer
      ensures Valid() && (buffer == old(buffer) || (fresh(buffer) && !noalloc))
      ensures var text := ItemsText(items, format, old(depth));
              && (ok ==> depth == old(depth) && Printed() == old(Printed()) + text)
              && (ok ==> AllPrintable(items, old(depth)))
              && (!ok ==> !AllPrintable(items, old(depth)) || old(offset) + |text| + 2 > old(Capacity()))
      decreases items, 0
    {
      hide TextOf, ItemsText, Printable, Separator;
      ghost var all := ItemsText(items, format, depth);
      var i := 0;
      assert items[0..] == items;
      ok := true;
      while i < |items|
        invariant i <= |items| && Valid() && depth == old(depth)
        invariant buffer == old(buffer) || (fresh(buffer) && !noalloc)
        invariant Capacity() == old(Capacity())
        invariant AllPrintable(items[..i], depth)
        invariant Printed() + ItemsText(items[i..], format, depth) == old(Printed()) + all
      {
        ItemsStep(items[i..], format, depth);
        assert items[i..][1..] == items[i + 1..];
        assert items[..i + 1] == items[..i] + [items[i]];
        ok := PrintElement(items[i], i + 1 == |items|);
        if !ok { return; }
        i := i + 1;
      }
      NoItems(format, depth);
      assert items[i..] == [] && items[..i] == items;
      assert Printed() + "" == Printed();
    }

    /** print_array */
    method PrintArray(items: seq<Json>) returns (ok: bool)
      requires Valid() && HoldsCStrings(Array(items))
      modifies this, buffer
      ensures Valid() && (buffer == old(buffer) || (fresh(buffer) && !noalloc))
      ensures var size := |TextOf(Array(items), format, old(depth))|;
              ok <==> Printable(Array(items), old(depth)) && old(offset) + size + 2 <= old(Capacity())
      ensures ok ==> depth == old(depth) && old(offset) <= offset <= old(offset) + |TextOf(Array(items), format, depth)|
      ensures ok ==> Wrote(old(Printed()), TextOf(Array(items), format, depth))
      ensures ok ==> Terminated(old(offset) + |TextOf(Array(items), format, depth)|)
      decreases items, 1
    {
      hide TextOf, ItemsText, HoldsCStrings, Printable, AllPrintable, NoNul, Terminated, Wrote;
      ghost var d := depth;
      ArrayPrintable(items, d);
      ArrayTextIs(items, format, d);
      if depth >= NESTING_LIMIT { return false; }
      ok := Open("[", 1);
      if !ok { return; }
      ok := PrintItems(items);
      if !ok { return; }
      ok := Close("]");
      if ok { WroteMore(old(Printed()), "[", ItemsText(items, format, d + 1), "]"); }
    }

    /** A key, and the offset moved behind it. */
    method PrintName(key: string) returns (ok: bool)
      requires Valid() && NoNul(key)
      modifies this`buffer, this`offset, buffer
      ensures Valid() && (buffer == old(buffer) || (fresh(buffer) && !noalloc))
      ensures ok <==> old(offset) + |Quoted(key)| + 2 <= old(Capacity())
      ensures ok ==> Printed() == old(Printed()) + Quoted(key)
    {
      hide Quoted;
      ok := PrintString(key);
      if ok {
        QuotedNoNul(key);
        UpdateOffset(old(Printed()), Quoted(key));
      }
    }

    /** Indentation, key and colon. */
    method PrintKey(key: string) returns (ok: bool)
      requires Valid() && NoNul(key)
      modifies this, buffer
      ensures Valid() && (buffer == old(buffer) || (fresh(buffer) && !noalloc))
      ensures depth == old(depth)
      ensures var text := KeyText(key, format, depth);
              && (ok ==> Printed() == old(Printed()) + text)
              && (!ok ==> old(offset) + |text| + 1 > old(Capacity()))
    {
      hide Quoted, Repeat;
      if format {
        ok := Ensure(depth);
        if !ok { return; }
        Append(Repeat('\t', depth));
      }
      ok := PrintName(key);
      if !ok { return; }
      var length := if format then 2 else 1;
      ok := Ensure(length);
      if !ok { return; }
      Append(if format then ":\t" else ":");
    }

    /** A member of an object: indentation, key, colon, value, and the end of its line. */
    method PrintMember(m: Member, last: bool) returns (ok: bool)
      requires Valid() && NoNul(m.key) && HoldsCStrings(m.item)
      modifies this, buffer
      ensures Valid() && (buffer == old(buffer) || (fresh(buffer) && !noalloc))
      ensures var text := MemberText(m, format, old(depth)) + MemberEnd(last, format);
              && (ok <==> Printable(m.item, old(depth)) && old(offset) + |text| + 2 <= old(Capacity()))
              && (ok ==> depth == old(depth) && Printed() == old(Printed()) + text)
      decreases m, 2
    {
      hide Printable, TextOf, HoldsCStrings, KeyText, NoNul, MemberEnd, Quoted, Repeat;
      ghost var before, key, value := Printed(), KeyText(m.key, format, depth), TextOf(m.item, format, depth);
      assert MemberText(m, format, depth) == key + value by {
        MemberTextIs(m, format, depth);
      }
      hide MemberText;
      ok := PrintKey(m.key);
      if !ok { return; }
      ok := PrintAndAdvance(m.item);
      if !ok { return; }
      assert Printed() == before + (key + value);
      ok := EndMember(last);
      assert ok ==> Printed() == before + ((key + value) + MemberEnd(last, format));
    }

    /** The comma and the line break behind a member. */
    method EndMember(last: bool) returns (ok: bool)
      requires Valid()
      modifies this`buffer, this`offset, buffer
      ensures Valid() && (buffer == old(buffer) || (fresh(buffer) && !noalloc))
      ensures ok <==> old(offset) + |MemberEnd(last, format)| + 2 <= old(Capacity())
      ensures ok ==> Printed() == old(Printed()) + MemberEnd(last, format)
    {
      var length := (if format then 1 else 0) + (if last then 0 else 1);
      ok := Ensure(length + 1);
      if !ok { return; }
      Append(MemberEnd(last, format));
      Terminate(offset, Printed());
    }

    /** The loop of print_object. */
    method PrintMembers(ms: seq<Member>) returns (ok: bool)
      requires Valid() && HoldsCStrings(Object(ms))
      modifies this, buffer
      ensures Valid() && (buffer == old(buffer) || (fresh(buffer) && !noalloc))
      ensures var text := MembersText(ms, format, old(depth));
              && (ok ==> depth == old(depth) && Printed() == old(Printed()) + text)
              && (ok ==> AllPrintable(ItemsOf(ms), old(depth)))
              && (!ok ==> !AllPrintable(ItemsOf(ms), old(depth)) || old(offset) + |text| + 2 > old(Capacity()))
      decreases ms, 0
    {
      hide TextOf, MembersText, MemberText, MemberEnd, Printable;
      ghost var all := MembersText(ms, format, depth);
      var i := 0;
      assert ms[0..] == ms;
      ok := true;
      while i < |ms|
        invariant i <= |ms| && Valid() && depth == old(depth)
        invariant buffer == old(buffer) || (fresh(buffer) && !noalloc)
        invariant Capacity() == old(Capacity())
        invariant forall k :: 0 <= k < i ==> Printable(ms[k].item, depth)
        invariant Printed() + MembersText(ms[i..], format, depth) == old(Printed()) + all
      {
        MembersStep(ms[i..], format, depth);
        assert ms[i..][1..] == ms[i + 1..];
        ok := PrintMember(ms[i], i + 1 == |ms|);
        if !ok {
          assert ItemsOf(ms)[i] == ms[i].item;
          return;
        }
        i := i + 1;
      }
      NoMembers(format, depth);
      assert ms[i..] == [];
      assert Printed() + "" == Printed();
    }

    /** print_object */
    method PrintObject(ms: seq<Member>) returns (ok: bool)
      requires Valid() && HoldsCStrings(Object(ms))
      modifies this, buffer
      ensures Valid() && (buffer == old(buffer) || (fresh(buffer) && !noalloc))
      ensures var size := |TextOf(Object(ms), format, old(depth))|;
              ok <==> Printable(Object(ms), old(depth)) && old(offset) + size + 2 <= old(Capacity())
      ensures ok ==> depth == old(depth) && old(offset) <= offset <= old(offset) + |TextOf(Object(ms), format, depth)|
      ensures ok ==> Wrote(old(Printed()), TextOf(Object(ms), format, depth))
      ensures ok ==> Terminated(old(offset) + |TextOf(Object(ms), format, depth)|)
      decreases ms, 1
    {
      hide TextOf, MembersText, HoldsCStrings, Printable, AllPrintable, ItemsOf, Repeat, NoNul, Terminated, Wrote;
      ghost var d := depth;
      ObjectTextIs(ms, format, d);
      ObjectPrintable(ms, d);
      if depth >= NESTING_LIMIT { return false; }
      ok := Open(if format then "{\n" else "{", (if format then 2 else 1) + 1);
      if !ok { return; }
      ok := PrintMembers(ms);
      if !ok { return; }
      var close := (if format then Repeat('\t', depth - 1) else "") + "}";
      ok := Close(close);
      if ok { WroteMore(old(Printed()), if format then "{\n" else "{", MembersText(ms, format, d + 1), close); }
    }
  }

  ghost predicate AllPrintable(items: seq<Json>, depth: nat) {
    forall i :: 0 <= i < |items| ==> Printable(items[i], depth)
  }

  function ItemsOf(ms: seq<Member>): (r: seq<Json>)
    ensures |r| == |ms| && forall i :: 0 <= i < |ms| ==> r[i] == ms[i].item
  {
    seq(|ms|, i requires 0 <= i < |ms| => ms[i].item)
  }

  lemma ArrayPrintable(items: seq<Json>, depth: nat)
    ensures Printable(Array(items), depth) <==> depth < NESTING_LIMIT && AllPrintable(items, depth + 1)
  {
  }

  lemma ObjectPrintable(ms: seq<Member>, depth: nat)
    ensures Printable(Object(ms), depth) <==> depth < NESTING_LIMIT && AllPrintable(ItemsOf(ms), depth + 1)
  {
  }

  function KeyText(key: string, format: bool, depth: nat): string {
    (if format then Repeat('\t', depth) else "") + Quoted(key) + (if format then ":\t" else ":")
  }

  lemma MemberTextIs(m: Member, format: bool, depth: nat)
    ensures MemberText(m, format, depth) == KeyText(m.key, format, depth) + TextOf(m.item, format, depth)
  {
  }

  lemma EscapedPrefix(s: string, i: nat)
    requires i < |s|
    ensures Escaped(s[..i + 1]) == Escaped(s[..i]) + Escape(s[i])
    ensures |Escaped(s[..i + 1])| <= |Escaped(s)|
  {
    EscapedAppend(s[..i], s[i]);
    assert s[..i + 1] == s[..i] + [s[i]];
    EscapedMonotone(s, i + 1);
  }

  lemma {:induction false} EscapedMonotone(s: string, i: nat)
    requires i <= |s|
    ensures |Escaped(s[..i])| <= |Escaped(s)|
    decreases |s| - i
  {
    hide Escape;
    if i == |s| {
      assert s[..i] == s;
    } else {
      EscapedAppend(s[..i], s[i]);
      assert s[..i + 1] == s[..i] + [s[i]];
      EscapedMonotone(s, i + 1);
    }
  }

  /** The first loop of print_string_ptr. */
  method CountEscapes(s: string) returns (n: nat)
    ensures |s| + n == |Escaped(s)|
  {
    hide Escaped;
    n := 0;
    var i := 0;
    assert s[..0] == "";
    EscapedNothing();
    while i < |s|
      invariant i <= |s| && i + n == |Escaped(s[..i])|
    {
      EscapedPrefix(s, i);
      if Short(s[i]).Some? {
        n := n + 1;
      } else if s[i] as int < 32 {
        n := n + 5;
      }
      i := i + 1;
    }
    assert s[..i] == s;
  }

  /** cJSON_PrintPreallocated: success exactly when the buffer has two bytes more than the text. */
  method PrintPreallocated(t: Json, buffer: array<char>, format: bool) returns (ok: bool)
    requires HoldsCStrings(t) && buffer.Length <= INT_MAX
    modifies buffer
    ensures ok <==> Printable(t, 0) && buffer.Length >= |TextOf(t, format, 0)| + 2
    ensures ok ==> buffer[..|TextOf(t, format, 0)|] == TextOf(t, format, 0) && buffer[|TextOf(t, format, 0)|] == ZERO
  {
    var p := new Printer(buffer, true, format);
    ok := p.PrintValue(t);
    if ok { assert buffer[..|TextOf(t, format, 0)|] == "" + TextOf(t, format, 0) == TextOf(t, format, 0); }
  }

  /** cJSON_PrintBuffered: the same text whatever the first size of the buffer. */
  method PrintBuffered(t: Json, prebuffer: nat, format: bool) returns (ok: bool, text: array<char>)
    requires HoldsCStrings(t) && prebuffer <= INT_MAX
    ensures ok <==> Printable(t, 0) && |TextOf(t, format, 0)| + 2 <= INT_MAX
    ensures ok ==> |TextOf(t, format, 0)| < text.Length && text[..|TextOf(t, format, 0)|] == TextOf(t, format, 0)
    ensures ok ==> text[|TextOf(t, format, 0)|] == ZERO
  {
    var first := new char[prebuffer];
    var p := new Printer(first, false, format);
    ok := p.PrintValue(t);
    text := p.buffer;
    if ok { assert text[..|TextOf(t, format, 0)|] == "" + TextOf(t, format, 0) == TextOf(t, format, 0); }
  }

  /** cJSON_Print and cJSON_PrintUnformatted */
  method Print(t: Json, format: bool) returns (ok: bool, text: string)
    requires HoldsCStrings(t)
    ensures ok <==> Printable(t, 0) && |TextOf(t, format, 0)| + 2 <= INT_MAX
    ensures ok ==> text == TextOf(t, format, 0)
  {
    var first := new char[256];
    var p := new Printer(first, false, format);
    text := "";
    ok := p.PrintAndAdvance(t);
    if ok {
      text := p.buffer[..p.offset];
      assert text == "" + TextOf(t, format, 0);
    }
  }
}
