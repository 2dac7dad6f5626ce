/** Parsing undoes printing. */
module TextRoundTrip {
  import opened CStrings
  import opened Json
  import opened Text
  import Pointer
  import opened Options

  /** Null, booleans, ints, strings, arrays and objects, with C strings in them. */
  predicate Plaintext(t: Json) {
    match t
    case Invalid => false
    case Raw(s) => false
    case String(s) => NoNul(s)
    case Array(items) => forall i :: 0 <= i < |items| ==> Plaintext(items[i])
    case Object(ms) => forall i :: 0 <= i < |ms| ==> NoNul(ms[i].key) && Plaintext(ms[i].item)
    case _ => true
  }

  // ----- strings -----

  lemma EscapeShape(c: char, post: string)
    ensures var e := Escape(c);
            if Short(c).Some?
            then e == ['\\', Short(c).value] && Unshort(Short(c).value) == Some(c) && Short(c).value != 'u'
            else if c as int < 32 then |e| == 6 && e[0] == '\\' && e[1] == 'u' && Hex4(e[2..6]) == c as int
            else e == [c] && c != '\"' && c != '\\'
  {
  }

  lemma {:induction false} UnescapeEscaped(s: string)
    ensures Unescape(Escaped(s)) == Some(s)
    decreases |s|
  {
    hide Escape, Short, Unshort, Literal;
    if s == "" {
    } else {
      UnescapeEscaped(s[1..]);
      UnescapeOne(s[0], Escaped(s[1..]));
      assert [s[0]] + s[1..] == s;
    }
  }

  lemma UnescapeOne(c: char, post: string)
    ensures Unescape(Escape(c) + post) == Prepend([c], Unescape(post))
  {
    hide Hex4, Short, Unshort;
    var s := Escape(c) + post;
    EscapeShape(c, post);
    if Short(c).Some? {
      assert s[0] == '\\' && s[1] == Short(c).value && s[2..] == post;
    } else if c as int < 32 {
      assert s[2..6] == Escape(c)[2..6] && s[6..] == post && s[1] == 'u';
      assert Utf8(c as int) == [c];
    } else {
      assert s[0] == c && s[1..] == post;
    }
  }

  lemma {:induction false} ClosingEscaped(s: string, post: string)
    ensures Closing(Escaped(s) + "\"" + post) == |Escaped(s)|
    decreases |s|
  {
    hide Escape;
    if s == "" {
      assert (Escaped(s) + "\"" + post)[0] == '\"';
    } else {
      ClosingEscaped(s[1..], post);
      ClosingOne(s[0], Escaped(s[1..]) + "\"" + post);
      assert Escaped(s) + "\"" + post == Escape(s[0]) + (Escaped(s[1..]) + "\"" + post);
    }
  }

  lemma ClosingOne(c: char, post: string)
    ensures Closing(Escape(c) + post) == |Escape(c)| + Closing(post)
  {
    hide Hex4, Short, Unshort;
    var e := Escape(c);
    var s := e + post;
    EscapeShape(c, post);
    if Short(c).Some? {
      assert s[2..] == post;
    } else if c as int < 32 {
      assert forall i :: 2 <= i < 6 ==> e[i] != '\"' && e[i] != '\\';
      assert s[2..] == e[2..] + post;
      ClosingPlain(e[2..], post);
    } else {
      assert s[1..] == post;
    }
  }

  lemma {:induction false} ClosingPlain(a: string, post: string)
    requires forall i :: 0 <= i < |a| ==> a[i] != '\"' && a[i] != '\\'
    ensures Closing(a + post) == |a| + Closing(post)
    decreases |a|
  {
    if a == "" {
      assert a + post == post;
    } else {
      ClosingPlain(a[1..], post);
      assert (a + post)[1..] == a[1..] + post;
    }
  }

  lemma StringRoundTrip(s: string, post: string)
    requires NoNul(s)
    ensures ParseString(Quoted(s) + post) == Done(s, post)
  {
    hide Escaped, Closing, Unescape;
    var text := Quoted(s) + post;
    assert text[1..] == Escaped(s) + "\"" + post;
    ClosingEscaped(s, post);
    UnescapeEscaped(s);
    CutNothing(s);
    assert text[1..][..|Escaped(s)|] == Escaped(s);
    assert text[|Escaped(s)| + 2..] == post;
  }

  // ----- numbers -----

  lemma {:induction false} NumberOfDigits(n: nat)
    ensures NumberOf(Pointer.Digits(n)) == n
  {
    var s := Pointer.Digits(n);
    if n >= 10 {
      NumberOfDigits(n / 10);
      assert s[..|s| - 1] == Pointer.Digits(n / 10);
    } else {
      assert s[..|s| - 1] == "";
    }
  }

  lemma {:induction false} RunOf(digits: string, post: string)
    requires forall i :: 0 <= i < |digits| ==> Pointer.IsDigit(digits[i])
    requires post == "" || !Pointer.IsDigit(post[0])
    ensures Run(digits + post) == |digits|
    decreases |digits|
  {
    if digits == "" {
      assert digits + post == post;
    } else {
      RunOf(digits[1..], post);
      assert (digits + post)[1..] == digits[1..] + post;
    }
  }

  /** What may stand after a number without becoming part of it. */
  predicate EndsNumber(post: string) {
    post == "" || (!Pointer.IsDigit(post[0]) && post[0] !in ".eE")
  }

  lemma NegativeRoundTrip(n: Int32, post: string)
    requires EndsNumber(post) && n < 0
    ensures ParseNumber(Signed(n) + post) == Done(Number(n), post)
  {
    hide Run, NumberOf, Pointer.Digits;
    var digits := Pointer.Digits(0 - n);
    RunOf(digits, post);
    NumberOfDigits(0 - n);
    var text := "-" + digits + post;
    assert text[1..] == digits + post && text[1..][..|digits|] == digits && text[1 + |digits|..] == post;
  }

  lemma NumberRoundTrip(n: Int32, post: string)
    requires EndsNumber(post)
    ensures ParseNumber(Signed(n) + post) == Done(Number(n), post)
  {
    hide Run, NumberOf, Pointer.Digits;
    if n < 0 {
      NegativeRoundTrip(n, post);
    } else {
      var digits := Pointer.Digits(n);
      RunOf(digits, post);
      NumberOfDigits(n);
      var text := digits + post;
      assert text[0] == digits[0] && Pointer.IsDigit(digits[0]);
      assert text[0..] == text && text[..|digits|] == digits && text[|digits|..] == post;
    }
  }

  // ----- values -----

  lemma {:induction false} SkipBlanks(w: string, s: string)
    requires s != "" && !Blank(s[0]) && forall i :: 0 <= i < |w| ==> Blank(w[i])
    ensures Skip(w + s) == s
    decreases |w|
  {
    if w == "" {
      assert w + s == s;
    } else {
      SkipBlanks(w[1..], s);
      assert (w + s)[1..] == w[1..] + s;
    }
  }

  predicate Solid(s: string) {
    s != "" && !Blank(s[0]) && s[0] != ']' && s[0] != '}'
  }

  lemma TextIsSolid(t: Json, format: bool, depth: nat, post: string)
    requires Plaintext(t)
    ensures Solid(TextOf(t, format, depth) + post)
    ensures Skip(TextOf(t, format, depth) + post) == TextOf(t, format, depth) + post
  {
  }

  lemma {:induction false} ValueRoundTrip(t: Json, format: bool, depth: nat, post: string)
    requires Plaintext(t) && Printable(t, depth) && (t.Number? ==> EndsNumber(post))
    ensures ParseValue(TextOf(t, format, depth) + post, depth) == Done(t, post)
    decreases t, 0
  {
    hide ParseValue;
    match t
    case Number(n) => NumberValue(n, post, depth);
    case String(s) => StringValue(s, post, depth);
    case Array(items) => ArrayRoundTrip(items, format, depth, post);
    case Object(ms) => ObjectRoundTrip(ms, format, depth, post);
    case _ =>
      WordRoundTrip(t, format, depth, post);
  }

  lemma WordRoundTrip(t: Json, format: bool, depth: nat, post: string)
    requires t.Null? || t.True? || t.False?
    ensures ParseValue(TextOf(t, format, depth) + post, depth) == Done(t, post)
  {
    var word := TextOf(t, format, depth);
    assert (word + post)[..|word|] == word && (word + post)[|word|..] == post;
    assert (word + post)[0] == word[0];
  }

  lemma NumberValue(n: Int32, post: string, depth: nat)
    requires EndsNumber(post)
    ensures ParseValue(Signed(n) + post, depth) == Done(Number(n), post)
  {
    hide ParseNumber;
    NumberRoundTrip(n, post);
    var text := Signed(n) + post;
    assert text[0] == Signed(n)[0] && (text[0] == '-' || Pointer.IsDigit(text[0]));
    NoWord(text);
  }

  lemma StringValue(s: string, post: string, depth: nat)
    requires NoNul(s)
    ensures ParseValue(Quoted(s) + post, depth) == Done(String(s), post)
  {
    hide ParseString;
    StringRoundTrip(s, post);
    assert (Quoted(s) + post)[0] == '\"';
    NoWord(Quoted(s) + post);
  }

  lemma {:induction false} ArrayRoundTrip(items: seq<Json>, format: bool, depth: nat, post: string)
    requires Plaintext(Array(items)) && Printable(Array(items), depth)
    ensures ParseValue(TextOf(Array(items), format, depth) + post, depth) == Done(Array(items), post)
    decreases items, 2
  {
    hide TextOf, ItemsText;
    var inner := ItemsText(items, format, depth + 1) + "]" + post;
    var text := "[" + inner;
    assert TextOf(Array(items), format, depth) + post == text by { ArrayText(items, format, depth, post); }
    NoWord(text);
    assert text[1..] == inner;
    if items == [] {
      NoItems(format, depth + 1);
      assert inner == "]" + post;
      assert inner[1..] == post;
    } else {
      ItemsRoundTrip(items, format, depth + 1, post);
    }
  }

  lemma ArrayText(items: seq<Json>, format: bool, depth: nat, post: string)
    ensures TextOf(Array(items), format, depth) + post == "[" + (ItemsText(items, format, depth + 1) + "]" + post)
  {
  }

  lemma NoItems(format: bool, depth: nat)
    ensures ItemsText([], format, depth) == ""
  {
  }

  lemma ItemsSplit(items: seq<Json>, format: bool, depth: nat, post: string)
    requires items != []
    ensures ItemsText(items, format, depth) + "]" + post
         == TextOf(items[0], format, depth)
            + ((if |items| > 1 then Comma(format) + ItemsText(items[1..], format, depth) else "") + "]" + post)
  {
  }

  lemma {:induction false} ItemsRoundTrip(items: seq<Json>, format: bool, depth: nat, post: string)
    requires items != [] && forall i :: 0 <= i < |items| ==> Plaintext(items[i]) && Printable(items[i], depth)
    ensures var text := ItemsText(items, format, depth) + "]" + post;
            Solid(text) && Skip(text) == text && ParseElements(text, depth) == Done(items, post)
    decreases items, 1
  {
    hide TextOf, ItemsText, ParseValue, Plaintext, Printable;
    var text := ItemsText(items, format, depth) + "]" + post;
    var more := if |items| > 1 then Comma(format) + ItemsText(items[1..], format, depth) else "";
    var after := more + "]" + post;
    ItemsSplit(items, format, depth, post);
    TextIsSolid(items[0], format, depth, after);
    assert after[0] == (if |items| > 1 then ',' else ']');
    assert Skip(after) == after;
    ValueRoundTrip(items[0], format, depth, after);
    if |items| > 1 {
      var rest := ItemsText(items[1..], format, depth) + "]" + post;
      ItemsRoundTrip(items[1..], format, depth, post);
      assert items == [items[0]] + items[1..];
      assert after == Comma(format) + rest;
      assert after[1..] == (if format then " " else "") + rest;
      SkipBlanks(if format then " " else "", rest);
      SkipFirst(after[1..], rest, depth);
    } else {
      assert items == [items[0]] && after[1..] == post;
    }
  }

  lemma SkipFirst(s: string, rest: string, depth: nat)
    requires Skip(s) == rest && Skip(rest) == rest
    ensures ParseElements(s, depth) == ParseElements(rest, depth)
  {
  }

  function Indent(format: bool, depth: nat): string {
    if format then Repeat('\t', depth) else ""
  }

  function Line(format: bool): string {
    if format then "\n" else ""
  }

  /** The case of an object in the parser. */
  lemma BraceParsed(start: string, depth: nat)
    ensures ParseValue("{" + start, depth) ==
            if depth >= NESTING_LIMIT || Skip(start) == "" then Failed
            else if Skip(start)[0] == '}' then Done(Object([]), Skip(start)[1..])
            else
              var members := ParseMembers(Skip(start), depth + 1);
              if members.Done? then Done(Object(members.value), members.rest)
              else if members.Failed? then Failed else Beyond
  {
    hide Skip, ParseMembers, ParseString, ParseNumber, ParseElements;
    NoWord("{" + start);
    assert ("{" + start)[1..] == start;
  }

  lemma {:induction false} ObjectRoundTrip(ms: seq<Member>, format: bool, depth: nat, post: string)
    requires Plaintext(Object(ms)) && Printable(Object(ms), depth)
    ensures ParseValue(TextOf(Object(ms), format, depth) + post, depth) == Done(Object(ms), post)
    decreases ms, 2
  {
    hide TextOf, MembersText, MembersTail, MembersAfter, Indent, Line, Plaintext, Printable, Skip, ParseMembers,
        ParseValue;
    var start := Line(format) + (MembersText(ms, format, depth + 1) + Indent(format, depth) + "}" + post);
    MembersAreGood(ms, depth);
    ObjectText(ms, format, depth, post);
    BraceParsed(start, depth);
    if ms == [] {
      NoMembers(format, depth + 1);
      var blanks := Line(format) + Indent(format, depth);
      assert start == blanks + ("}" + post);
      IndentIsBlank(format, depth);
      SkipBlanks(blanks, "}" + post);
      assert ("}" + post)[1..] == post;
    } else {
      MembersRoundTrip(ms, format, depth, post);
      MembersText0(ms, format, depth, post);
      var tail := MembersTail(ms, format, depth, post);
      var blanks := Line(format) + Indent(format, depth + 1);
      assert start == blanks + tail;
      IndentIsBlank(format, depth + 1);
      SkipBlanks(blanks, tail);
    }
  }

  lemma MembersAreGood(ms: seq<Member>, depth: nat)
    requires Plaintext(Object(ms)) && Printable(Object(ms), depth)
    ensures depth < NESTING_LIMIT
    ensures forall i :: 0 <= i < |ms| ==> NoNul(ms[i].key) && Plaintext(ms[i].item) && Printable(ms[i].item, depth + 1)
  {
  }

  lemma NoMembers(format: bool, depth: nat)
    ensures MembersText([], format, depth) == ""
  {
  }

  lemma ObjectText(ms: seq<Member>, format: bool, depth: nat, post: string)
    ensures TextOf(Object(ms), format, depth) + post
         == "{" + (Line(format) + (MembersText(ms, format, depth + 1) + Indent(format, depth) + "}" + post))
  {
    hide MembersText, Repeat;
  }

  /** The text of the members without the indentation of the first, to the end. */
  function MembersTail(ms: seq<Member>, format: bool, depth: nat, post: string): string
    requires ms != []
  {
    Quoted(ms[0].key) + ((if format then ":\t" else ":")
        + (TextOf(ms[0].item, format, depth + 1) + MembersAfter(ms, format, depth, post)))
  }

  function MembersAfter(ms: seq<Member>, format: bool, depth: nat, post: string): string
    requires ms != []
  {
    MemberEnd(|ms| == 1, format) + (MembersText(ms[1..], format, depth + 1) + Indent(format, depth) + "}" + post)
  }

  lemma MembersTextFirst(ms: seq<Member>, format: bool, depth: nat)
    requires ms != []
    ensures MembersText(ms, format, depth) ==
            MemberText(ms[0], format, depth) + MemberEnd(|ms| == 1, format) + MembersText(ms[1..], format, depth)
  {
  }

  lemma Regroup(a: string, b: string, c: string, d: string, e: string, f: string, g: string, h: string)
    ensures ((a + b + c + d) + e + f) + g + "}" + h == a + (b + (c + (d + (e + (f + g + "}" + h)))))
  {
  }

  lemma MembersText0(ms: seq<Member>, format: bool, depth: nat, post: string)
    requires ms != []
    ensures MembersText(ms, format, depth + 1) + Indent(format, depth) + "}" + post
         == Indent(format, depth + 1) + MembersTail(ms, format, depth, post)
  {
    hide TextOf, Quoted, Repeat, MemberEnd, MembersText;
    var indent, key := Indent(format, depth + 1), Quoted(ms[0].key);
    var colon := if format then ":\t" else ":";
    var text, end := TextOf(ms[0].item, format, depth + 1), MemberEnd(|ms| == 1, format);
    var rest := MembersText(ms[1..], format, depth + 1);
    assert MembersText(ms, format, depth + 1) == MemberText(ms[0], format, depth + 1) + end + rest by {
      MembersTextFirst(ms, format, depth + 1);
    }
    assert MemberText(ms[0], format, depth + 1) == indent + key + colon + text;
    Regroup(indent, key, colon, text, end, rest, Indent(format, depth), post);
  }

  lemma {:induction false} MembersRoundTrip(ms: seq<Member>, format: bool, depth: nat, post: string)
    requires ms != []
    requires forall i :: 0 <= i < |ms| ==> NoNul(ms[i].key) && Plaintext(ms[i].item) && Printable(ms[i].item, depth + 1)
    ensures var text := MembersTail(ms, format, depth, post);
            Solid(text) && ParseMembers(text, depth + 1) == Done(ms, post)
    decreases ms, 1
  {
    hide TextOf, MembersText, MembersTail, MembersAfter, ParseValue, Plaintext, Printable, ParseMember, Quoted,
        NoNul, Indent, Line, Skip;
    var after := MembersAfter(ms, format, depth, post);
    var colon := (if format then ":\t" else ":") + (TextOf(ms[0].item, format, depth + 1) + after);
    assert EndsNumber(after) by { AfterEndsNumber(ms, format, depth, post); }
    ValueRoundTrip(ms[0].item, format, depth + 1, after);
    MemberRoundTrip(ms[0], format, depth + 1, after);
    QuotedIsSolid(ms[0].key, colon);
    assert MembersTail(ms, format, depth, post) == Quoted(ms[0].key) + colon by { TailText(ms, format, depth, post); }
    if |ms| > 1 {
      MembersRoundTrip(ms[1..], format, depth, post);
      assert ms == [ms[0]] + ms[1..];
      NextMember(ms, format, depth, post);
    } else {
      LastMember(ms, format, depth, post);
      assert ms == [ms[0]];
    }
  }

  lemma TailText(ms: seq<Member>, format: bool, depth: nat, post: string)
    requires ms != []
    ensures MembersTail(ms, format, depth, post)
         == Quoted(ms[0].key)
            + ((if format then ":\t" else ":")
                + (TextOf(ms[0].item, format, depth + 1) + MembersAfter(ms, format, depth, post)))
  {
  }

  lemma NextMember(ms: seq<Member>, format: bool, depth: nat, post: string)
    requires |ms| > 1
    requires Solid(MembersTail(ms[1..], format, depth, post))
    ensures var after := MembersAfter(ms, format, depth, post);
            Skip(after) == after && after != "" && after[0] == ','
            && ParseMembers(after[1..], depth + 1) == ParseMembers(MembersTail(ms[1..], format, depth, post), depth + 1)
  {
    hide TextOf, MembersText, MembersTail, ParseMembers, Quoted, Indent, ParseMember;
    var after, tail := MembersAfter(ms, format, depth, post), MembersTail(ms[1..], format, depth, post);
    var blanks := Line(format) + Indent(format, depth + 1);
    MembersText0(ms[1..], format, depth, post);
    assert after == "," + (blanks + tail);
    assert after[1..] == blanks + tail;
    IndentIsBlank(format, depth + 1);
    SkipBlanks(blanks, tail);
    SkipBlanks("", tail);
    assert "" + tail == tail;
    SkipFirstMember(after[1..], tail, depth + 1);
  }

  lemma IndentIsBlank(format: bool, depth: nat)
    ensures forall i :: 0 <= i < |Line(format) + Indent(format, depth)| ==>
            Blank((Line(format) + Indent(format, depth))[i])
  {
  }

  lemma LastMember(ms: seq<Member>, format: bool, depth: nat, post: string)
    requires |ms| == 1
    ensures Skip(MembersAfter(ms, format, depth, post)) == "}" + post && ("}" + post)[1..] == post
  {
    hide TextOf, MembersText, Quoted, Indent;
    NoMembers(format, depth + 1);
    assert ms[1..] == [];
    var blanks := Line(format) + Indent(format, depth);
    assert MembersAfter(ms, format, depth, post) == blanks + ("}" + post);
    IndentIsBlank(format, depth);
    SkipBlanks(blanks, "}" + post);
  }

  lemma AfterEndsNumber(ms: seq<Member>, format: bool, depth: nat, post: string)
    requires ms != []
    ensures EndsNumber(MembersAfter(ms, format, depth, post))
  {
  }

  lemma QuotedIsSolid(key: string, post: string)
    ensures Solid(Quoted(key) + post) && Skip(Quoted(key) + post) == Quoted(key) + post
  {
  }

  lemma SkipFirstMember(s: string, rest: string, depth: nat)
    requires Skip(s) == rest && Skip(rest) == rest && s != "" && rest != ""
    ensures ParseMembers(s, depth) == ParseMembers(rest, depth)
  {
    assert ParseMember(s, depth) == ParseMember(rest, depth);
  }

  lemma MemberRoundTrip(m: Member, format: bool, depth: nat, after: string)
    requires NoNul(m.key) && Plaintext(m.item)
    requires ParseValue(TextOf(m.item, format, depth) + after, depth) == Done(m.item, after)
    ensures ParseMember(Quoted(m.key) + ((if format then ":\t" else ":")
            + (TextOf(m.item, format, depth) + after)), depth)
         == Done(m, after)
  {
    hide ParseValue, Quoted, TextOf, ParseString;
    var value := TextOf(m.item, format, depth) + after;
    var colon := (if format then ":\t" else ":") + value;
    QuotedIsSolid(m.key, colon);
    StringRoundTrip(m.key, colon);
    TextIsSolid(m.item, format, depth, after);
    assert colon[0] == ':' && Skip(colon) == colon;
    assert colon[1..] == (if format then "\t" else "") + value;
    SkipBlanks(if format then "\t" else "", value);
  }

  /** Every text that cJSON_Print or cJSON_PrintUnformatted gives is parsed back to the tree it came from. */
  lemma ParsePrint(t: Json, format: bool, requireEnd: bool)
    requires Plaintext(t) && Printable(t, 0)
    ensures ParseText(TextOf(t, format, 0), requireEnd) == Done(t, NUL)
  {
    hide TextOf, ParseValue, Plaintext, Printable;
    var text := TextOf(t, format, 0) + NUL;
    TextIsSolid(t, format, 0, NUL);
    NoBom(t, format);
    ValueRoundTrip(t, format, 0, NUL);
  }

  lemma NoBom(t: Json, format: bool)
    requires Plaintext(t)
    ensures SkipBom(TextOf(t, format, 0) + NUL) == TextOf(t, format, 0) + NUL
  {
    var text := TextOf(t, format, 0) + NUL;
    if t.Number? { assert Signed(t.n)[0] == '-' || Pointer.IsDigit(Signed(t.n)[0]); }
    assert TextOf(t, format, 0)[0] as int < 0x80;
    assert |text| > 4 ==> text[..3][0] == text[0];
  }

  // ----- what has been parsed can be printed -----

  lemma {:induction false} CutHasNoNul(s: string)
    ensures NoNul(Cut(s))
    decreases |s|
  {
    if s == "" {
    } else {
      CutHasNoNul(s[1..]);
    }
  }

  lemma ParsedString(s: string)
    requires s != "" && ParseString(s).Done?
    ensures NoNul(ParseString(s).value)
  {
    hide Closing, Unescape;
    CutHasNoNul(Unescape(s[1..][..Closing(s[1..])]).value);
  }

  lemma {:induction false} ParsedValue(s: string, depth: nat)
    requires ParseValue(s, depth).Done?
    ensures Plaintext(ParseValue(s, depth).value) && Printable(ParseValue(s, depth).value, depth)
    decreases |s|, 0
  {
    hide ParseString, ParseNumber, ParseElements, ParseMembers, Skip;
    if StartsWith(s, "null") || StartsWith(s, "false") || StartsWith(s, "true") {
    } else if s[0] == '\"' {
      ParsedString(s);
    } else if s[0] == '[' {
      var p := Skip(s[1..]);
      if p[0] != ']' { ParsedElements(p, depth + 1); }
    } else if s[0] == '{' {
      var p := Skip(s[1..]);
      if p[0] != '}' { ParsedMembers(p, depth + 1); }
    } else {
      ParsedNumber(s);
    }
  }

  lemma ParsedNumber(s: string)
    requires s != "" && ParseNumber(s).Done?
    ensures ParseNumber(s).value.Number?
  {
  }

  lemma {:induction false} ParsedElements(s: string, depth: nat)
    requires ParseElements(s, depth).Done?
    ensures var items := ParseElements(s, depth).value;
            forall i :: 0 <= i < |items| ==> Plaintext(items[i]) && Printable(items[i], depth)
    decreases |s|, 1
  {
    hide ParseValue, Plaintext, Printable, Skip;
    var item := ParseValue(Skip(s), depth);
    ParsedValue(Skip(s), depth);
    var rest := Skip(item.rest);
    if rest[0] == ',' { ParsedElements(rest[1..], depth); }
  }

  lemma {:induction false} ParsedMembers(s: string, depth: nat)
    requires ParseMembers(s, depth).Done?
    ensures var ms := ParseMembers(s, depth).value;
            forall i :: 0 <= i < |ms| ==> NoNul(ms[i].key) && Plaintext(ms[i].item) && Printable(ms[i].item, depth)
    decreases |s|, 2
  {
    hide ParseMember, Plaintext, Printable, Skip, NoNul;
    var member := ParseMember(s, depth);
    ParsedMember(s, depth);
    var rest := Skip(member.rest);
    if rest[0] == ',' { ParsedMembers(rest[1..], depth); }
  }

  lemma {:induction false} ParsedMember(s: string, depth: nat)
    requires ParseMember(s, depth).Done?
    ensures var m := ParseMember(s, depth).value; NoNul(m.key) && Plaintext(m.item) && Printable(m.item, depth)
    decreases |s|, 1
  {
    hide ParseValue, ParseString, Plaintext, Printable, Skip, NoNul;
    ParsedString(Skip(s));
    ParsedValue(Skip(Skip(ParseString(Skip(s)).rest)[1..]), depth);
  }

  /** Whatever the parser accepts, from any buffer, can be printed, and the print is parsed to the same tree again. */
  lemma PrintParsed(content: string, requireEnd: bool, format: bool)
    requires ParseBuffer(content, requireEnd).Done?
    ensures var t := ParseBuffer(content, requireEnd).value;
            Printable(t, 0) && ParseText(TextOf(t, format, 0), requireEnd) == Done(t, NUL)
  {
    hide ParseValue, Skip, Printable, Plaintext, TextOf;
    ParsedValue(Skip(SkipBom(content)), 0);
    ParsePrint(ParseBuffer(content, requireEnd).value, format, requireEnd);
  }
}
