/** The printed text of a tree, byte for byte. */
module GrammarPrint {
  import opened CStrings
  import opened Json
  import opened Sorting
  import opened Text
  import opened TextStrings
  import opened TextRoundTrip
  import opened Grammar
  import opened GrammarParse
  import opened Options
  import Pointer

  // ----- the layout -----

  /** Which bytes are escaped, and how: a letter where there is one, lower case digits, and nothing else. */
  ghost predicate PieceFor(p: Piece, c: char) {
    if c == '\"' || c == '\\' then p == Short(c, c)
    else if c as int == 0x08 then p == Short('b', c)
    else if c as int == 0x09 then p == Short('t', c)
    else if c as int == 0x0A then p == Short('n', c)
    else if c as int == 0x0C then p == Short('f', c)
    else if c as int == 0x0D then p == Short('r', c)
    else if c as int < 0x20 then
      p.Unit? && p.code == c as int && HexCode(p.digits, c as int) && forall i :: 0 <= i < 4 ==>
          !('A' <= p.digits[i] <= 'F')
    else p == Plain(c)
  }

  ghost predicate PiecesFor(ps: seq<Piece>, s: string) {
    |ps| == |s| && forall i :: 0 <= i < |s| ==> PieceFor(ps[i], s[i])
  }

  /** A minus sign for negative numbers only, and no leading zero. */
  predicate IntFor(c: Syntax, n: Int32) {
    c.Int? && c.n == n && IntOk(n, c.minus, c.digits) && (c.minus <==> n < 0)
        && (c.digits[0] == '0' ==> |c.digits| == 1)
  }

  function NewLine(format: bool, tabs: nat): string {
    if format then ['\n'] + seq(tabs, i => '\t') else ""
  }

  /** How a tree is laid out: no blanks at all, or one member a line, a tab behind its colon, a blank behind a comma. */
  ghost predicate Laid(c: Syntax, t: Json, format: bool, depth: nat)
    decreases t, 0
  {
    match t
    case Invalid => false
    case Null => c == Word("null")
    case False => c == Word("false")
    case True => c == Word("true")
    case Number(n) => IntFor(c, n)
    case String(s) => c.Str? && PiecesFor(c.pieces, s)
    case Raw(s) => c == Verbatim(s)
    case Array(items) =>
      && c.Arr? && c.blank == "" && |c.elements| == |items|
      && forall i :: 0 <= i < |items| ==> ElementLaid(c.elements[i], items[i], i == 0, format, depth + 1)
    case Object(ms) =>
      && c.Obj? && c.blank == NewLine(format, depth) && |c.fields| == |ms|
      && forall i :: 0 <= i < |ms| ==> FieldLaid(c.fields[i], ms[i], i == |ms| - 1, format, depth + 1)
  }

  ghost predicate ElementLaid(e: Element, t: Json, first: bool, format: bool, depth: nat)
    decreases t, 1
  {
    e.before == (if first || !format then "" else " ") && e.after == "" && Laid(e.value, t, format, depth)
  }

  ghost predicate FieldLaid(f: Field, m: Member, last: bool, format: bool, depth: nat)
    requires depth > 0
    decreases m, 1
  {
    && f.before == NewLine(format, depth) && f.after == (if last then NewLine(format, depth - 1) else "")
    && f.colonBefore == "" && f.colonAfter == (if format then "\t" else "")
    && PiecesFor(f.key, m.key) && Laid(f.value, m.item, format, depth)
  }

  // ----- what is laid out is what is printed -----

  lemma LowerHex(digits: string, n: nat)
    requires HexCode(digits, n) && forall i :: 0 <= i < 4 ==> !('A' <= digits[i] <= 'F')
    ensures n < 0x100 ==> digits == "00" + [HexDigit(n / 16), HexDigit(n % 16)]
  {
    hide HexDigit, IsHex;
    LowerDigit(digits[0], n / 4096);
    LowerDigit(digits[1], n / 256 % 16);
    LowerDigit(digits[2], n / 16 % 16);
    LowerDigit(digits[3], n % 16);
    if n < 0x100 {
      assert n / 4096 == 0 && n / 256 % 16 == 0 && n / 16 % 16 == n / 16;
      assert HexDigit(0) == '0' by { ZeroDigit(); }
    }
  }

  lemma ZeroDigit()
    ensures HexDigit(0) == '0'
  {
  }

  lemma LowerDigit(c: char, d: nat)
    requires IsHex(c, d) && !('A' <= c <= 'F')
    ensures d < 16 && c == HexDigit(d)
  {
    HexValueExact(c);
  }

  lemma PieceWritten(p: Piece, c: char)
    requires PieceFor(p, c)
    ensures PieceText(p) == Escape(c)
  {
    hide HexCode, HexDigit;
    if p.Unit? {
      LowerHex(p.digits, c as int);
      assert "\\u" + ("00" + [HexDigit(c as int / 16), HexDigit(c as int % 16)])
          == "\\u00" + [HexDigit(c as int / 16), HexDigit(c as int % 16)];
    }
  }

  lemma {:induction false} PiecesWritten(ps: seq<Piece>, s: string)
    requires PiecesFor(ps, s)
    ensures PiecesText(ps) == Escaped(s)
    decreases |s|
  {
    hide PieceFor, PieceText, Escape;
    if s == "" {
    } else {
      PieceWritten(ps[0], s[0]);
      PiecesWritten(ps[1..], s[1..]);
    }
  }

  lemma {:induction false} DigitsOnce(s: string)
    requires s != "" && AllDigits(s) && (s[0] == '0' ==> |s| == 1)
    ensures Pointer.Digits(Decimal(s)) == s && (s[0] != '0' ==> Decimal(s) > 0)
    decreases |s|
  {
    hide Pointer.Digits, Decimal;
    var front, last := s[..|s| - 1], s[|s| - 1];
    var d := last as int - '0' as int;
    assert s == front + [last];
    DecimalAppend(front, last);
    if front == "" {
      NoDecimal();
    } else {
      DigitsOnce(front);
    }
    DigitsStep(Decimal(front), d);
  }

  lemma NoDecimal()
    ensures Decimal("") == 0
  {
  }

  lemma DigitsStep(n: nat, d: nat)
    requires d < 10
    ensures Pointer.Digits(10 * n + d) == (if n == 0 then "" else Pointer.Digits(n)) + [('0' as int + d) as char]
  {
  }

  lemma IntWritten(c: Syntax, n: Int32)
    requires IntFor(c, n)
    ensures Written(c) == Signed(n)
  {
    hide Decimal, Pointer.Digits;
    DigitsOnce(c.digits);
    assert "" + c.digits == c.digits;
  }

  lemma {:induction false} ElementsWritten(es: seq<Element>, items: seq<Json>, format: bool, depth: nat)
    requires |es| == |items| > 0
    requires forall i :: 0 <= i < |items| ==>
             es[i].after == "" && Written(es[i].value) == TextOf(items[i], format, depth)
    requires forall i :: 0 < i < |items| ==> es[i].before == if format then " " else ""
    ensures ElementsText(es) == es[0].before + ItemsText(items, format, depth)
    decreases |items|
  {
    hide Written, TextOf;
    var text, blank := TextOf(items[0], format, depth), if format then " " else "";
    if |items| > 1 {
      ElementsWritten(es[1..], items[1..], format, depth);
      ElementJoined(es[0].before, text, blank, ItemsText(items[1..], format, depth));
      assert Comma(format) == "," + blank;
    } else {
      LastElementJoined(es[0].before, text);
    }
  }

  lemma ElementJoined(before: string, text: string, blank: string, rest: string)
    ensures before + text + "" + ("," + (blank + rest)) == before + (text + (("," + blank) + rest))
  {
  }

  lemma LastElementJoined(before: string, text: string)
    ensures before + text + "" + "" == before + (text + "")
  {
  }

  lemma TabsAre(tabs: nat)
    ensures NewLine(true, tabs) == "\n" + Repeat('\t', tabs)
  {
  }

  lemma NewLineIs(format: bool, tabs: nat)
    ensures NewLine(format, tabs) == Line(format) + Indent(format, tabs)
  {
    TabsAre(tabs);
  }

  lemma KeyWritten(f: Field, m: Member, format: bool, depth: nat)
    requires PiecesText(f.key) == Escaped(m.key) && Written(f.value) == TextOf(m.item, format, depth)
    requires f.before == NewLine(format, depth) && f.colonBefore == "" && f.colonAfter == (if format then "\t" else "")
    ensures FieldText(f) == Line(format) + MemberText(m, format, depth) + f.after
  {
    hide Written, TextOf, Escaped, PiecesText, Repeat, NewLine;
    NewLineIs(format, depth);
    var text := TextOf(m.item, format, depth);
    assert StrText(f.key) == Quoted(m.key);
    assert (if format then ":\t" else ":") == ":" + f.colonAfter;
    MemberJoined(Line(format), Indent(format, depth), Quoted(m.key), ":", f.colonAfter, text, f.after);
  }

  lemma MemberJoined(a: string, b: string, c: string, d: string, e: string, f: string, g: string)
    ensures (a + b) + c + "" + d + e + f + g == a + (b + c + (d + e) + f) + g
  {
  }

  function LastLine(i: nat, ms: seq<Member>, format: bool, depth: nat): string {
    if i + 1 == |ms| then NewLine(format, depth) else ""
  }

  lemma {:induction false} FieldsWritten(fs: seq<Field>, ms: seq<Member>, format: bool, depth: nat)
    requires |fs| == |ms| > 0
    requires forall i :: 0 <= i < |ms| ==>
               FieldText(fs[i]) == Line(format) + MemberText(ms[i], format, depth + 1) + LastLine(i, ms, format, depth)
    ensures FieldsText(fs) == Line(format) + MembersText(ms, format, depth + 1) + Indent(format, depth)
    decreases |ms|
  {
    hide FieldText, MemberText, NewLine, Indent;
    var line, member := Line(format), MemberText(ms[0], format, depth + 1);
    if |ms| > 1 {
      FieldsWritten(fs[1..], ms[1..], format, depth);
      var rest := MembersText(ms[1..], format, depth + 1);
      LinesJoined(line, member, rest, Indent(format, depth));
      assert MemberEnd(false, format) == "," + line;
    } else {
      NewLineIs(format, depth);
      assert MemberEnd(true, format) == line && MembersText(ms[1..], format, depth + 1) == "";
      LastJoined(line, member, Indent(format, depth));
    }
  }

  lemma LinesJoined(line: string, member: string, rest: string, indent: string)
    ensures (line + member + "") + ("," + (line + rest + indent)) == line + (member + ("," + line) + rest) + indent
  {
  }

  lemma LastJoined(line: string, member: string, indent: string)
    ensures (line + member + (line + indent)) + "" == line + (member + line + "") + indent
  {
  }

  /** The text of a layout is what print_value writes. */
  lemma {:induction false} LaidWritten(c: Syntax, t: Json, format: bool, depth: nat)
    requires Laid(c, t, format, depth)
    ensures Written(c) == TextOf(t, format, depth)
    decreases t
  {
    match t
    case Number(n) => IntWritten(c, n);
    case String(s) => PiecesWritten(c.pieces, s);
    case Array(items) => ArrWritten(c, items, format, depth);
    case Object(ms) => ObjWritten(c, ms, format, depth);
    case _ =>
  }

  lemma {:induction false} ArrWritten(c: Syntax, items: seq<Json>, format: bool, depth: nat)
    requires Laid(c, Array(items), format, depth)
    ensures Written(c) == TextOf(Array(items), format, depth)
    decreases items
  {
    hide ElementsText, ItemsText;
    forall i | 0 <= i < |items|
      ensures Written(c.elements[i].value) == TextOf(items[i], format, depth + 1)
      ensures c.elements[i].after == "" && c.elements[i].before == if i == 0 || !format then "" else " "
    {
      assert ElementLaid(c.elements[i], items[i], i == 0, format, depth + 1);
      LaidWritten(c.elements[i].value, items[i], format, depth + 1);
    }
    if items == [] {
      NoItems(format, depth + 1);
    } else {
      ElementsWritten(c.elements, items, format, depth + 1);
      assert "" + ItemsText(items, format, depth + 1) == ItemsText(items, format, depth + 1);
    }
  }

  lemma {:induction false} ObjWritten(c: Syntax, ms: seq<Member>, format: bool, depth: nat)
    requires Laid(c, Object(ms), format, depth)
    ensures Written(c) == TextOf(Object(ms), format, depth)
    decreases ms
  {
    hide FieldsText, MembersText, FieldText, MemberText, NewLine, PiecesFor;
    forall i | 0 <= i < |ms|
      ensures FieldText(c.fields[i])
           == Line(format) + MemberText(ms[i], format, depth + 1) + LastLine(i, ms, format, depth)
    {
      var f := c.fields[i];
      assert FieldLaid(f, ms[i], i == |ms| - 1, format, depth + 1);
      LaidWritten(f.value, ms[i].item, format, depth + 1);
      PiecesWritten(f.key, ms[i].key);
      KeyWritten(f, ms[i], format, depth + 1);
    }
    if ms == [] {
      TextRoundTrip.NoMembers(format, depth + 1);
      NewLineIs(format, depth);
    } else {
      FieldsWritten(c.fields, ms, format, depth);
    }
    ObjectText(ms, format, depth, "");
    assert TextOf(Object(ms), format, depth) + "" == TextOf(Object(ms), format, depth);
  }

  // ----- every tree has its layout -----

  /** What can be printed: no node without a type. */
  predicate Typed(t: Json) {
    match t
    case Invalid => false
    case Array(items) => forall i :: 0 <= i < |items| ==> Typed(items[i])
    case Object(ms) => forall i :: 0 <= i < |ms| ==> Typed(ms[i].item)
    case _ => true
  }

  lemma LowerDigitIsHex(d: nat)
    requires d < 16
    ensures IsHex(HexDigit(d), d) && !('A' <= HexDigit(d) <= 'F')
  {
    if d < 10 {
      assert "0123456789abcdef"[d] == '0' + d as char;
    } else {
      assert "0123456789abcdef"[d] == 'a' + (d - 10) as char;
    }
  }

  lemma PieceLaid(c: char) returns (p: Piece)
    ensures PieceFor(p, c)
  {
    hide HexDigit, IsHex;
    var n := c as int;
    if c == '\"' || c == '\\' {
      p := Short(c, c);
    } else if n in {0x08, 0x09, 0x0A, 0x0C, 0x0D} {
      p := Short(if n == 0x08 then 'b' else if n == 0x09 then 't' else if n == 0x0A then 'n'
                 else if n == 0x0C then 'f' else 'r', c);
    } else if n < 0x20 {
      LowerDigitIsHex(0);
      LowerDigitIsHex(n / 16);
      LowerDigitIsHex(n % 16);
      assert n / 4096 == 0 && n / 256 % 16 == 0 && n / 16 % 16 == n / 16;
      p := Unit([HexDigit(0), HexDigit(0), HexDigit(n / 16), HexDigit(n % 16)], n);
    } else {
      p := Plain(c);
    }
  }

  lemma {:induction false} PiecesLaid(s: string) returns (ps: seq<Piece>)
    ensures PiecesFor(ps, s)
    decreases |s|
  {
    hide PieceFor;
    if s == "" {
      ps := [];
    } else {
      var p := PieceLaid(s[0]);
      var rest := PiecesLaid(s[1..]);
      ps := [p] + rest;
    }
  }

  lemma IntLaid(n: Int32) returns (c: Syntax)
    ensures IntFor(c, n)
  {
    hide Pointer.Digits, Decimal, NumberOf;
    var magnitude: nat := if n < 0 then 0 - n else n;
    var digits := Pointer.Digits(magnitude);
    NumberOfDigits(magnitude);
    assert AllDigits(digits) by { assert forall i :: 0 <= i < |digits| ==> Pointer.IsDigit(digits[i]); }
    DecimalIs(digits);
    Pointer.DigitsNoLeadingZero(magnitude);
    assert magnitude == 0 ==> digits == "0" by { ZeroDigits(); }
    c := Int(n, n < 0, digits);
  }

  lemma ZeroDigits()
    ensures Pointer.Digits(0) == "0"
  {
  }

  lemma {:induction false} Lay(t: Json, format: bool, depth: nat) returns (c: Syntax)
    requires Typed(t)
    ensures Laid(c, t, format, depth)
    decreases t, 0
  {
    match t
    case Null => c := Word("null");
    case False => c := Word("false");
    case True => c := Word("true");
    case Number(n) => c := IntLaid(n);
    case String(s) =>
      var ps := PiecesLaid(s);
      c := Str(ps);
    case Raw(s) => c := Verbatim(s);
    case Array(items) =>
      var es := LayElements(items, true, format, depth + 1);
      c := Arr("", es);
    case Object(ms) =>
      var fs := LayFields(ms, format, depth + 1);
      c := Obj(NewLine(format, depth), fs);
  }

  lemma {:induction false} LayElements(items: seq<Json>, first: bool, format: bool, depth: nat)
      returns (es: seq<Element>)
    requires forall i :: 0 <= i < |items| ==> Typed(items[i])
    ensures |es| == |items|
    ensures forall i :: 0 <= i < |items| ==> ElementLaid(es[i], items[i], first && i == 0, format, depth)
    decreases items, 1
  {
    hide Laid;
    if items == [] {
      es := [];
    } else {
      var c := Lay(items[0], format, depth);
      var rest := LayElements(items[1..], false, format, depth);
      es := [Element(if first || !format then "" else " ", c, "")] + rest;
    }
  }

  lemma {:induction false} LayFields(ms: seq<Member>, format: bool, depth: nat) returns (fs: seq<Field>)
    requires depth > 0 && forall i :: 0 <= i < |ms| ==> Typed(ms[i].item)
    ensures |fs| == |ms|
    ensures forall i :: 0 <= i < |ms| ==> FieldLaid(fs[i], ms[i], i == |ms| - 1, format, depth)
    decreases ms, 1
  {
    hide Laid, PiecesFor, NewLine;
    if ms == [] {
      fs := [];
    } else {
      var c := Lay(ms[0].item, format, depth);
      var key := PiecesLaid(ms[0].key);
      var rest := LayFields(ms[1..], format, depth);
      fs := [Field(NewLine(format, depth), key, "", if format then "\t" else "", c,
                   if |ms| == 1 then NewLine(format, depth - 1) else "")] + rest;
      assert forall i :: 0 < i < |ms| ==> fs[i] == rest[i - 1] && ms[i] == ms[1..][i - 1];
    }
  }

  /** The text of a tree is that of its layout, and no other. */
  lemma PrintExact(t: Json, format: bool, depth: nat, text: string)
    requires Typed(t)
    ensures text == TextOf(t, format, depth) <==> exists c :: Laid(c, t, format, depth) && text == Written(c)
  {
    hide Laid, Written, TextOf;
    var c := Lay(t, format, depth);
    LaidWritten(c, t, format, depth);
    if c' :| Laid(c', t, format, depth) && text == Written(c') {
      LaidWritten(c', t, format, depth);
    }
  }

  /** Without raw nodes the layout is a text of RFC 8259 in both formats. */
  lemma {:induction false} LaidOk(c: Syntax, t: Json, format: bool, depth: nat)
    requires Laid(c, t, format, depth) && Plaintext(t) && Printable(t, depth)
    ensures Ok(c, depth) && TreeOf(c) == t
    decreases t, 2
  {
    hide Laid, Plaintext, Printable, Ok, TreeOf;
    if t.Array? {
      ArrOkFor(c, t.items, format, depth);
    } else if t.Object? {
      ObjOkFor(c, t.members, format, depth);
    } else {
      LeafOkFor(c, t, format, depth);
    }
  }

  lemma LeafOkFor(c: Syntax, t: Json, format: bool, depth: nat)
    requires Laid(c, t, format, depth) && Plaintext(t) && !t.Array? && !t.Object?
    ensures Ok(c, depth) && TreeOf(c) == t
  {
    hide PiecesFor, StrOk, StrValue, Decimal;
    if t.String? { PiecesOkFor(c.pieces, t.s); }
  }

  lemma {:induction false} ArrOkFor(c: Syntax, items: seq<Json>, format: bool, depth: nat)
    requires Laid(c, Array(items), format, depth) && Plaintext(Array(items)) && Printable(Array(items), depth)
    ensures Ok(c, depth) && TreeOf(c) == Array(items)
    decreases items, 2
  {
    hide ElementLaid, ElementsOk, ItemsOf;
    ElementsOkFor(c.elements, items, format, depth + 1, 0);
  }

  lemma {:induction false} ObjOkFor(c: Syntax, ms: seq<Member>, format: bool, depth: nat)
    requires Laid(c, Object(ms), format, depth) && Plaintext(Object(ms)) && Printable(Object(ms), depth)
    ensures Ok(c, depth) && TreeOf(c) == Object(ms)
    decreases ms, 2
  {
    hide FieldLaid, FieldsOk, MembersOf, NewLine;
    BlankLines(format, depth);
    FieldsOkFor(c.fields, ms, format, depth + 1);
  }

  lemma PieceOkFor(p: Piece, c: char)
    requires PieceFor(p, c)
    ensures PieceOk(p) && StrictPiece(p) && PieceBytes(p) == [c]
  {
    hide HexCode, BadHex;
  }

  lemma {:induction false} PiecesBytesFor(ps: seq<Piece>, s: string)
    requires PiecesFor(ps, s)
    ensures PiecesBytes(ps) == s
    decreases |s|
  {
    hide PieceFor, PieceBytes;
    if s != "" {
      PieceOkFor(ps[0], s[0]);
      PiecesBytesFor(ps[1..], s[1..]);
    }
  }

  lemma PiecesOkFor(ps: seq<Piece>, s: string)
    requires PiecesFor(ps, s) && NoNul(s)
    ensures StrOk(ps) && StrValue(ps) == s
  {
    hide PieceFor, PieceOk, StrictPiece, PieceBytes, PiecesBytes;
    forall i | 0 <= i < |ps| ensures PieceOk(ps[i]) && StrictPiece(ps[i]) { PieceOkFor(ps[i], s[i]); }
    StrictStr(ps);
    PiecesBytesFor(ps, s);
    CutNothing(s);
  }

  lemma {:induction false} ElementsOkFor(es: seq<Element>, items: seq<Json>, format: bool, depth: nat, at: nat)
    requires |es| == |items| && forall i :: 0 <= i < |items| ==>
               ElementLaid(es[i], items[i], at + i == 0, format, depth) && Plaintext(items[i])
                   && Printable(items[i], depth)
    ensures ElementsOk(es, depth) && ItemsOf(es) == items
    decreases items, 1
  {
    hide Laid, Plaintext, Printable, Ok, TreeOf;
    if items == [] {
    } else {
      LaidOk(es[0].value, items[0], format, depth);
      ElementsOkFor(es[1..], items[1..], format, depth, at + 1);
    }
  }

  lemma BlankLines(format: bool, tabs: nat)
    ensures Blanks(NewLine(format, tabs))
  {
  }

  lemma {:induction false} FieldsOkFor(fs: seq<Field>, ms: seq<Member>, format: bool, depth: nat)
    requires depth > 0 && |fs| == |ms| && forall i :: 0 <= i < |ms| ==>
               && FieldLaid(fs[i], ms[i], i == |ms| - 1, format, depth)
               && NoNul(ms[i].key) && Plaintext(ms[i].item) && Printable(ms[i].item, depth)
    ensures FieldsOk(fs, depth) && MembersOf(fs) == ms
    decreases ms, 1
  {
    hide Laid, Plaintext, Printable, Ok, TreeOf, PiecesFor, StrOk, StrValue, NewLine, NoNul;
    if ms == [] {
    } else {
      LaidOk(fs[0].value, ms[0].item, format, depth);
      PiecesOkFor(fs[0].key, ms[0].key);
      BlankLines(format, depth);
      BlankLines(format, depth - 1);
      FieldsOkFor(fs[1..], ms[1..], format, depth);
    }
  }
}
