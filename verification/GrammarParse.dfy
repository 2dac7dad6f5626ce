/** The parser accepts exactly the texts of the grammar, each as its tree. */
module GrammarParse {
  import opened CStrings
  import opened Json
  import opened Sorting
  import opened Text
  import opened TextStrings
  import opened TextRoundTrip
  import opened Grammar
  import opened Options
  import Pointer

  // ----- strings -----

  lemma UnshortExact(letter: char)
    ensures Unshort(letter).Some? ==> ShortFor(letter, Unshort(letter).value)
    ensures forall c :: ShortFor(letter, c) ==> Unshort(letter) == Some(c) && letter != 'u'
  {
  }

  lemma UnitLiteral(digits: string, code: CodePoint, post: string)
    requires PieceOk(Unit(digits, code))
    ensures Literal("\\u" + digits + post) == Some((Utf8(code), 6)) && |digits| == 4
  {
    hide Hex4, Utf8, HexCode, BadHex;
    var s := "\\u" + digits + post;
    assert |digits| == 4 by { FourDigits(digits, code); }
    assert s[2..6] == digits;
    Hex4Exact(digits);
  }

  lemma FourDigits(digits: string, code: nat)
    requires HexCode(digits, code) || BadHex(digits)
    ensures |digits| == 4 && (HexCode(digits, code) ==> code < 0x10000)
  {
  }

  lemma PairLiteral(high: string, low: string, code: CodePoint, post: string)
    requires PieceOk(Pair(high, low, code))
    ensures Literal("\\u" + high + "\\u" + low + post) == Some((Utf8(code), 12)) && |high| == 4 && |low| == 4
  {
    hide Utf8, Literal, HexCode;
    FourDigits(high, 0xD800 + (code - 0x10000) / 0x400);
    FourDigits(low, 0xDC00 + (code - 0x10000) % 0x400);
    var escape := "\\u" + high + "\\u" + low;
    assert escape[2..6] == high && escape[8..] == low && escape[6..8] == "\\u" && escape[..2] == "\\u";
    EscapeLiteral(code, escape, post);
  }

  /** One piece at the front of a string. */
  lemma UnescapePiece(p: Piece, post: string)
    requires PieceOk(p) && (p.Lone? ==> post == "")
    ensures Unescape(PieceText(p) + post) == Prepend(PieceBytes(p), Unescape(post))
  {
    hide Literal, Utf8, HexCode, BadHex, Unshort, ShortFor;
    var s := PieceText(p) + post;
    match p
    case Plain(c) => assert s[1..] == post;
    case Short(letter, c) =>
      UnshortExact(letter);
      assert s[0] == '\\' && s[1] == letter && s[2..] == post;
    case Unit(digits, code) =>
      UnitLiteral(digits, code, post);
      assert s[0] == '\\' && s[1] == 'u' && s[6..] == post;
    case Pair(high, low, code) =>
      PairLiteral(high, low, code, post);
      assert s[0] == '\\' && s[1] == 'u' && s[12..] == post;
    case Lone =>
      assert s == "\\" && s[0] == '\\';
      assert Unshort('\"') == Some('\"') by { UnshortExact('\"'); assert ShortFor('\"', '\"') by { QuoteIsShort(); } }
      assert Unescape(post) == Some("") && "\"" + "" == "\"";
  }

  lemma QuoteIsShort()
    ensures ShortFor('\"', '\"')
  {
  }

  lemma {:induction false} UnescapePieces(ps: seq<Piece>)
    requires PiecesOk(ps)
    ensures Unescape(PiecesText(ps)) == Some(PiecesBytes(ps))
    decreases |ps|
  {
    hide PieceOk, PieceText, PieceBytes;
    if ps == [] {
    } else {
      UnescapePieces(ps[1..]);
      if ps[0].Lone? { assert ps[1..] == []; }
      UnescapePiece(ps[0], PiecesText(ps[1..]));
    }
  }

  /** The first piece of a string that is accepted. */
  lemma FirstPiece(s: string) returns (p: Piece, post: string)
    requires s != "" && Unescape(s).Some?
    ensures PieceOk(p) && (p.Lone? ==> post == "") && PieceText(p) + post == s && |post| < |s|
    ensures Unescape(post).Some? && Unescape(s) == Some(PieceBytes(p) + Unescape(post).value)
  {
    hide Utf8, HexCode, BadHex, Unshort, ShortFor;
    if s[0] != '\\' {
      p, post := Plain(s[0]), s[1..];
    } else if |s| == 1 {
      p, post := Lone, "";
      UnescapePiece(p, post);
    } else if s[1] == 'u' {
      p, post := FirstEscape(s);
    } else {
      UnshortExact(s[1]);
      p, post := Short(s[1], Unshort(s[1]).value), s[2..];
    }
  }

  lemma FirstEscape(s: string) returns (p: Piece, post: string)
    requires |s| > 1 && s[0] == '\\' && s[1] == 'u' && Unescape(s).Some?
    ensures PieceOk(p) && !p.Lone? && PieceText(p) + post == s && |post| < |s|
    ensures Unescape(post).Some? && Unescape(s) == Some(PieceBytes(p) + Unescape(post).value)
  {
    hide Hex4, HexCode, BadHex;
    var first := Hex4(s[2..6]);
    Hex4Exact(s[2..6]);
    if 0xD800 <= first <= 0xDBFF {
      var second := Hex4(s[8..12]);
      Hex4Exact(s[8..12]);
      var code := 0x10000 + (first - 0xD800) * 0x400 + (second - 0xDC00);
      assert (code - 0x10000) / 0x400 == first - 0xD800 && (code - 0x10000) % 0x400 == second - 0xDC00;
      p, post := Pair(s[2..6], s[8..12], code), s[12..];
    } else {
      p, post := Unit(s[2..6], first), s[6..];
    }
  }

  lemma {:induction false} PiecesOfString(s: string) returns (ps: seq<Piece>)
    requires Unescape(s).Some?
    ensures PiecesOk(ps) && PiecesText(ps) == s && PiecesBytes(ps) == Unescape(s).value
    decreases |s|
  {
    hide PieceOk, PieceText, PieceBytes, Unescape;
    if s == "" {
      ps := [];
      UnescapePieces([]);
    } else {
      var p, post := FirstPiece(s);
      var rest := PiecesOfString(post);
      if p.Lone? { assert rest == [] by { NoPieces(rest); } }
      ps := [p] + rest;
      assert ps[1..] == rest;
    }
  }

  lemma NoPieces(ps: seq<Piece>)
    ensures PiecesText(ps) == "" <==> ps == []
  {
    if ps != [] { assert |PieceText(ps[0])| > 0; }
  }

  lemma {:induction false} ClosingBehind(s: string, post: string)
    requires Inside(s)
    ensures Closing(s + "\"" + post) == |s|
    decreases |s|
  {
    var t := s + "\"" + post;
    if s == "" {
    } else if s[0] == '\\' {
      ClosingBehind(s[2..], post);
      assert t[2..] == s[2..] + "\"" + post;
    } else {
      ClosingBehind(s[1..], post);
      assert t[1..] == s[1..] + "\"" + post;
    }
  }

  lemma {:induction false} ClosedInside(s: string)
    requires Closing(s) < |s|
    ensures Inside(s[..Closing(s)])
    decreases |s|
  {
    var n := Closing(s);
    if s[0] == '\"' {
    } else if s[0] == '\\' {
      ClosedInside(s[2..]);
      assert s[..n][2..] == s[2..][..n - 2];
    } else {
      ClosedInside(s[1..]);
      assert s[..n][1..] == s[1..][..n - 1];
    }
  }

  lemma StrParses(ps: seq<Piece>, post: string)
    requires StrOk(ps)
    ensures ParseString(StrText(ps) + post) == Done(StrValue(ps), post)
  {
    hide PiecesText, PiecesBytes, PiecesOk, Unescape, Closing, Inside;
    var text, inner := StrText(ps) + post, PiecesText(ps);
    ClosingBehind(inner, post);
    UnescapePieces(ps);
    assert text[1..] == inner + "\"" + post && text[1..][..|inner|] == inner && text[|inner| + 2..] == post;
  }

  lemma StrAccepted(s: string) returns (ps: seq<Piece>)
    requires s != "" && ParseString(s).Done?
    ensures StrOk(ps) && s == StrText(ps) + ParseString(s).rest && ParseString(s).value == StrValue(ps)
  {
    hide PiecesText, PiecesBytes, PiecesOk, Unescape, Closing, Inside;
    var n := Closing(s[1..]);
    ClosedInside(s[1..]);
    ps := PiecesOfString(s[1..][..n]);
    assert s == "\"" + s[1..][..n] + "\"" + s[n + 2..];
  }

  // ----- ints -----

  lemma {:induction false} DecimalAppend(s: string, c: char)
    requires AllDigits(s) && Digit(c)
    ensures AllDigits(s + [c]) && Decimal(s + [c]) == 10 * Decimal(s) + (c as int - '0' as int)
    decreases |s|
  {
    if s == "" {
      assert ([c])[1..] == "" && "" + [c] == [c];
      assert Power(0) == 1;
    } else {
      DecimalAppend(s[1..], c);
      assert (s + [c])[1..] == s[1..] + [c];
      assert Power(|s|) == 10 * Power(|s| - 1);
      TensOut(s[0] as int - '0' as int, Power(|s| - 1));
    }
  }

  lemma TensOut(d: nat, p: nat)
    ensures d * (10 * p) == 10 * (d * p)
  {
  }

  lemma {:induction false} DecimalIs(s: string)
    requires AllDigits(s)
    ensures Decimal(s) == NumberOf(s)
    decreases |s|
  {
    if s != "" {
      var front, last := s[..|s| - 1], s[|s| - 1];
      DecimalIs(front);
      DecimalAppend(front, last);
      assert s == front + [last];
    }
  }

  lemma IntParses(n: Int32, minus: bool, digits: string, post: string)
    requires IntOk(n, minus, digits) && Ends(Int(n, minus, digits), post)
    ensures ParseNumber((if minus then "-" else "") + digits + post) == Done(Number(n), post)
  {
    hide Run, NumberOf, Decimal;
    DecimalIs(digits);
    RunOf(digits, post);
    var text := (if minus then "-" else "") + digits + post;
    var sign := if minus then 1 else 0;
    assert text[sign..] == digits + post && text[sign + |digits|..] == post;
    assert Digit(digits[0]) && text[0] == (if minus then '-' else digits[0]);
    assert minus ==> text[1..][..|digits|] == digits;
    assert !minus ==> text[..|digits|] == digits;
  }

  /** The sign, the digits and the rest of a number that is accepted. */
  lemma NumberParts(s: string) returns (minus: bool, body: string)
    requires s != "" && ParseNumber(s).Done?
    ensures s == (if minus then "-" else "") + body && (minus <==> s[0] == '-')
    ensures Run(body) > 0 && (body[Run(body)..] == "" || body[Run(body)..][0] !in ".eE")
    ensures var n := NumberOf(body[..Run(body)]);
            -0x8000_0000 <= (if minus then 0 - n else n) < 0x8000_0000
            && ParseNumber(s) == Done(Number(if minus then 0 - n else n), body[Run(body)..])
  {
    hide Run, NumberOf;
    minus := s[0] == '-';
    if minus {
      body := s[1..];
      assert s[1 + Run(body)..] == body[Run(body)..];
    } else {
      body := s;
      assert s[0..] == s;
    }
  }

  lemma IntAccepted(s: string) returns (c: Syntax)
    requires s != "" && ParseNumber(s).Done?
    ensures c.Int? && IntOk(c.n, c.minus, c.digits) && Ends(c, ParseNumber(s).rest)
    ensures s == Written(c) + ParseNumber(s).rest && ParseNumber(s).value == Number(c.n)
  {
    hide Run, NumberOf, Decimal, Ends, ParseNumber;
    var minus, body := NumberParts(s);
    var digits, rest := body[..Run(body)], body[Run(body)..];
    DigitsRun(body);
    c := Int(ParseNumber(s).value.n, minus, digits);
    RunEnds(body, c);
    assert s == (if minus then "-" else "") + digits + rest;
  }

  lemma DigitsRun(s: string)
    ensures AllDigits(s[..Run(s)]) && Decimal(s[..Run(s)]) == NumberOf(s[..Run(s)])
  {
    assert forall i :: 0 <= i < Run(s) ==> Pointer.IsDigit(s[i]);
    DecimalIs(s[..Run(s)]);
  }

  lemma RunEnds(s: string, c: Syntax)
    requires s[Run(s)..] == "" || s[Run(s)..][0] !in ".eE"
    ensures Ends(c, s[Run(s)..])
  {
  }

  // ----- values: every text of the grammar is parsed -----

  /** The first character of a value. */
  lemma ValueStart(c: Syntax, depth: nat, post: string)
    requires Ok(c, depth)
    ensures Solid(Written(c) + post)
  {
  }

  lemma BlanksSkipped(blanks: string, s: string)
    requires Blanks(blanks) && s != "" && !Blank(s[0])
    ensures Skip(blanks + s) == s && Skip(s) == s
  {
    SkipBlanks(blanks, s);
    SkipBlanks("", s);
    assert "" + s == s;
  }

  /** Parsing a value behind blanks. */
  lemma {:induction false} SyntaxParses(c: Syntax, depth: nat, post: string)
    requires Ok(c, depth) && Ends(c, post)
    ensures ParseValue(Written(c) + post, depth) == Done(TreeOf(c), post)
    decreases c, 0
  {
    hide ParseValue;
    match c
    case Word(word) => WordParses(word, depth, post);
    case Int(n, minus, digits) => IntValue(n, minus, digits, depth, post);
    case Str(ps) => StrValueParses(ps, depth, post);
    case Arr(blank, es) => ArrParses(blank, es, depth, post);
    case Obj(blank, fs) => ObjParses(blank, fs, depth, post);
  }

  lemma WordParses(word: string, depth: nat, post: string)
    requires Ok(Word(word), depth)
    ensures ParseValue(word + post, depth) == Done(TreeOf(Word(word)), post)
  {
    assert (word + post)[..|word|] == word && (word + post)[|word|..] == post;
    assert (word + post)[0] == word[0];
  }

  lemma IntValue(n: Int32, minus: bool, digits: string, depth: nat, post: string)
    requires IntOk(n, minus, digits) && Ends(Int(n, minus, digits), post)
    ensures ParseValue(Written(Int(n, minus, digits)) + post, depth) == Done(Number(n), post)
  {
    hide ParseNumber;
    IntParses(n, minus, digits, post);
    var text := (if minus then "-" else "") + digits + post;
    assert Digit(digits[0]) && text[0] == (if minus then '-' else digits[0]);
    NoWord(text);
  }

  lemma StrValueParses(ps: seq<Piece>, depth: nat, post: string)
    requires StrOk(ps)
    ensures ParseValue(StrText(ps) + post, depth) == Done(String(StrValue(ps)), post)
  {
    hide ParseString;
    StrParses(ps, post);
    assert (StrText(ps) + post)[0] == '\"';
    NoWord(StrText(ps) + post);
  }

  lemma BracketParsed(start: string, depth: nat)
    ensures ParseValue("[" + start, depth) ==
            if depth >= NESTING_LIMIT || Skip(start) == "" then Failed
            else if Skip(start)[0] == ']' then Done(Array([]), Skip(start)[1..])
            else
              var items := ParseElements(Skip(start), depth + 1);
              if items.Done? then Done(Array(items.value), items.rest)
              else if items.Failed? then Failed else Beyond
  {
    hide Skip, ParseMembers, ParseString, ParseNumber, ParseElements;
    NoWord("[" + start);
    assert ("[" + start)[1..] == start;
  }

  lemma {:induction false} ArrParses(blank: string, es: seq<Element>, depth: nat, post: string)
    requires Ok(Arr(blank, es), depth)
    ensures ParseValue(Written(Arr(blank, es)) + post, depth) == Done(Array(ItemsOf(es)), post)
    decreases es, 2
  {
    hide ParseValue, Skip, ParseElements, ElementsText;
    var start := (if es == [] then blank else ElementsText(es)) + "]" + post;
    assert Written(Arr(blank, es)) + post == "[" + start;
    BracketParsed(start, depth);
    if es == [] {
      BlanksSkipped(blank, "]" + post);
      assert start == blank + ("]" + post) && ("]" + post)[1..] == post;
    } else {
      ElementsParse(es, depth + 1, post);
    }
  }

  /** What stands behind an element: the comma and the others, or nothing. */
  function MoreElements(es: seq<Element>): string
    requires es != []
  {
    if |es| == 1 then "" else "," + ElementsText(es[1..])
  }

  lemma Regrouped(a: string, b: string, c: string, d: string, e: string, f: string)
    ensures (a + b + c + d) + e + f == a + (b + (c + (d + e + f)))
  {
  }

  lemma Behind(more: string, rest: string, close: string, post: string, one: bool)
    requires |close| == 1 && more == if one then "" else "," + rest
    ensures var end := more + close + post;
            && end != "" && end[0] == (if one then close[0] else ',')
            && end[1..] == if one then post else rest + close + post
  {
    if one {
      assert "" + close + post == close + post;
    } else {
      assert ("," + rest) + close + post == "," + (rest + close + post);
    }
  }

  lemma ElementsSplit(es: seq<Element>, post: string)
    requires es != []
    ensures var end := MoreElements(es) + "]" + post;
            && ElementsText(es) + "]" + post == es[0].before + (Written(es[0].value) + (es[0].after + end))
            && end != "" && end[0] == (if |es| == 1 then ']' else ',')
            && end[1..] == if |es| == 1 then post else ElementsText(es[1..]) + "]" + post
  {
    hide Written;
    Regrouped(es[0].before, Written(es[0].value), es[0].after, MoreElements(es), "]", post);
    Behind(MoreElements(es), if |es| == 1 then "" else ElementsText(es[1..]), "]", post, |es| == 1);
  }

  /** The elements from behind a bracket or a comma, whether blanks are skipped before or not. */
  lemma {:induction false} ElementsParse(es: seq<Element>, depth: nat, post: string)
    requires es != [] && ElementsOk(es, depth)
    ensures var text := ElementsText(es) + "]" + post;
            && ParseElements(text, depth) == Done(ItemsOf(es), post)
            && ParseElements(Skip(text), depth) == Done(ItemsOf(es), post)
            && Solid(Skip(text))
    decreases es, 1
  {
    hide ParseValue, Skip, ElementsText, Written, Solid, TreeOf;
    var e, text := es[0], ElementsText(es) + "]" + post;
    var end := MoreElements(es) + "]" + post;
    ElementsSplit(es, post);
    var rest := e.after + end;
    ValueStart(e.value, depth, rest);
    SolidStart(Written(e.value) + rest);
    BlanksSkipped(e.before, Written(e.value) + rest);
    AfterBlanks(e.value, e.after, end);
    SyntaxParses(e.value, depth, rest);
    BlanksSkipped(e.after, end);
    if |es| > 1 {
      ElementsParse(es[1..], depth, post);
    } else {
      assert ItemsOf(es) == [TreeOf(e.value)] + [] == [TreeOf(e.value)];
    }
  }

  lemma SolidStart(s: string)
    requires Solid(s)
    ensures s != "" && !Blank(s[0]) && s[0] != ']' && s[0] != '}'
  {
  }

  /** Blanks and punctuation end a number. */
  lemma AfterBlanks(c: Syntax, after: string, end: string)
    requires Blanks(after) && end != "" && end[0] in ",]}"
    ensures Ends(c, after + end)
  {
    assert after == "" ==> after + end == end;
    assert after != "" ==> (after + end)[0] == after[0];
  }

  lemma {:induction false} ObjParses(blank: string, fs: seq<Field>, depth: nat, post: string)
    requires Ok(Obj(blank, fs), depth)
    ensures ParseValue(Written(Obj(blank, fs)) + post, depth) == Done(Object(MembersOf(fs)), post)
    decreases fs, 4
  {
    hide ParseValue, Skip, ParseMembers, FieldsText;
    var start := (if fs == [] then blank else FieldsText(fs)) + "}" + post;
    assert Written(Obj(blank, fs)) + post == "{" + start;
    BraceParsed(start, depth);
    if fs == [] {
      BlanksSkipped(blank, "}" + post);
      assert start == blank + ("}" + post) && ("}" + post)[1..] == post;
    } else {
      FieldsParse(fs, depth + 1, post);
    }
  }

  function MoreFields(fs: seq<Field>): string
    requires fs != []
  {
    if |fs| == 1 then "" else "," + FieldsText(fs[1..])
  }

  lemma FieldsSplit(fs: seq<Field>, post: string)
    requires fs != []
    ensures var end := MoreFields(fs) + "}" + post;
            && FieldsText(fs) + "}" + post == FieldText(fs[0]) + end
            && end != "" && end[0] == (if |fs| == 1 then '}' else ',')
            && end[1..] == if |fs| == 1 then post else FieldsText(fs[1..]) + "}" + post
  {
    hide FieldText;
    Regrouped("", "", FieldText(fs[0]), MoreFields(fs), "}", post);
    assert "" + "" + FieldText(fs[0]) == FieldText(fs[0]);
    assert "" + ("" + (FieldText(fs[0]) + (MoreFields(fs) + "}" + post))) ==
        FieldText(fs[0]) + (MoreFields(fs) + "}" + post);
    Behind(MoreFields(fs), if |fs| == 1 then "" else FieldsText(fs[1..]), "}", post, |fs| == 1);
  }

  lemma {:induction false} FieldsParse(fs: seq<Field>, depth: nat, post: string)
    requires fs != [] && FieldsOk(fs, depth)
    ensures var text := FieldsText(fs) + "}" + post;
            && ParseMembers(text, depth) == Done(MembersOf(fs), post)
            && ParseMembers(Skip(text), depth) == Done(MembersOf(fs), post)
            && Solid(Skip(text))
    decreases fs, 3
  {
    hide ParseMember, Skip, FieldsText, FieldText, Solid, TreeOf, FieldOk, StrValue;
    var f, text := fs[0], FieldsText(fs) + "}" + post;
    var end := MoreFields(fs) + "}" + post;
    FieldsSplit(fs, post);
    FieldParses(f, depth, end);
    assert Blanks(f.after) by { FieldBlanks(f, depth); }
    BlanksSkipped(f.after, end);
    if |fs| > 1 {
      FieldsParse(fs[1..], depth, post);
    } else {
      var m := Keyed(StrValue(f.key), TreeOf(f.value));
      assert MembersOf(fs) == [m] + [] == [m];
    }
  }

  lemma FieldBlanks(f: Field, depth: nat)
    requires FieldOk(f, depth)
    ensures Blanks(f.after)
  {
  }

  lemma FieldSplit(f: Field, end: string)
    ensures FieldText(f) + end ==
            f.before + (StrText(f.key) + (f.colonBefore
                + (":" + (f.colonAfter + (Written(f.value) + (f.after + end))))))
  {
    hide Written, StrText;
  }

  lemma {:induction false} FieldParses(f: Field, depth: nat, end: string)
    requires FieldOk(f, depth) && end != "" && end[0] in ",}"
    ensures var text := FieldText(f) + end;
            && ParseMember(text, depth) == Done(Keyed(StrValue(f.key), TreeOf(f.value)), f.after + end)
            && ParseMember(Skip(text), depth) == Done(Keyed(StrValue(f.key), TreeOf(f.value)), f.after + end)
            && Solid(Skip(text))
    decreases f, 3
  {
    hide ParseValue, ParseString, Skip, FieldText, Written, Solid, TreeOf, StrText, StrValue, StrOk;
    var rest := f.after + end;
    var value := Written(f.value) + rest;
    var colon := ":" + (f.colonAfter + value);
    var key := StrText(f.key) + (f.colonBefore + colon);
    FieldSplit(f, end);
    ValueStart(f.value, depth, rest);
    SolidStart(value);
    AfterBlanks(f.value, f.after, end);
    SyntaxParses(f.value, depth, rest);
    StrParses(f.key, f.colonBefore + colon);
    QuoteFirst(f.key, f.colonBefore + colon);
    BlanksSkipped(f.before, key);
    BlanksSkipped(f.colonBefore, colon);
    BlanksSkipped(f.colonAfter, value);
    assert colon[1..] == f.colonAfter + value;
  }

  lemma QuoteFirst(ps: seq<Piece>, post: string)
    ensures var s := StrText(ps) + post; s != "" && s[0] == '\"' && !Blank(s[0]) && Solid(s)
  {
  }

  // ----- values: whatever is parsed is a text of the grammar -----

  lemma {:induction false} SkipSplit(s: string) returns (blanks: string)
    ensures Blanks(blanks) && s == blanks + Skip(s)
    decreases |s|
  {
    if |s| > 1 && Blank(s[0]) {
      blanks := SkipSplit(s[1..]);
      blanks := [s[0]] + blanks;
    } else {
      blanks := "";
    }
  }

  lemma {:induction false} Accepted(s: string, depth: nat) returns (c: Syntax)
    requires ParseValue(s, depth).Done?
    ensures Ok(c, depth) && Ends(c, ParseValue(s, depth).rest)
    ensures s == Written(c) + ParseValue(s, depth).rest && TreeOf(c) == ParseValue(s, depth).value
    decreases |s|, 2
  {
    hide ParseString, ParseNumber, ParseElements, ParseMembers, Skip;
    if StartsWith(s, "null") {
      c := Word("null");
      assert s == s[..4] + s[4..];
    } else if StartsWith(s, "false") {
      c := Word("false");
      assert s == s[..5] + s[5..];
    } else if StartsWith(s, "true") {
      c := Word("true");
      assert s == s[..4] + s[4..];
    } else if s[0] == '\"' {
      var ps := StrAccepted(s);
      c := Str(ps);
    } else if s[0] == '[' {
      c := ArrAccepted(s, depth);
    } else if s[0] == '{' {
      c := ObjAccepted(s, depth);
    } else {
      c := IntAccepted(s);
    }
  }

  lemma {:induction false} ArrAccepted(s: string, depth: nat) returns (c: Syntax)
    requires s != "" && s[0] == '[' && ParseValue(s, depth).Done?
    ensures c.Arr? && Ok(c, depth)
    ensures s == Written(c) + ParseValue(s, depth).rest && TreeOf(c) == ParseValue(s, depth).value
    decreases |s|, 1
  {
    hide Skip, ParseElements, ParseValue, ElementsText;
    var start := s[1..];
    assert s == "[" + start;
    BracketParsed(start, depth);
    var blanks := SkipSplit(start);
    var p := Skip(start);
    if p[0] == ']' {
      c := Arr(blanks, []);
      assert s == "[" + blanks + "]" + p[1..];
    } else {
      var es := ElementsAccepted(p, depth + 1);
      var all := [es[0].(before := blanks + es[0].before)] + es[1..];
      BlanksBefore(es, blanks);
      c := Arr("", all);
      var post := ParseElements(p, depth + 1).rest;
      assert s == "[" + (blanks + (ElementsText(es) + "]" + post));
      assert s == "[" + ElementsText(all) + "]" + post;
    }
  }

  lemma BlanksBefore(es: seq<Element>, blanks: string)
    requires es != []
    ensures var all := [es[0].(before := blanks + es[0].before)] + es[1..];
            ElementsText(all) == blanks + ElementsText(es) && ItemsOf(all) == ItemsOf(es)
  {
    hide Written;
    var all := [es[0].(before := blanks + es[0].before)] + es[1..];
    assert all[1..] == es[1..];
    BlanksJoined(blanks, es[0].before, Written(es[0].value), es[0].after, MoreElements(es));
    hide ElementsText, MoreElements;
  }

  lemma BlanksJoined(blanks: string, before: string, value: string, after: string, more: string)
    ensures (blanks + before) + value + after + more == blanks + (before + value + after + more)
  {
  }

  lemma {:induction false} ElementsAccepted(s: string, depth: nat) returns (es: seq<Element>)
    requires ParseElements(s, depth).Done?
    ensures es != [] && ElementsOk(es, depth) && ItemsOf(es) == ParseElements(s, depth).value
    ensures s == ElementsText(es) + "]" + ParseElements(s, depth).rest
    decreases |s|, 3
  {
    hide ParseValue, Skip, ElementsText, Written, TreeOf;
    var before := SkipSplit(s);
    var item := ParseValue(Skip(s), depth);
    var c := Accepted(Skip(s), depth);
    var after := SkipSplit(item.rest);
    var rest := Skip(item.rest);
    var post := ParseElements(s, depth).rest;
    if rest[0] == ',' {
      var tail := ElementsAccepted(rest[1..], depth);
      es := [Element(before, c, after)] + tail;
      assert es[1..] == tail;
      ElementsSplit(es, post);
      assert rest == MoreElements(es) + "]" + post;
    } else {
      es := [Element(before, c, after)];
      assert ItemsOf(es) == [TreeOf(c)] + [] == [TreeOf(c)];
      ElementsSplit(es, post);
      assert rest == MoreElements(es) + "]" + post;
    }
  }

  lemma {:induction false} ObjAccepted(s: string, depth: nat) returns (c: Syntax)
    requires s != "" && s[0] == '{' && ParseValue(s, depth).Done?
    ensures c.Obj? && Ok(c, depth)
    ensures s == Written(c) + ParseValue(s, depth).rest && TreeOf(c) == ParseValue(s, depth).value
    decreases |s|, 1
  {
    hide Skip, ParseMembers, ParseValue, FieldsText;
    var start := s[1..];
    assert s == "{" + start;
    BraceParsed(start, depth);
    var blanks := SkipSplit(start);
    var p := Skip(start);
    if p[0] == '}' {
      c := Obj(blanks, []);
      assert s == "{" + blanks + "}" + p[1..];
    } else {
      var fs := FieldsAccepted(p, depth + 1);
      var all := [fs[0].(before := blanks + fs[0].before)] + fs[1..];
      BlanksBeforeFields(fs, blanks, depth + 1);
      c := Obj("", all);
      var post := ParseMembers(p, depth + 1).rest;
      assert s == "{" + (blanks + (FieldsText(fs) + "}" + post));
      assert s == "{" + FieldsText(all) + "}" + post;
    }
  }

  lemma BlanksBeforeFields(fs: seq<Field>, blanks: string, depth: nat)
    requires fs != [] && FieldsOk(fs, depth) && Blanks(blanks)
    ensures var all := [fs[0].(before := blanks + fs[0].before)] + fs[1..];
            FieldsText(all) == blanks + FieldsText(fs) && MembersOf(all) == MembersOf(fs) && FieldsOk(all, depth)
  {
    hide Written, StrText, StrOk, Ok, StrValue, TreeOf;
    var f := fs[0].(before := blanks + fs[0].before);
    var all := [f] + fs[1..];
    assert all[1..] == fs[1..];
    FieldSplit(f, "");
    FieldSplit(fs[0], "");
    assert FieldText(f) + "" == FieldText(f) && FieldText(fs[0]) + "" == FieldText(fs[0]);
    assert FieldText(f) == blanks + FieldText(fs[0]);
  }

  lemma {:induction false} FieldsAccepted(s: string, depth: nat) returns (fs: seq<Field>)
    requires ParseMembers(s, depth).Done?
    ensures fs != [] && FieldsOk(fs, depth) && MembersOf(fs) == ParseMembers(s, depth).value
    ensures s == FieldsText(fs) + "}" + ParseMembers(s, depth).rest
    decreases |s|, 4
  {
    hide ParseMember, Skip, FieldsText, FieldText, TreeOf, StrValue, FieldOk;
    var f := FieldAccepted(s, depth);
    var member := ParseMember(s, depth);
    var after := SkipSplit(member.rest);
    var rest := Skip(member.rest);
    var post := ParseMembers(s, depth).rest;
    f := BlanksBehind(f, after, rest, depth);
    if rest[0] == ',' {
      var tail := FieldsAccepted(rest[1..], depth);
      fs := [f] + tail;
      assert fs[1..] == tail;
      FieldsSplit(fs, post);
      assert rest == MoreFields(fs) + "}" + post;
    } else {
      fs := [f];
      assert MembersOf(fs) == [member.value] + [] == [member.value];
      FieldsSplit(fs, post);
      assert rest == MoreFields(fs) + "}" + post;
    }
  }

  lemma BlanksBehind(f: Field, after: string, rest: string, depth: nat) returns (g: Field)
    requires FieldOk(f, depth) && f.after == "" && Blanks(after)
    ensures g == f.(after := after) && FieldOk(g, depth) && FieldText(g) + rest == FieldText(f) + (after + rest)
  {
    hide Written, StrText, StrOk, Ok;
    g := f.(after := after);
    FieldSplit(g, rest);
    FieldSplit(f, after + rest);
    assert "" + (after + rest) == after + rest;
  }

  lemma {:induction false} FieldAccepted(s: string, depth: nat) returns (f: Field)
    requires ParseMember(s, depth).Done?
    ensures FieldOk(f, depth) && f.after == ""
    ensures ParseMember(s, depth).value == Keyed(StrValue(f.key), TreeOf(f.value))
    ensures s == FieldText(f) + ParseMember(s, depth).rest
    decreases |s|, 3
  {
    hide ParseValue, ParseString, Skip, FieldText, Written, TreeOf, StrText, StrValue, StrOk;
    var before := SkipSplit(s);
    var key := StrAccepted(Skip(s));
    var behind := ParseString(Skip(s)).rest;
    var colonBefore := SkipSplit(behind);
    var colon := Skip(behind);
    var colonAfter := SkipSplit(colon[1..]);
    var c := Accepted(Skip(colon[1..]), depth);
    var end := ParseMember(s, depth).rest;
    f := Field(before, key, colonBefore, colonAfter, c, "");
    FieldSplit(f, end);
    assert "" + end == end && colon == ":" + colon[1..];
  }

  // ----- the parser as a whole -----

  /** A value at the front of a text, and what is left of the text. */
  ghost predicate Reads(s: string, depth: nat, c: Syntax, rest: string) {
    Ok(c, depth) && Ends(c, rest) && s == Written(c) + rest
  }

  /** parse_value accepts exactly the texts that begin with a value of the grammar, as its tree. */
  lemma ParseExact(s: string, depth: nat, t: Json, rest: string)
    ensures ParseValue(s, depth) == Done(t, rest) <==> exists c :: Reads(s, depth, c, rest) && TreeOf(c) == t
  {
    hide ParseValue, Ok, Written, TreeOf, Ends;
    if ParseValue(s, depth) == Done(t, rest) {
      var c := Accepted(s, depth);
      assert Reads(s, depth, c, rest);
    }
    if c :| Reads(s, depth, c, rest) && TreeOf(c) == t {
      SyntaxParses(c, depth, rest);
    }
  }

  /** A text of RFC 8259: an optional byte order mark, blanks, a value, and blanks to the end. */
  ghost predicate Document(text: string, c: Syntax) {
    exists mark: string, before: string, after: string ::
      && (mark == "" || mark == BOM) && Blanks(before) && Blanks(after) && Ok(c, 0)
      && text == mark + before + Written(c) + after
  }

  lemma MarkSkipped(mark: string, s: string)
    requires (mark == "" || mark == BOM) && |s| > 1 && s[0] as int < 0x80
    ensures SkipBom(mark + s) == s
  {
    if mark == "" {
      assert mark + s == s && (|s| > 4 ==> s[..3][0] == s[0]);
    } else {
      assert (mark + s)[..3] == BOM && (mark + s)[3..] == s;
    }
  }

  /** Every document is parsed to its tree, to its end. */
  lemma DocumentParses(text: string, c: Syntax)
    requires Document(text, c)
    ensures ParseText(text, true) == Done(TreeOf(c), NUL)
  {
    hide ParseValue, Written, TreeOf, Skip, SkipBom, Ok;
    var mark: string, before: string, after: string :|
      && (mark == "" || mark == BOM) && Blanks(before) && Blanks(after) && Ok(c, 0)
      && text == mark + before + Written(c) + after;
    var rest := after + NUL;
    var value := Written(c) + rest;
    AsciiStart(c, 0, rest);
    assert |value| > 1 by { LongEnough(c, 0); }
    assert text + NUL == mark + (before + value);
    assert before != "" ==> (before + value)[0] == before[0];
    assert before == "" ==> before + value == value;
    MarkSkipped(mark, before + value);
    BlanksSkipped(before, value);
    AfterNul(c, after);
    SyntaxParses(c, 0, rest);
    NulLeft(after);
  }

  lemma AsciiStart(c: Syntax, depth: nat, post: string)
    requires Ok(c, depth)
    ensures var s := Written(c) + post; s != "" && s[0] as int < 0x80 && !Blank(s[0])
  {
    assert c.Int? ==> Digit(c.digits[0]);
  }

  lemma LongEnough(c: Syntax, depth: nat)
    requires Ok(c, depth)
    ensures |Written(c)| >= 1
  {
  }

  lemma AfterNul(c: Syntax, after: string)
    requires Blanks(after)
    ensures Ends(c, after + NUL)
  {
    assert after == "" ==> after + NUL == NUL;
    assert after != "" ==> (after + NUL)[0] == after[0];
  }

  lemma {:induction false} NulLeft(after: string)
    requires Blanks(after)
    ensures Skip(after + NUL) == NUL
    decreases |after|
  {
    if after == "" {
      assert after + NUL == NUL;
    } else {
      NulLeft(after[1..]);
      assert (after + NUL)[1..] == after[1..] + NUL;
    }
  }

  lemma MarkTaken(s: string) returns (mark: string)
    ensures (mark == "" || mark == BOM) && s == mark + SkipBom(s)
  {
    if |s| > 4 && StartsWith(s, BOM) {
      mark := BOM;
      assert s == s[..3] + s[3..];
    } else {
      mark := "";
    }
  }

  lemma DocumentAccepted(text: string) returns (c: Syntax)
    requires NoNul(text) && ParseText(text, true).Done?
    ensures Document(text, c) && TreeOf(c) == ParseText(text, true).value
  {
    hide ParseValue, Written, TreeOf, Skip, SkipBom, Ok;
    var content := text + NUL;
    var mark := MarkTaken(content);
    var before := SkipSplit(SkipBom(content));
    c := Accepted(Skip(SkipBom(content)), 0);
    var rest := ParseValue(Skip(SkipBom(content)), 0).rest;
    var after := SkipSplit(rest);
    var end, front := Skip(rest), mark + before + Written(c) + after;
    assert content == front + end;
    NulEnds(text, front, end);
  }

  lemma NulEnds(text: string, front: string, end: string)
    requires NoNul(text) && text + NUL == front + end && end != ""
    ensures end[0] as int == 0 ==> text == front
  {
    if |front| < |text| {
      assert (text + NUL)[|front|] == text[|front|] && (front + end)[|front|] == end[0];
    } else {
      assert |front| == |text|;
      assert text == (text + NUL)[..|text|] == front;
    }
  }

  /** A text is parsed to its end exactly when it is a document, and then as the tree that it writes. */
  lemma DocumentExact(text: string, t: Json)
    requires NoNul(text)
    ensures (ParseText(text, true).Done? && ParseText(text, true).value == t)
        <==> exists c :: Document(text, c) && TreeOf(c) == t
  {
    hide ParseText, Document, TreeOf;
    if ParseText(text, true).Done? && ParseText(text, true).value == t {
      var c := DocumentAccepted(text);
    }
    if c :| Document(text, c) && TreeOf(c) == t {
      DocumentParses(text, c);
    }
  }

  // ----- texts of RFC 8259 itself -----

  /** Section 7 of RFC 8259: no quote, backslash or control character stands for itself. */
  ghost predicate StrictPiece(p: Piece) {
    match p
    case Plain(c) => c != '\"' && c != '\\' && c as int >= 0x20
    case Unit(digits, code) => HexCode(digits, code)
    case Lone => false
    case _ => true
  }

  lemma HexPlain(digits: string, code: nat)
    requires HexCode(digits, code)
    ensures |digits| == 4 && forall i :: 0 <= i < 4 ==> digits[i] != '\"' && digits[i] != '\\'
  {
  }

  lemma {:induction false} InsideBehind(plain: string, post: string)
    requires forall i :: 0 <= i < |plain| ==> plain[i] != '\"' && plain[i] != '\\'
    ensures Inside(plain + post) == Inside(post)
    decreases |plain|
  {
    if plain == "" {
      assert plain + post == post;
    } else {
      InsideBehind(plain[1..], post);
      assert (plain + post)[1..] == plain[1..] + post;
    }
  }

  lemma EscapeInside(digits: string, code: nat, post: string)
    requires HexCode(digits, code)
    ensures Inside("\\u" + digits + post) == Inside(post)
  {
    HexPlain(digits, code);
    InsideBehind(digits, post);
    assert ("\\u" + digits + post)[2..] == digits + post;
  }

  lemma PieceInside(p: Piece, post: string)
    requires PieceOk(p) && StrictPiece(p)
    ensures Inside(PieceText(p) + post) == Inside(post)
  {
    hide HexCode, BadHex, ShortFor;
    var s := PieceText(p) + post;
    match p
    case Plain(c) => assert s[1..] == post;
    case Short(letter, c) => assert s[2..] == post;
    case Unit(digits, code) => EscapeInside(digits, code, post);
    case Pair(high, low, code) =>
      PairInside(high, low, code, post);
  }

  lemma PairInside(high: string, low: string, code: CodePoint, post: string)
    requires PieceOk(Pair(high, low, code))
    ensures Inside("\\u" + high + "\\u" + low + post) == Inside(post)
  {
    hide HexCode;
    EscapeInside(high, 0xD800 + (code - 0x10000) / 0x400, "\\u" + low + post);
    EscapeInside(low, 0xDC00 + (code - 0x10000) % 0x400, post);
    assert "\\u" + high + "\\u" + low + post == "\\u" + high + ("\\u" + low + post);
  }

  /** Strings of RFC 8259 need no further condition. */
  lemma {:induction false} StrictStr(ps: seq<Piece>)
    requires forall i :: 0 <= i < |ps| ==> PieceOk(ps[i]) && StrictPiece(ps[i])
    ensures StrOk(ps)
    decreases |ps|
  {
    hide PieceOk, StrictPiece, PieceText;
    if ps == [] {
    } else {
      StrictStr(ps[1..]);
      PieceInside(ps[0], PiecesText(ps[1..]));
      assert forall i :: 0 <= i < |ps| ==> !ps[i].Lone? by { NoneLone(ps); }
    }
  }

  lemma NoneLone(ps: seq<Piece>)
    requires forall i :: 0 <= i < |ps| ==> StrictPiece(ps[i])
    ensures forall i :: 0 <= i < |ps| ==> !ps[i].Lone?
  {
  }
}
