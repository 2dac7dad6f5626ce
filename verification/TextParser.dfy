/** The recursive-descent parser, moving its offset and depth through one buffer. */
module TextParser {
  import opened CStrings
  import opened Json
  import opened Sorting
  import opened Text
  import opened TextStrings
  import Pointer
  import opened Options

  /** utf16_literal_to_utf8: the bytes go to `output` from `at` on; zero when it fails. */
  method WriteLiteral(s: string, output: array<char>, at: nat) returns (sequenceLength: nat, length: nat)
    requires Literal(s).Some? ==> at + |Literal(s).value.0| <= output.Length
    modifies output
    ensures Literal(s).None? ==> sequenceLength == 0 && output[..] == old(output[..])
    ensures Literal(s).Some? ==>
              var bytes := Literal(s).value.0;
              && sequenceLength == Literal(s).value.1 && length == |bytes|
              && output[..at + length] == old(output[..at]) + bytes
  {
    hide Hex4;
    sequenceLength, length := 0, 0;
    if |s| < 6 { return; }
    var first := Hex4(s[2..6]);
    if 0xDC00 <= first <= 0xDFFF { return; }
    var code := first;
    if 0xD800 <= first <= 0xDBFF {
      if |s| - 6 < 6 { return; }
      if s[6] != '\\' || s[7] != 'u' { return; }
      var second := Hex4(s[8..12]);
      if second < 0xDC00 || second > 0xDFFF { return; }
      code := 0x10000 + (first - 0xD800) * 0x400 + (second - 0xDC00);
      sequenceLength := 12;
    } else {
      sequenceLength := 6;
    }
    length := WriteUtf8(code, output, at);
  }

  /** The continuation bytes from the last to the second, then the first byte. */
  method WriteUtf8(code: nat, output: array<char>, at: nat) returns (length: nat)
    requires code <= 0x10FFFF && at + |Utf8(code)| <= output.Length
    modifies output
    ensures length == |Utf8(code)| && output[..at + length] == old(output[..at]) + Utf8(code)
  {
    var mark := 0;
    if code < 0x80 {
      length := 1;
    } else if code < 0x800 {
      length, mark := 2, 0xC0;
    } else if code < 0x10000 {
      length, mark := 3, 0xE0;
    } else {
      length, mark := 4, 0xF0;
    }
    var position, left := length - 1, code;
    while position > 0
      invariant 0 <= position < length == |Utf8(code)| && 0 <= left
      invariant output[..at] == old(output[..at])
      invariant forall i :: position < i < length ==> output[at + i] == Utf8(code)[i]
      invariant left == Shifted(code, length - 1 - position)
    {
      output[at + position] := Continuation(left);
      left := left / 64;
      position := position - 1;
      assert output[at + position + 1] == Utf8(code)[position + 1];
    }
    output[at] := (mark + left) as char;
    assert output[at] == Utf8(code)[0];
  }

  /** The code point after some right shifts by six. */
  function Shifted(code: nat, steps: nat): nat {
    if steps == 0 then code
    else if steps == 1 then code / 64
    else if steps == 2 then code / 4096
    else code / 262144
  }

  /** buffer_skip_whitespace's position, offset included. */
  lemma SkipFrom(content: string, i: nat)
    requires i < |content|
    ensures Skip(content[i..]) == if i + 1 < |content| && Blank(content[i]) then Skip(content[i + 1..])
            else content[i..]
  {
  }

  lemma ClosingFrom(content: string, i: nat)
    requires i < |content|
    ensures Closing(content[i..]) ==
            if content[i] == '\"' then 0
            else if content[i] == '\\' then if i + 1 == |content| then 1 else 2 + Closing(content[i + 2..])
            else 1 + Closing(content[i + 1..])
  {
  }

  lemma ScanEscape(s: string, p: nat)
    requires p + 2 <= |s| && !Scan(s, p).inside && s[p] == '\\'
    ensures Scan(s, p + 2) == Pass(Scan(s, p).escapes + 1, false)
  {
  }

  lemma {:induction false} ScanPrefix(s: string, n: nat, p: nat)
    requires p <= n <= |s|
    ensures Scan(s[..n], p) == Scan(s, p)
    decreases p
  {
    if p > 0 {
      ScanPrefix(s, n, p - 1);
    }
  }

  /** The first pass: the closing quote and the escapes on the way; |s| when there is no closing quote. */
  method FirstPass(s: string) returns (end: nat, skipped: nat)
    ensures end == Closing(s)
    ensures end < |s| ==> Scan(s[..end], end) == Pass(skipped, false)
  {
    end, skipped := 0, 0;
    assert s[0..] == s;
    while end < |s| && s[end] != '\"'
      invariant end <= |s| && Scan(s, end) == Pass(skipped, false)
      invariant Closing(s) == end + Closing(s[end..])
    {
      ClosingFrom(s, end);
      if s[end] == '\\' {
        if end + 1 >= |s| {
          end := |s|;
          return;
        }
        ScanEscape(s, end);
        skipped := skipped + 1;
        end := end + 1;
      }
      end := end + 1;
    }
    if end < |s| {
      ClosingFrom(s, end);
      ScanPrefix(s, end, end);
    } else {
      assert s[end..] == "";
    }
  }

  lemma UnescapeFrom(s: string, p: nat)
    requires p < |s|
    ensures s[p] != '\\' ==> Unescape(s[p..]) == Prepend([s[p]], Unescape(s[p + 1..]))
    ensures s[p] == '\\' ==>
              var c := if p + 1 < |s| then s[p + 1] else '\"';
              if c == 'u' then
                var l := Literal(s[p..]);
                Unescape(s[p..]) == if l.None? then None else Prepend(l.value.0, Unescape(s[p + l.value.1..]))
              else
                var d := Unshort(c);
                Unescape(s[p..]) == if d.None? then None
                    else Prepend([d.value], if p + 1 < |s| then Unescape(s[p + 2..]) else Some(""))
  {
  }

  lemma PrependAssociates(a: string, b: string, r: Option<string>)
    ensures Prepend(a, Prepend(b, r)) == Prepend(a + b, r)
  {
    if r.Some? { assert a + (b + r.value) == (a + b) + r.value; }
  }

  /** What the second pass has still to decode; a last backslash takes it past the quote. */
  function Rest(s: string, p: nat): Option<string> {
    if p <= |s| then Unescape(s[p..]) else Some("")
  }

  /** One step of the second pass: a plain byte or an escape. */
  method DecodeOne(s: string, p: nat, output: array<char>, length: nat)
    returns (ok: bool, next: nat, newLength: nat, ghost piece: string)
    requires p < |s| && !Scan(s, |s|).inside && length <= AllowedAt(s, p) && length <= output.Length == Allowed(s) + 2
    modifies output
    ensures !ok ==> Unescape(s[p..]).None?
    ensures ok ==> p < next <= |s| + 1 && Unescape(s[p..]) == Prepend(piece, Rest(s, next))
    ensures ok ==> newLength <= Allowed(s) && (next <= |s| ==> newLength <= AllowedAt(s, next))
    ensures ok ==> newLength <= output.Length && output[..newLength] == old(output[..length]) + piece
  {
    hide Literal, Unshort, Unescape, Scan;
    UnescapeFrom(s, p);
    AllowedGrows(s, p, 0);
    ok, next, newLength, piece := true, p + 1, length, "";
    if s[p] != '\\' {
      AllowedGrows(s, p, 1);
      PlainByte(s, p);
      output[length] := s[p];
      newLength, piece := length + 1, [s[p]];
      return;
    }
    var c := if p + 1 < |s| then s[p + 1] else '\"';
    if c == 'u' {
      if Literal(s[p..]).Some? { AllowedGrows(s, p, Literal(s[p..]).value.1); }
      var sequenceLength, n := WriteLiteral(s[p..], output, length);
      if sequenceLength == 0 { return false, p, length, ""; }
      next, newLength, piece := p + sequenceLength, length + n, Literal(s[p..]).value.0;
    } else {
      var d := Unshort(c);
      if d.None? { return false, p, length, ""; }
      if p + 1 < |s| { AllowedGrows(s, p, 2); } else { LastBackslash(s); }
      output[length] := d.value;
      next, newLength, piece := p + 2, length + 1, [d.value];
    }
  }

  lemma PlainByte(s: string, p: nat)
    requires p < |s| && s[p] != '\\'
    ensures AllowedAt(s, p + 1) == AllowedAt(s, p) + 1
  {
  }

  /** The second pass: every byte lands in the allocation of the first pass, terminator included. */
  method SecondPass(s: string, skipped: nat) returns (ok: bool, output: array<char>, length: nat)
    requires Scan(s, |s|) == Pass(skipped, false)
    ensures fresh(output) && output.Length == |s| + 1 - skipped + 1
    ensures ok <==> Unescape(s).Some?
    ensures ok ==> length < output.Length && output[..length] == Unescape(s).value && output[length] as int == 0
  {
    hide Scan, Unescape;
    EscapesInStretch(s, 0, |s|);
    assert Scan(s, 0) == Pass(0, false) by { ScanStart(s); }
    var allocationLength := |s| + 1 - skipped;
    output := new char[allocationLength + 1];
    length := 0;
    var p := 0;
    assert s[0..] == s && output[..0] == "";
    PrependNothing(Unescape(s));
    while p < |s|
      invariant length <= Allowed(s) && (p <= |s| ==> length <= AllowedAt(s, p))
      invariant p <= |s| + 1 && output.Length == Allowed(s) + 2
      invariant Unescape(s) == Prepend(output[..length], Rest(s, p))
      decreases |s| + 1 - p
    {
      ghost var written := output[..length];
      ghost var piece;
      ok, p, length, piece := DecodeOne(s, p, output, length);
      if !ok { return; }
      PrependAssociates(written, piece, Rest(s, p));
    }
    NothingLeft(s, p);
    assert output[..length] + "" == output[..length];
    output[length] := 0 as char;
    return true, output, length;
  }

  lemma ScanStart(s: string)
    ensures Scan(s, 0) == Pass(0, false)
  {
  }

  lemma NothingLeft(s: string, p: nat)
    requires p >= |s|
    ensures Rest(s, p) == Some("")
  {
  }

  lemma PrependNothing(r: Option<string>)
    ensures Prepend("", r) == r
  {
    if r.Some? { assert "" + r.value == r.value; }
  }

  /** parse_buffer */
  class Parser {
    const content: string
    var offset: nat
    var depth: nat

    constructor (text: string)
      ensures content == text && offset == 0 && depth == 0
    {
      content, offset, depth := text, 0, 0;
    }

    /** What is still to be read. */
    function Left(): string
      requires offset <= |content|
      reads this
    {
      content[offset..]
    }

    /** buffer_skip_whitespace */
    method SkipWhitespace()
      requires offset <= |content|
      modifies this`offset
      ensures offset <= |content| && Left() == Skip(old(Left())) && old(offset) <= offset
      ensures old(offset) < |content| ==> offset < |content|
    {
      if offset >= |content| { return; }
      ghost var start := offset;
      while offset < |content| && Blank(content[offset])
        invariant start <= offset <= |content|
        invariant Skip(old(Left())) == if offset < |content| then Skip(content[offset..]) else content[|content| - 1..]
      {
        SkipFrom(content, offset);
        if offset + 1 == |content| { assert content[offset..] == content[|content| - 1..]; }
        offset := offset + 1;
      }
      if offset < |content| { SkipFrom(content, offset); }
      if offset == |content| {
        offset := offset - 1;
      }
    }

    /** parse_string; the C string that the bytes make is the value. */
    method ParseString() returns (r: Parsed<string>)
      requires offset < |content|
      modifies this`offset
      ensures r == Text.ParseString(old(Left()))
      ensures r.Done? ==> old(offset) < offset <= |content| && r.rest == Left()
    {
      hide Scan, Unescape, Closing, Cut;
      if content[offset] != '\"' { return Failed; }
      assert content[offset..][1..] == content[offset + 1..];
      var s := content[offset + 1..];
      var end, skipped := FirstPass(s);
      if end >= |s| { return Failed; }
      var ok, output, length := SecondPass(s[..end], skipped);
      if !ok { return Failed; }
      assert content[offset..][end + 2..] == content[offset + end + 2..];
      offset := offset + 1 + end + 1;
      r := Done(Cut(output[..length]), content[offset..]);
    }

    /** parse_number: the run of digits after a sign, as strtod takes an integer. */
    method ParseNumber() returns (r: Parsed<Json>)
      requires offset < |content|
      modifies this`offset
      ensures r == Text.ParseNumber(old(Left()))
      ensures r.Done? ==> old(offset) < offset <= |content| && r.rest == Left()
    {
      hide Run, NumberOf, Pointer.IsDigit, Text.ParseNumber;
      ghost var s := content[offset..];
      var sign := if content[offset] == '-' then 1 else 0;
      var text := content[offset + sign..];
      assert s[sign..] == text;
      var n, value := ReadDigits(text);
      var rest := text[n..];
      assert s[sign + n..] == rest;
      NumberInText(s, sign, n, text);
      if rest != "" && rest[0] in ".eE" { return Beyond; }
      if n == 0 { return Failed; }
      var number: int := value;
      if sign == 1 { number := 0 - number; }
      if !(-0x8000_0000 <= number < 0x8000_0000) { return Beyond; }
      offset := offset + sign + n;
      assert content[offset..] == rest;
      return Done(Number(number), rest);
    }

    /** strncmp against a word that can be read. */
    method Reads(word: string) returns (b: bool)
      requires offset <= |content|
      ensures b == StartsWith(Left(), word)
    {
      if offset + |word| > |content| { return false; }
      var i := 0;
      while i < |word|
        invariant i <= |word|
        invariant content[offset..][..i] == word[..i]
      {
        if content[offset + i] != word[i] {
          assert content[offset..][..|word|][i] != word[i];
          return false;
        }
        i := i + 1;
      }
      assert word[..i] == word;
      return true;
    }

    method ParseValue() returns (r: Parsed<Json>)
      requires offset <= |content|
      modifies this
      ensures r == Text.ParseValue(old(Left()), old(depth))
      ensures r.Done? ==> old(offset) < offset <= |content| && r.rest == Left() && depth == old(depth)
      decreases |content| - offset, 1
    {
      ghost var s := Left();
      hide Text.ParseString, Text.ParseNumber, Text.ParseElements, Text.ParseMembers;
      var isNull := Reads("null");
      if isNull {
        offset := offset + 4;
        return Done(Null, content[offset..]);
      }
      var isFalse := Reads("false");
      if isFalse {
        offset := offset + 5;
        return Done(False, content[offset..]);
      }
      var isTrue := Reads("true");
      if isTrue {
        offset := offset + 4;
        return Done(True, content[offset..]);
      }
      if offset >= |content| { return Failed; }
      assert s[0] == content[offset];
      if content[offset] == '\"' {
        var bytes := ParseString();
        match bytes
        case Done(value, rest) => return Done(String(value), rest);
        case Failed => return Failed;
        case Beyond => return Beyond;
      }
      if content[offset] == '-' || Pointer.IsDigit(content[offset]) {
        r := ParseNumber();
        return;
      }
      if content[offset] == '[' {
        r := ParseArray();
        return;
      }
      if content[offset] == '{' {
        r := ParseObject();
        return;
      }
      return Failed;
    }

    /** parse_array */
    method ParseArray() returns (r: Parsed<Json>)
      requires offset < |content| && content[offset] == '['
      modifies this
      ensures r == Text.ParseValue(old(Left()), old(depth))
      ensures r.Done? ==> old(offset) < offset <= |content| && r.rest == Left() && depth == old(depth)
      decreases |content| - offset, 0
    {
      hide Text.ParseElements, Skip;
      ghost var s := Left();
      assert s[0] == '[' && s[1..] == content[offset + 1..];
      NoWord(s);
      if depth >= NESTING_LIMIT { return Failed; }
      depth := depth + 1;
      offset := offset + 1;
      SkipWhitespace();
      ghost var p := Left();
      if offset >= |content| { return Failed; }
      if content[offset] == ']' {
        assert p[1..] == content[offset + 1..];
        depth := depth - 1;
        offset := offset + 1;
        return Done(Array([]), content[offset..]);
      }
      var items := ParseElements();
      match items
      case Failed => return Failed;
      case Beyond => return Beyond;
      case Done(values, rest) =>
        depth := depth - 1;
        return Done(Array(values), rest);
    }

    /** The loop of parse_array: an element, then a comma or the end. */
    method ParseElements() returns (r: Parsed<seq<Json>>)
      requires offset <= |content|
      modifies this
      ensures r == Text.ParseElements(old(Left()), old(depth))
      ensures r.Done? ==> old(offset) < offset <= |content| && r.rest == Left() && depth == old(depth)
      decreases |content| - offset, 2
    {
      hide Text.ParseValue, Text.ParseElements, Skip;
      ghost var all := Text.ParseElements(Left(), depth);
      var items: seq<Json> := [];
      WithNothing(all);
      while true
        invariant old(offset) <= offset <= |content| && depth == old(depth)
        invariant all == WithItems(items, Text.ParseElements(Left(), depth))
        decreases |content| - offset
      {
        ElementsUnfold(Left(), depth);
        SkipWhitespace();
        var item := ParseValue();
        if item.Failed? { return Failed; }
        if item.Beyond? { return Beyond; }
        var value := item.value;
        SkipWhitespace();
        ghost var rest := Left();
        if offset >= |content| { return Failed; }
        assert rest[0] == content[offset] && rest[1..] == content[offset + 1..];
        var next := content[offset];
        if next != ',' && next != ']' { return Failed; }
        offset := offset + 1;
        if next == ']' {
          return Done(items + [value], content[offset..]);
        }
        WithItemsStep(items, value, Text.ParseElements(Left(), depth));
        items := items + [value];
      }
    }

    /** parse_object */
    method ParseObject() returns (r: Parsed<Json>)
      requires offset < |content| && content[offset] == '{'
      modifies this
      ensures r == Text.ParseValue(old(Left()), old(depth))
      ensures r.Done? ==> old(offset) < offset <= |content| && r.rest == Left() && depth == old(depth)
      decreases |content| - offset, 0
    {
      hide Text.ParseMembers, Skip;
      ghost var s := Left();
      assert s[0] == '{' && s[1..] == content[offset + 1..];
      NoWord(s);
      if depth >= NESTING_LIMIT { return Failed; }
      depth := depth + 1;
      offset := offset + 1;
      SkipWhitespace();
      ghost var p := Left();
      if offset >= |content| { return Failed; }
      if content[offset] == '}' {
        assert p[1..] == content[offset + 1..];
        depth := depth - 1;
        offset := offset + 1;
        return Done(Object([]), content[offset..]);
      }
      var members := ParseMembers();
      match members
      case Failed => return Failed;
      case Beyond => return Beyond;
      case Done(values, rest) =>
        depth := depth - 1;
        return Done(Object(values), rest);
    }

    /** The loop of parse_object: a member, then a comma or the end. */
    method ParseMembers() returns (r: Parsed<seq<Member>>)
      requires offset <= |content|
      modifies this
      ensures r == Text.ParseMembers(old(Left()), old(depth))
      ensures r.Done? ==> old(offset) < offset <= |content| && r.rest == Left() && depth == old(depth)
      decreases |content| - offset, 3
    {
      hide Text.ParseMember, Text.ParseMembers, Skip;
      ghost var all := Text.ParseMembers(Left(), depth);
      var members: seq<Member> := [];
      WithNothing(all);
      while true
        invariant old(offset) <= offset <= |content| && depth == old(depth)
        invariant all == WithItems(members, Text.ParseMembers(Left(), depth))
        decreases |content| - offset
      {
        MembersUnfold(Left(), depth);
        var member := ParseMember();
        if member.Failed? { return Failed; }
        if member.Beyond? { return Beyond; }
        var value := member.value;
        SkipWhitespace();
        ghost var rest := Left();
        if offset >= |content| { return Failed; }
        assert rest[0] == content[offset] && rest[1..] == content[offset + 1..];
        var next := content[offset];
        if next != ',' && next != '}' { return Failed; }
        offset := offset + 1;
        if next == '}' {
          return Done(members + [value], content[offset..]);
        }
        WithItemsStep(members, value, Text.ParseMembers(Left(), depth));
        members := members + [value];
      }
    }

    /** The name, the colon and the value of one member. */
    method ParseMember() returns (r: Parsed<Member>)
      requires offset <= |content|
      modifies this
      ensures r == Text.ParseMember(old(Left()), old(depth))
      ensures r.Done? ==> old(offset) < offset <= |content| && r.rest == Left() && depth == old(depth)
      decreases |content| - offset, 2
    {
      hide Text.ParseValue, Text.ParseString, Skip;
      if offset >= |content| { return Failed; }
      SkipWhitespace();
      var name := ParseString();
      if name.Failed? { return Failed; }
      if name.Beyond? { return Beyond; }
      SkipWhitespace();
      ghost var colon := Left();
      if offset >= |content| { return Failed; }
      assert colon[0] == content[offset] && colon[1..] == content[offset + 1..];
      if content[offset] != ':' { return Failed; }
      offset := offset + 1;
      SkipWhitespace();
      var item := ParseValue();
      if item.Failed? { return Failed; }
      if item.Beyond? { return Beyond; }
      return Done(Keyed(name.value, item.value), content[offset..]);
    }

    /** cJSON_ParseWithLengthOpts */
    method Parse(requireEnd: bool) returns (r: Parsed<Json>)
      requires offset == 0 && depth == 0
      modifies this
      ensures r == ParseBuffer(content, requireEnd)
      ensures r.Done? ==> offset <= |content| && r.rest == Left()
    {
      hide Text.ParseValue, Skip;
      if content == "" { return Failed; }
      assert content[0..] == content;
      if |content| > 4 {
        var bom := Reads(BOM);
        if bom { offset := offset + 3; }
      }
      assert Left() == SkipBom(content);
      SkipWhitespace();
      r := ParseValue();
      if r.Done? && requireEnd {
        SkipWhitespace();
        if offset >= |content| || content[offset] as int != 0 { return Failed; }
        r := Done(r.value, content[offset..]);
      }
    }
  }

  lemma ElementsUnfold(s: string, depth: nat)
    ensures Text.ParseElements(s, depth) ==
            var item := Text.ParseValue(Skip(s), depth);
            if item.Failed? then Failed
            else if item.Beyond? then Beyond
            else
              var rest := Skip(item.rest);
              if rest != "" && rest[0] == ',' then WithItems([item.value], Text.ParseElements(rest[1..], depth))
              else if rest != "" && rest[0] == ']' then Done([item.value], rest[1..])
              else Failed
  {
  }

  lemma MembersUnfold(s: string, depth: nat)
    ensures Text.ParseMembers(s, depth) ==
            var member := Text.ParseMember(s, depth);
            if member.Failed? then Failed
            else if member.Beyond? then Beyond
            else
              var rest := Skip(member.rest);
              if rest != "" && rest[0] == ',' then WithItems([member.value], Text.ParseMembers(rest[1..], depth))
              else if rest != "" && rest[0] == '}' then Done([member.value], rest[1..])
              else Failed
  {
  }

  lemma WithNothing<T>(r: Parsed<seq<T>>)
    ensures WithItems([], r) == r
  {
    if r.Done? { assert [] + r.value == r.value; }
  }

  lemma NumberStep(text: string, n: nat)
    requires n < |text| && forall i :: 0 <= i <= n ==> Pointer.IsDigit(text[i])
    ensures NumberOf(text[..n + 1]) == 10 * NumberOf(text[..n]) + (text[n] as int - '0' as int)
  {
    assert text[..n + 1][..n] == text[..n];
  }

  /** What ParseNumber comes to, in terms of the sign and the run of digits. */
  lemma NumberInText(s: string, sign: nat, n: nat, text: string)
    requires s != "" && sign == (if s[0] == '-' then 1 else 0) && text == s[sign..] && n == Run(text)
    ensures var rest := text[n..]; var value: int := NumberOf(text[..n]);
            var number := if sign == 1 then 0 - value else value;
            Text.ParseNumber(s) ==
            if rest != "" && rest[0] in ".eE" then Beyond
            else if n == 0 then Failed
            else if -0x8000_0000 <= number < 0x8000_0000 then Done(Number(number), rest)
            else Beyond
  {
    hide NumberOf, Run;
    assert s[sign + n..] == text[n..];
    assert sign == 0 ==> s == text;
  }

  method ReadDigits(text: string) returns (n: nat, value: nat)
    ensures n == Run(text) && value == NumberOf(text[..n])
  {
    hide NumberOf;
    n, value := 0, 0;
    assert NumberOf(text[..0]) == 0 by { NumberOfNothing(); assert text[..0] == ""; }
    while n < |text| && Pointer.IsDigit(text[n])
      invariant n <= |text| && forall i :: 0 <= i < n ==> Pointer.IsDigit(text[i])
      invariant value == NumberOf(text[..n])
    {
      NumberStep(text, n);
      value := 10 * value + (text[n] as int - '0' as int);
      n := n + 1;
    }
    RunIs(text, n);
  }

  lemma NumberOfNothing()
    ensures NumberOf("") == 0
  {
  }

  lemma {:induction false} RunIs(s: string, n: nat)
    requires n <= |s| && (forall i :: 0 <= i < n ==> Pointer.IsDigit(s[i])) && (n < |s| ==> !Pointer.IsDigit(s[n]))
    ensures Run(s) == n
  {
  }

  /** A list built so far, before what the rest of the loop will add. */
  function WithItems<T>(before: seq<T>, r: Parsed<seq<T>>): Parsed<seq<T>> {
    match r
    case Done(more, rest) => Done(before + more, rest)
    case Failed => Failed
    case Beyond => Beyond
  }

  lemma WithItemsStep<T>(before: seq<T>, x: T, r: Parsed<seq<T>>)
    ensures WithItems(before, WithItems([x], r)) == WithItems(before + [x], r)
  {
    if r.Done? { assert before + ([x] + r.value) == (before + [x]) + r.value; }
  }
}
