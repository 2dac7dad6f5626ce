/** The JSON text that cJSON prints, and the trees that it parses. */
module Text {
  import opened CStrings
  import opened Json
  import opened Sorting
  import Pointer
  import opened Options

  /** CJSON_NESTING_LIMIT */
  const NESTING_LIMIT: nat := 1000

  // ----- printing -----

  function Repeat(c: char, n: nat): (s: string)
    ensures |s| == n && forall i :: 0 <= i < n ==> s[i] == c
  {
    seq(n, i => c)
  }

  function HexDigit(d: nat): char
    requires d < 16
  {
    if d < 10 then '0' + d as char else 'a' + (d - 10) as char
  }

  /** The escape letter of a character that has one. */
  function Short(c: char): Option<char> {
    if c == '\"' || c == '\\' then Some(c)
    else if c as int == 8 then Some('b')
    else if c as int == 12 then Some('f')
    else if c == '\n' then Some('n')
    else if c == '\r' then Some('r')
    else if c == '\t' then Some('t')
    else None
  }

  function Escape(c: char): (s: string)
    ensures |s| > 0
  {
    match Short(c)
    case Some(letter) => ['\\', letter]
    case None => if c as int < 32 then "\\u00" + [HexDigit(c as int / 16), HexDigit(c as int % 16)] else [c]
  }

  function Escaped(s: string): string {
    if s == "" then "" else Escape(s[0]) + Escaped(s[1..])
  }

  /** print_string_ptr */
  function Quoted(s: string): string {
    "\"" + Escaped(s) + "\""
  }

  /** "%d" */
  function Signed(n: int): string {
    if n < 0 then "-" + Pointer.Digits(-n) else Pointer.Digits(n)
  }

  /** What print_value writes at a depth; nothing at all for a node of no type. */
  function TextOf(t: Json, format: bool, depth: nat): string
    decreases t, 0
  {
    match t
    case Invalid => ""
    case Null => "null"
    case False => "false"
    case True => "true"
    case Number(n) => Signed(n)
    case String(s) => Quoted(s)
    case Raw(s) => s
    case Array(items) => "[" + ItemsText(items, format, depth + 1) + "]"
    case Object(ms) =>
      (if format then "{\n" else "{") + MembersText(ms, format, depth + 1) +
      (if format then Repeat('\t', depth) else "") + "}"
  }

  function Comma(format: bool): string {
    if format then ", " else ","
  }

  function ItemsText(items: seq<Json>, format: bool, depth: nat): string
    decreases items, 1
  {
    if items == [] then ""
    else
      TextOf(items[0], format, depth) +
      (if |items| > 1 then Comma(format) + ItemsText(items[1..], format, depth) else "")
  }

  function MemberText(m: Member, format: bool, depth: nat): string
    decreases m, 1
  {
    (if format then Repeat('\t', depth) else "") + Quoted(m.key) + (if format then ":\t" else ":")
        + TextOf(m.item, format, depth)
  }

  function MemberEnd(last: bool, format: bool): string {
    (if last then "" else ",") + (if format then "\n" else "")
  }

  function MembersText(ms: seq<Member>, format: bool, depth: nat): string
    decreases ms, 2
  {
    if ms == [] then ""
    else MemberText(ms[0], format, depth) + MemberEnd(|ms| == 1, format) + MembersText(ms[1..], format, depth)
  }

  /** No node without a type, and no array or object too deep. */
  predicate Printable(t: Json, depth: nat) {
    match t
    case Invalid => false
    case Array(items) => depth < NESTING_LIMIT && forall i :: 0 <= i < |items| ==> Printable(items[i], depth + 1)
    case Object(ms) => depth < NESTING_LIMIT && forall i :: 0 <= i < |ms| ==> Printable(ms[i].item, depth + 1)
    case _ => true
  }

  // ----- parsing -----

  /** What a parse function leaves: the value and the text after it. Beyond is a number that is not an int. */
  datatype Parsed<+T> = Done(value: T, rest: string) | Failed | Beyond

  predicate Blank(c: char) {
    c as int <= 32
  }

  /** buffer_skip_whitespace: blanks to the end of the buffer leave the last one. */
  function Skip(s: string): (r: string)
    ensures |r| <= |s| && (s != "" ==> r != "")
  {
    if |s| > 1 && Blank(s[0]) then Skip(s[1..]) else s
  }

  function HexValue(c: char): Option<nat> {
    if '0' <= c <= '9' then Some(c as int - '0' as int)
    else if 'A' <= c <= 'F' then Some(10 + c as int - 'A' as int)
    else if 'a' <= c <= 'f' then Some(10 + c as int - 'a' as int)
    else None
  }

  /** parse_hex4: zero when a digit is not hexadecimal. */
  function Hex4(s: string): (h: nat)
    requires |s| >= 4
    ensures h < 0x10000
  {
    var a, b, c, d := HexValue(s[0]), HexValue(s[1]), HexValue(s[2]), HexValue(s[3]);
    if a.Some? && b.Some? && c.Some? && d.Some?
    then ((a.value * 16 + b.value) * 16 + c.value) * 16 + d.value
    else 0
  }

  function Continuation(bits: nat): char {
    (0x80 + bits % 64) as char
  }

  function Utf8(code: nat): (s: string)
    requires code <= 0x10FFFF
    ensures |s| == if code < 0x80 then 1 else if code < 0x800 then 2 else if code < 0x10000 then 3 else 4
  {
    if code < 0x80 then [code as char]
    else if code < 0x800 then [(0xC0 + code / 64) as char, Continuation(code)]
    else if code < 0x10000 then [(0xE0 + code / 4096) as char, Continuation(code / 64), Continuation(code)]
    else [(0xF0 + code / 262144) as char, Continuation(code / 4096), Continuation(code / 64), Continuation(code)]
  }

  /** utf16_literal_to_utf8 on "\uXXXX...": the bytes, and how much of the text they stand for. */
  function Literal(s: string): (r: Option<(string, nat)>)
    ensures r.Some? ==> (r.value.1 == 6 && |r.value.0| <= 3) || (r.value.1 == 12 && |r.value.0| == 4)
    ensures r.Some? ==> r.value.1 <= |s|
  {
    if |s| < 6 then None
    else
      var first := Hex4(s[2..6]);
      if 0xDC00 <= first <= 0xDFFF then None
      else if 0xD800 <= first <= 0xDBFF then
        if |s| < 12 || s[6] != '\\' || s[7] != 'u' then None
        else
          var second := Hex4(s[8..12]);
          if second < 0xDC00 || second > 0xDFFF then None
          else Some((Utf8(0x10000 + (first - 0xD800) * 0x400 + (second - 0xDC00)), 12))
      else Some((Utf8(first), 6))
  }

  function Unshort(c: char): Option<char> {
    if c == 'b' then Some(8 as char)
    else if c == 'f' then Some(12 as char)
    else if c == 'n' then Some('\n')
    else if c == 'r' then Some('\r')
    else if c == 't' then Some('\t')
    else if c == '\"' || c == '\\' || c == '/' then Some(c)
    else None
  }

  function Prepend(s: string, rest: Option<string>): Option<string> {
    if rest.Some? then Some(s + rest.value) else None
  }

  /** The second pass of parse_string, over what stands between the quotes; a last backslash sees the quote. */
  function Unescape(s: string): Option<string>
    decreases |s|
  {
    if s == "" then Some("")
    else if s[0] != '\\' then Prepend([s[0]], Unescape(s[1..]))
    else
      var c := if |s| > 1 then s[1] else '\"';
      if c == 'u' then
        match Literal(s)
        case None => None
        case Some((bytes, length)) => Prepend(bytes, Unescape(s[length..]))
      else
        match Unshort(c)
        case None => None
        case Some(d) => Prepend([d], if |s| > 1 then Unescape(s[2..]) else Some(""))
  }

  /** The first pass of parse_string: where the closing quote is, |s| if there is none. */
  function Closing(s: string): (n: nat)
    ensures n <= |s| && (n < |s| ==> s[n] == '\"')
    decreases |s|
  {
    if s == "" then 0
    else if s[0] == '\"' then 0
    else if s[0] == '\\' then if |s| == 1 then 1 else 2 + Closing(s[2..])
    else 1 + Closing(s[1..])
  }

  function ParseString(s: string): (r: Parsed<string>)
    requires s != ""
    ensures r.Done? ==> |r.rest| < |s|
  {
    if s[0] != '\"' then Failed
    else
      var n := Closing(s[1..]);
      if n == |s| - 1 then Failed
      else
        match Unescape(s[1..][..n])
        case None => Failed
        case Some(bytes) => Done(Cut(bytes), s[n + 2..])
  }

  function Run(s: string): (r: nat)
    ensures r <= |s| && (forall i :: 0 <= i < r ==> Pointer.IsDigit(s[i])) && (r < |s| ==> !Pointer.IsDigit(s[r]))
  {
    if s != "" && Pointer.IsDigit(s[0]) then 1 + Run(s[1..]) else 0
  }

  function NumberOf(digits: string): nat
    requires forall i :: 0 <= i < |digits| ==> Pointer.IsDigit(digits[i])
  {
    if digits == "" then 0
    else
      assert Pointer.IsDigit(digits[|digits| - 1]);
      10 * NumberOf(digits[..|digits| - 1]) + (digits[|digits| - 1] as int - '0' as int)
  }

  /** parse_number, for a sign and digits that are no fraction and fit an int. */
  function ParseNumber(s: string): (r: Parsed<Json>)
    requires s != ""
    ensures r.Done? ==> |r.rest| < |s|
  {
    var sign := if s[0] == '-' then 1 else 0;
    var n := Run(s[sign..]);
    var rest := s[sign + n..];
    if rest != "" && rest[0] in ".eE" then Beyond
    else if n == 0 then Failed
    else
      var value := if sign == 1 then 0 - NumberOf(s[1..][..n]) else NumberOf(s[..n]);
      if -0x8000_0000 <= value < 0x8000_0000 then Done(Number(value), rest) else Beyond
  }

  predicate StartsWith(s: string, word: string) {
    |s| >= |word| && s[..|word|] == word
  }

  function ParseValue(s: string, depth: nat): (r: Parsed<Json>)
    ensures r.Done? ==> |r.rest| < |s|
    decreases |s|, 0
  {
    if StartsWith(s, "null") then Done(Null, s[4..])
    else if StartsWith(s, "false") then Done(False, s[5..])
    else if StartsWith(s, "true") then Done(True, s[4..])
    else if s == "" then Failed
    else if s[0] == '\"' then
      match ParseString(s)
      case Done(bytes, rest) => Done(String(bytes), rest)
      case Failed => Failed
      case Beyond => Beyond
    else if s[0] == '-' || Pointer.IsDigit(s[0]) then ParseNumber(s)
    else if s[0] == '[' then
      if depth >= NESTING_LIMIT then Failed
      else
        var p := Skip(s[1..]);
        if p == "" then Failed
        else if p[0] == ']' then Done(Array([]), p[1..])
        else
          match ParseElements(p, depth + 1)
          case Done(items, rest) => Done(Array(items), rest)
          case Failed => Failed
          case Beyond => Beyond
    else if s[0] == '{' then
      if depth >= NESTING_LIMIT then Failed
      else
        var p := Skip(s[1..]);
        if p == "" then Failed
        else if p[0] == '}' then Done(Object([]), p[1..])
        else
          match ParseMembers(p, depth + 1)
          case Done(ms, rest) => Done(Object(ms), rest)
          case Failed => Failed
          case Beyond => Beyond
    else Failed
  }

  /** The loop of parse_array, from the text after a bracket or a comma. */
  function ParseElements(s: string, depth: nat): (r: Parsed<seq<Json>>)
    ensures r.Done? ==> |r.rest| < |s|
    decreases |s|, 1
  {
    match ParseValue(Skip(s), depth)
    case Failed => Failed
    case Beyond => Beyond
    case Done(item, after) =>
      var rest := Skip(after);
      if rest != "" && rest[0] == ',' then
        match ParseElements(rest[1..], depth)
        case Done(items, end) => Done([item] + items, end)
        case Failed => Failed
        case Beyond => Beyond
      else if rest != "" && rest[0] == ']' then Done([item], rest[1..])
      else Failed
  }

  /** The key, the colon, and the value of a member. */
  function ParseMember(s: string, depth: nat): (r: Parsed<Member>)
    ensures r.Done? ==> |r.rest| < |s|
    decreases |s|, 1
  {
    if s == "" then Failed
    else
      match ParseString(Skip(s))
      case Failed => Failed
      case Beyond => Beyond
      case Done(key, after) =>
        var colon := Skip(after);
        if colon == "" || colon[0] != ':' then Failed
        else
          match ParseValue(Skip(colon[1..]), depth)
          case Done(item, end) => Done(Keyed(key, item), end)
          case Failed => Failed
          case Beyond => Beyond
  }

  /** The loop of parse_object. */
  function ParseMembers(s: string, depth: nat): (r: Parsed<seq<Member>>)
    ensures r.Done? ==> |r.rest| < |s|
    decreases |s|, 2
  {
    match ParseMember(s, depth)
    case Failed => Failed
    case Beyond => Beyond
    case Done(m, after) =>
      var rest := Skip(after);
      if rest != "" && rest[0] == ',' then
        match ParseMembers(rest[1..], depth)
        case Done(ms, end) => Done([m] + ms, end)
        case Failed => Failed
        case Beyond => Beyond
      else if rest != "" && rest[0] == '}' then Done([m], rest[1..])
      else Failed
  }

  const BOM: string := [0xEF as char, 0xBB as char, 0xBF as char]

  /** skip_utf8_bom */
  function SkipBom(s: string): string {
    if |s| > 4 && StartsWith(s, BOM) then s[3..] else s
  }

  /** cJSON_ParseWithLengthOpts on a buffer of |content| bytes. */
  function ParseBuffer(content: string, requireEnd: bool): Parsed<Json> {
    if content == "" then Failed
    else
      match ParseValue(Skip(SkipBom(content)), 0)
      case Failed => Failed
      case Beyond => Beyond
      case Done(t, rest) =>
        if requireEnd then
          var end := Skip(rest);
          if end == "" || end[0] as int != 0 then Failed else Done(t, end)
        else Done(t, rest)
  }

  const NUL: string := [0 as char]

  /** cJSON_ParseWithOpts: the terminator belongs to the buffer. */
  function ParseText(value: string, requireEnd: bool): Parsed<Json> {
    ParseBuffer(value + NUL, requireEnd)
  }

  lemma NoWord(s: string)
    requires s != "" && s[0] !in "nft"
    ensures !StartsWith(s, "null") && !StartsWith(s, "false") && !StartsWith(s, "true")
  {
  }
}
