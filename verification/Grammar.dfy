/** JSON texts as section 2 of RFC 8259 builds them, with what the parser allows beyond that. */
module Grammar {
  import opened CStrings
  import opened Json
  import opened Sorting
  import Text
  import opened TextStrings

  type CodePoint = n: nat | n <= 0x10FFFF

  /** A piece of a string between the quotes, with what it stands for; Lone is a backslash at the very end. */
  datatype Piece =
    | Plain(c: char)
    | Short(letter: char, c: char)
    | Unit(digits: string, code: CodePoint)
    | Pair(high: string, low: string, code: CodePoint)
    | Lone

  /** A value as it is written, with the blanks between its tokens. */
  datatype Syntax =
    | Word(word: string)
    | Int(n: Int32, minus: bool, digits: string)
    | Str(pieces: seq<Piece>)
    | Arr(blank: string, elements: seq<Element>)
    | Obj(blank: string, fields: seq<Field>)
    | Verbatim(text: string)

  datatype Element = Element(before: string, value: Syntax, after: string)

  datatype Field = Field(
    before: string, key: seq<Piece>, colonBefore: string, colonAfter: string, value: Syntax, after: string)

  // ----- the text -----

  function PieceText(p: Piece): string {
    match p
    case Plain(c) => [c]
    case Short(letter, _) => ['\\', letter]
    case Unit(digits, _) => "\\u" + digits
    case Pair(high, low, _) => "\\u" + high + "\\u" + low
    case Lone => "\\"
  }

  function PiecesText(ps: seq<Piece>): string {
    if ps == [] then "" else PieceText(ps[0]) + PiecesText(ps[1..])
  }

  function StrText(ps: seq<Piece>): string {
    "\"" + PiecesText(ps) + "\""
  }

  function Written(c: Syntax): string
    decreases c, 0
  {
    match c
    case Word(word) => word
    case Int(_, minus, digits) => (if minus then "-" else "") + digits
    case Str(ps) => StrText(ps)
    case Arr(blank, es) => "[" + (if es == [] then blank else ElementsText(es)) + "]"
    case Obj(blank, fs) => "{" + (if fs == [] then blank else FieldsText(fs)) + "}"
    case Verbatim(text) => text
  }

  function ElementsText(es: seq<Element>): string
    requires es != []
    decreases es, 1
  {
    es[0].before + Written(es[0].value) + es[0].after + (if |es| == 1 then "" else "," + ElementsText(es[1..]))
  }

  function FieldText(f: Field): string
    decreases f, 1
  {
    f.before + StrText(f.key) + f.colonBefore + ":" + f.colonAfter + Written(f.value) + f.after
  }

  function FieldsText(fs: seq<Field>): string
    requires fs != []
    decreases fs, 2
  {
    FieldText(fs[0]) + (if |fs| == 1 then "" else "," + FieldsText(fs[1..]))
  }

  // ----- the tree -----

  function PieceBytes(p: Piece): string {
    match p
    case Plain(c) => [c]
    case Short(_, c) => [c]
    case Unit(_, code) => Text.Utf8(code)
    case Pair(_, _, code) => Text.Utf8(code)
    case Lone => "\""
  }

  function PiecesBytes(ps: seq<Piece>): string {
    if ps == [] then "" else PieceBytes(ps[0]) + PiecesBytes(ps[1..])
  }

  /** A string ends at its first zero byte, like every C string. */
  function StrValue(ps: seq<Piece>): string {
    Cut(PiecesBytes(ps))
  }

  function TreeOf(c: Syntax): Json
    decreases c
  {
    match c
    case Word(word) => if word == "null" then Null else if word == "true" then True else False
    case Int(n, _, _) => Number(n)
    case Str(ps) => String(StrValue(ps))
    case Arr(_, es) => Array(ItemsOf(es))
    case Obj(_, fs) => Object(MembersOf(fs))
    case Verbatim(text) => Raw(text)
  }

  function ItemsOf(es: seq<Element>): (r: seq<Json>)
    ensures |r| == |es|
    decreases es
  {
    if es == [] then [] else [TreeOf(es[0].value)] + ItemsOf(es[1..])
  }

  function MembersOf(fs: seq<Field>): (r: seq<Member>)
    ensures |r| == |fs|
    decreases fs
  {
    if fs == [] then [] else [Keyed(StrValue(fs[0].key), TreeOf(fs[0].value))] + MembersOf(fs[1..])
  }

  // ----- what may be written -----

  /** Blanks between tokens: the four of RFC 8259 and every other control character. */
  predicate Blanks(s: string) {
    forall i :: 0 <= i < |s| ==> s[i] as int <= 0x20
  }

  /** The escapes with a letter of their own. */
  predicate ShortFor(letter: char, c: char) {
    || (letter in "\"\\/" && c == letter) || (letter == 'b' && c as int == 0x08) || (letter == 'f' && c as int == 0x0C)
    || (letter == 'n' && c as int == 0x0A) || (letter == 'r' && c as int == 0x0D) || (letter == 't' && c as int == 0x09)
  }

  /** Four characters that are not all digits count as zero. */
  ghost predicate PieceOk(p: Piece) {
    match p
    case Plain(c) => c != '\\'
    case Short(letter, c) => ShortFor(letter, c)
    case Unit(digits, code) =>
      !(0xD800 <= code < 0xE000) && (HexCode(digits, code) || (code == 0 && BadHex(digits)))
    case Pair(high, low, code) =>
      && code >= 0x10000 && HexCode(high, 0xD800 + (code - 0x10000) / 0x400)
      && HexCode(low, 0xDC00 + (code - 0x10000) % 0x400)
    case Lone => true
  }

  ghost predicate PiecesOk(ps: seq<Piece>) {
    forall i :: 0 <= i < |ps| ==> PieceOk(ps[i]) && (ps[i].Lone? ==> i == |ps| - 1)
  }

  /** No quote but behind a backslash, which takes the next character with it. */
  predicate Inside(s: string)
    decreases |s|
  {
    if s == "" then true
    else if s[0] == '\\' then |s| >= 2 && Inside(s[2..])
    else s[0] != '\"' && Inside(s[1..])
  }

  ghost predicate StrOk(ps: seq<Piece>) {
    PiecesOk(ps) && Inside(PiecesText(ps))
  }

  predicate Digit(c: char) {
    '0' <= c <= '9'
  }

  predicate AllDigits(s: string) {
    forall i :: 0 <= i < |s| ==> Digit(s[i])
  }

  function Power(n: nat): nat {
    if n == 0 then 1 else 10 * Power(n - 1)
  }

  /** Each digit counts for its place. */
  function Decimal(s: string): nat
    requires AllDigits(s)
  {
    if s == "" then 0 else (s[0] as int - '0' as int) * Power(|s| - 1) + Decimal(s[1..])
  }

  /** An int, leading zeros allowed. */
  predicate IntOk(n: Int32, minus: bool, digits: string) {
    digits != "" && AllDigits(digits) && n == if minus then 0 - Decimal(digits) else Decimal(digits)
  }

  ghost predicate Ok(c: Syntax, depth: nat)
    decreases c, 0
  {
    match c
    case Word(word) => word == "null" || word == "false" || word == "true"
    case Int(n, minus, digits) => IntOk(n, minus, digits)
    case Str(ps) => StrOk(ps)
    case Arr(blank, es) => depth < Text.NESTING_LIMIT && Blanks(blank) && ElementsOk(es, depth + 1)
    case Obj(blank, fs) => depth < Text.NESTING_LIMIT && Blanks(blank) && FieldsOk(fs, depth + 1)
    case Verbatim(_) => false
  }

  ghost predicate ElementsOk(es: seq<Element>, depth: nat)
    decreases es, 1
  {
    forall i :: 0 <= i < |es| ==> Blanks(es[i].before) && Blanks(es[i].after) && Ok(es[i].value, depth)
  }

  ghost predicate FieldOk(f: Field, depth: nat)
    decreases f, 1
  {
    && Blanks(f.before) && Blanks(f.colonBefore) && Blanks(f.colonAfter) && Blanks(f.after)
    && StrOk(f.key) && Ok(f.value, depth)
  }

  ghost predicate FieldsOk(fs: seq<Field>, depth: nat)
    decreases fs, 2
  {
    forall i :: 0 <= i < |fs| ==> FieldOk(fs[i], depth)
  }

  /** What may stand behind a value without becoming part of it. */
  predicate Ends(c: Syntax, post: string) {
    c.Int? ==> post == "" || (!Digit(post[0]) && post[0] !in ".eE")
  }
}
