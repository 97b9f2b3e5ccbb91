/** The values, the printer and the parser of cJSON, as functions on bytes. A C string is a
    sequence of bytes that is read as if a zero byte followed it. */
module CJson {
  import opened Bytes

  const QUOTE: byte := 34
  const COMMA: byte := 44
  const LBRACKET: byte := 91
  const BACKSLASH: byte := 92
  const RBRACKET: byte := 93
  const LBRACE: byte := 123
  const RBRACE: byte := 125

  const INT_MIN := -0x8000_0000
  const INT_MAX := 0x7FFF_FFFF

  // ---------- values ----------

  datatype Json =
    | Null
    | False
    | True
    | Number(n: int)
    | String(text: seq<byte>)
    | Array(items: seq<Json>)
    | Object(members: seq<Member>)

  datatype Member = Member(name: seq<byte>, value: Json)

  /** What can stand in a C string. */
  predicate NulFree(s: seq<byte>) {
    forall i :: 0 <= i < |s| ==> s[i] != 0
  }

  /** Numbers are 32-bit integers and strings are C strings. */
  predicate WellFormed(t: Json)
    decreases t
  {
    match t
    case Null => true
    case False => true
    case True => true
    case Number(n) => INT_MIN <= n <= INT_MAX
    case String(text) => NulFree(text)
    case Array(items) => forall i :: 0 <= i < |items| ==> WellFormed(items[i])
    case Object(members) => forall i :: 0 <= i < |members| ==> NulFree(members[i].name) && WellFormed(members[i].value)
  }

  // ---------- printing ----------

  function DecimalText(n: nat): (r: seq<byte>)
    ensures |r| > 0
  {
    if n < 10 then [48 + n] else DecimalText(n / 10) + [48 + n % 10]
  }

  /** print_number on an integer: the conversion %d. */
  function PrintNumber(n: int): (r: seq<byte>)
    ensures |r| > 0
  {
    if n < 0 then [MINUS] + DecimalText(-n) else DecimalText(n)
  }

  /** How print_string_ptr writes one byte. */
  function Escaped(b: byte): (r: seq<byte>)
    ensures 1 <= |r| <= 6
  {
    if b == QUOTE || b == BACKSLASH then [BACKSLASH, b]
    else if b > 31 then [b]
    else if b == 8 then [BACKSLASH, 98]
    else if b == 12 then [BACKSLASH, 102]
    else if b == 10 then [BACKSLASH, 110]
    else if b == 13 then [BACKSLASH, 114]
    else if b == 9 then [BACKSLASH, 116]
    else [BACKSLASH, 117, 48, 48, HexDigit(b / 16, LOWER_A), HexDigit(b % 16, LOWER_A)]
  }

  /** The bytes of s from i on, escaped. */
  function EscapedFrom(s: seq<byte>, i: nat): seq<byte>
    requires i <= |s|
    decreases |s| - i
  {
    if i == |s| then [] else Escaped(s[i]) + EscapedFrom(s, i + 1)
  }

  /** print_string_ptr. */
  function PrintString(s: seq<byte>): seq<byte> {
    [QUOTE] + EscapedFrom(s, 0) + [QUOTE]
  }

  function Tabs(n: nat): (r: seq<byte>)
    ensures |r| == n
  {
    seq(n, i => HT)
  }

  function If(c: bool, s: seq<byte>): seq<byte> {
    if c then s else []
  }

  /** print_value. */
  function PrintValue(t: Json, depth: nat, fmt: bool): seq<byte>
    decreases t, 0
  {
    match t
    case Null => [110, 117, 108, 108]
    case False => [102, 97, 108, 115, 101]
    case True => [116, 114, 117, 101]
    case Number(n) => PrintNumber(n)
    case String(text) => PrintString(text)
    case Array(items) => if items == [] then [LBRACKET, RBRACKET] else [LBRACKET] + PrintItems(items, 0, depth + 1, fmt)
    case Object(members) =>
      if members == [] then PrintEmpty(depth, fmt)
      else [LBRACE] + If(fmt, [LF]) + PrintMembers(members, 0, depth + 1, fmt)
  }

  /** The items from i on, and the closing bracket. */
  function PrintItems(items: seq<Json>, i: nat, depth: nat, fmt: bool): seq<byte>
    requires i < |items|
    decreases items, |items| - i
  {
    PrintValue(items[i], depth, fmt) +
    if i + 1 == |items| then [RBRACKET] else Separator(fmt) + PrintItems(items, i + 1, depth, fmt)
  }

  function Separator(fmt: bool): seq<byte> {
    [COMMA] + If(fmt, [SP])
  }

  /** The members from i on, each on a line of its own if formatted, and the closing brace. */
  function PrintMembers(members: seq<Member>, i: nat, depth: nat, fmt: bool): seq<byte>
    requires i < |members| && depth > 0
    decreases members, |members| - i
  {
    PrintName(members[i].name, depth, fmt) + PrintValue(members[i].value, depth, fmt) +
    if i + 1 == |members| then If(fmt, [LF]) + If(fmt, Tabs(depth - 1)) + [RBRACE]
    else [COMMA] + If(fmt, [LF]) + PrintMembers(members, i + 1, depth, fmt)
  }

  function PrintName(name: seq<byte>, depth: nat, fmt: bool): seq<byte> {
    If(fmt, Tabs(depth)) + PrintString(name) + [COLON] + If(fmt, [HT])
  }

  /** An object without members. */
  function PrintEmpty(depth: nat, fmt: bool): seq<byte> {
    [LBRACE] + If(fmt, [LF]) + If(fmt, Tabs(if depth > 0 then depth - 1 else 0)) + [RBRACE]
  }

  // ---------- parsing ----------

  /** Parsed up to end; or failed, with the error pointer at a byte; or outside of what is
      modelled: numbers that are no 32-bit integers and malformed escapes. */
  datatype Result<T> = Parsed(value: T, end: nat) | Failed(at: nat) | Outside

  /** skip. */
  function Skip(s: seq<byte>, i: nat): (e: nat)
    requires i <= |s|
    ensures i <= e <= |s|
    decreases |s| - i
  {
    if 0 < At(s, i) <= 32 then Skip(s, i + 1) else i
  }

  /** Behind a minus sign, if there is one. */
  function AfterSign(s: seq<byte>, i: nat): (j: nat)
    requires i <= |s|
    ensures i <= j <= |s|
  {
    if At(s, i) == MINUS then i + 1 else i
  }

  /** Behind one zero, if there is one. */
  function AfterZero(s: seq<byte>, i: nat): (j: nat)
    requires i <= |s|
    ensures i <= j <= |s|
  {
    if At(s, i) == 48 then i + 1 else i
  }

  /** Behind digits that do not start with a zero. */
  function AfterDigits(s: seq<byte>, i: nat): (j: nat)
    requires i <= |s|
    ensures i <= j <= |s|
  {
    if 49 <= At(s, i) <= 57 then DigitsEnd(s, i) else i
  }

  /** A fraction or an exponent starts at i. */
  predicate NoInteger(s: seq<byte>, i: nat) {
    (At(s, i) == DOT && IsDigit(At(s, i + 1))) || At(s, i) == 69 || At(s, i) == 101
  }

  /** parse_number, on integers. */
  function ParseNumber(s: seq<byte>, i: nat): (r: Result<Json>)
    requires i <= |s|
    ensures r.Parsed? ==> i <= r.end <= |s| && WellFormed(r.value)
  {
    var j := AfterSign(s, i);
    var k := AfterZero(s, j);
    var e := AfterDigits(s, k);
    var n := if i < j then -Decimal(s, k, e) else Decimal(s, k, e);
    if NoInteger(s, e) || n < INT_MIN || n > INT_MAX then Outside else Parsed(Number(n), e)
  }

  predicate Hex4At(s: seq<byte>, i: nat) {
    IsHex(At(s, i)) && IsHex(At(s, i + 1)) && IsHex(At(s, i + 2)) && IsHex(At(s, i + 3))
  }

  /** What the conversion %4x reads from four digits. */
  function Hex4(s: seq<byte>, i: nat): (v: nat)
    requires Hex4At(s, i)
    ensures v < 0x10000
  {
    ((HexValue(At(s, i)) * 16 + HexValue(At(s, i + 1))) * 16 + HexValue(At(s, i + 2))) * 16 + HexValue(At(s, i + 3))
  }

  /** UTF-8, section 3 of RFC 3629. */
  function Utf8(c: nat): (r: seq<byte>)
    requires c < 0x110000
    ensures 1 <= |r| <= 4
  {
    if c < 0x80 then [c]
    else if c < 0x800 then [0xC0 + c / 0x40, 0x80 + c % 0x40]
    else if c < 0x10000 then [0xE0 + c / 0x1000, 0x80 + c / 0x40 % 0x40, 0x80 + c % 0x40]
    else [0xF0 + c / 0x40000, 0x80 + c / 0x1000 % 0x40, 0x80 + c / 0x40 % 0x40, 0x80 + c % 0x40]
  }

  predicate HighSurrogate(c: nat) {
    0xD800 <= c <= 0xDBFF
  }

  predicate LowSurrogate(c: nat) {
    0xDC00 <= c <= 0xDFFF
  }

  /** One turn of the decoding loop of parse_string: the end of the string, some bytes of it and
      where to go on, or a malformed escape. */
  datatype Piece = Stop | Piece(bytes: seq<byte>, next: nat) | Malformed

  function Unescape(s: seq<byte>, i: nat): (r: Piece)
    requires i <= |s|
    ensures r.Piece? ==> i < r.next <= |s|
  {
    var c := At(s, i);
    if c == QUOTE || c == 0 then Stop
    else if c != BACKSLASH then Piece([c], i + 1)
    else
      var e := At(s, i + 1);
      if e == 0 then Malformed
      else if e == 98 then Piece([8], i + 2)
      else if e == 102 then Piece([12], i + 2)
      else if e == 110 then Piece([10], i + 2)
      else if e == 114 then Piece([13], i + 2)
      else if e == 116 then Piece([9], i + 2)
      else if e == 117 then UnescapeUnicode(s, i)
      else Piece([e], i + 2)
  }

  /** An escape of four hexadecimal digits; a zero, and half of a surrogate pair, give nothing. */
  function UnescapeUnicode(s: seq<byte>, i: nat): (r: Piece)
    requires i + 1 < |s| && s[i + 1] == 117
    ensures r.Piece? ==> i < r.next <= |s|
  {
    if !Hex4At(s, i + 2) then Malformed
    else
      var c := Hex4(s, i + 2);
      if LowSurrogate(c) || c == 0 then Piece([], i + 6)
      else if !HighSurrogate(c) then Piece(Utf8(c), i + 6)
      else if At(s, i + 6) != BACKSLASH || At(s, i + 7) != 117 then Piece([], i + 6)
      else if !Hex4At(s, i + 8) then Malformed
      else
        var d := Hex4(s, i + 8);
        if !LowSurrogate(d) then Piece([], i + 12)
        else Piece(Utf8(0x10000 + c % 0x400 * 0x400 + d % 0x400), i + 12)
  }

  function Prepend<T>(head: seq<T>, r: Result<seq<T>>): (q: Result<seq<T>>)
    ensures q.Parsed? <==> r.Parsed?
    ensures q.Parsed? ==> q.end == r.end
  {
    if r.Parsed? then Parsed(head + r.value, r.end) else r
  }

  /** The string whose bytes start at i, up to its closing quote or its terminator. */
  function Unescaped(s: seq<byte>, i: nat): (r: Result<seq<byte>>)
    requires i <= |s|
    ensures r.Parsed? ==> i <= r.end <= |s| && (At(s, r.end) == QUOTE || At(s, r.end) == 0)
    ensures !r.Failed?
    decreases |s| - i
  {
    match Unescape(s, i)
    case Stop => Parsed([], i)
    case Malformed => Outside
    case Piece(bytes, next) => Prepend(bytes, Unescaped(s, next))
  }

  /** parse_string. */
  function ParseString(s: seq<byte>, i: nat): (r: Result<seq<byte>>)
    requires i <= |s|
    ensures r.Parsed? ==> i < r.end <= |s|
  {
    if At(s, i) != QUOTE then Failed(i)
    else
      var r := Unescaped(s, i + 1);
      if r.Parsed? && At(s, r.end) == QUOTE then Parsed(r.value, r.end + 1) else r
  }

  /** strncmp(s + i, t, strlen(t)) == 0. */
  predicate Starts(s: seq<byte>, i: nat, t: seq<byte>) {
    Has(s, i, t)
  }

  /** parse_value. */
  function ParseValue(s: seq<byte>, i: nat): (r: Result<Json>)
    requires i <= |s|
    ensures r.Parsed? ==> i < r.end <= |s|
    decreases |s| - i, 0
  {
    var c := At(s, i);
    if Starts(s, i, [110, 117, 108, 108]) then Parsed(Null, i + 4)
    else if Starts(s, i, [102, 97, 108, 115, 101]) then Parsed(False, i + 5)
    else if Starts(s, i, [116, 114, 117, 101]) then Parsed(True, i + 4)
    else if c == QUOTE then
      (match ParseString(s, i)
       case Parsed(text, end) => Parsed(String(text), end)
       case Failed(at) => Failed(at)
       case Outside => Outside)
    else if c == MINUS || IsDigit(c) then ParseNumber(s, i)
    else if c == LBRACKET then
      var j := Skip(s, i + 1);
      if At(s, j) == RBRACKET then Parsed(Array([]), j + 1)
      else
        (match ParseItems(s, j)
         case Parsed(items, end) => Parsed(Array(items), end)
         case Failed(at) => Failed(at)
         case Outside => Outside)
    else if c == LBRACE then
      var j := Skip(s, i + 1);
      if At(s, j) == RBRACE then Parsed(Object([]), j + 1)
      else
        (match ParseMembers(s, j)
         case Parsed(members, end) => Parsed(Object(members), end)
         case Failed(at) => Failed(at)
         case Outside => Outside)
    else Failed(i)
  }

  /** The items of an array from i on, behind its bracket or a comma. */
  function ParseItems(s: seq<byte>, i: nat): (r: Result<seq<Json>>)
    requires i <= |s|
    ensures r.Parsed? ==> i < r.end <= |s|
    decreases |s| - i, 1
  {
    match ParseValue(s, Skip(s, i))
    case Failed(at) => Failed(at)
    case Outside => Outside
    case Parsed(item, end) =>
      var j := Skip(s, end);
      if At(s, j) == COMMA then Prepend([item], ParseItems(s, j + 1))
      else if At(s, j) == RBRACKET then Parsed([item], j + 1)
      else Failed(j)
  }

  /** One member of an object. */
  function ParseMember(s: seq<byte>, i: nat): (r: Result<Member>)
    requires i <= |s|
    ensures r.Parsed? ==> i < r.end <= |s|
    decreases |s| - i, 1
  {
    match ParseString(s, Skip(s, i))
    case Failed(at) => Failed(at)
    case Outside => Outside
    case Parsed(name, end) =>
      var j := Skip(s, end);
      if At(s, j) != COLON then Failed(j)
      else
        match ParseValue(s, Skip(s, j + 1))
        case Failed(at) => Failed(at)
        case Outside => Outside
        case Parsed(value, end) => Parsed(Member(name, value), end)
  }

  /** The members of an object from i on, behind its brace or a comma. */
  function ParseMembers(s: seq<byte>, i: nat): (r: Result<seq<Member>>)
    requires i <= |s|
    ensures r.Parsed? ==> i < r.end <= |s|
    decreases |s| - i, 2
  {
    match ParseMember(s, i)
    case Failed(at) => Failed(at)
    case Outside => Outside
    case Parsed(member, end) =>
      var j := Skip(s, end);
      if At(s, j) == COMMA then Prepend([member], ParseMembers(s, j + 1))
      else if At(s, j) == RBRACE then Parsed([member], j + 1)
      else Failed(j)
  }

  /** cJSON_ParseWithOpts: the tree and where it ends, and the error pointer otherwise. */
  function ParseText(s: seq<byte>, requireNullTerminated: bool): Result<Json> {
    match ParseValue(s, Skip(s, 0))
    case Failed(at) => Failed(at)
    case Outside => Outside
    case Parsed(tree, end) =>
      if !requireNullTerminated then Parsed(tree, end)
      else
        var j := Skip(s, end);
        if At(s, j) == 0 then Parsed(tree, j) else Failed(j)
  }
}
