/** JSON values, what the serializer prints for them and what the parser reads (RFC 8259). */
module JsonText {
  import opened Bits
  import opened Options

  /** Strings are byte strings. The members of an object are kept sorted by key, as a std::map keeps them. */
  datatype Value =
    | Null
    | Bool(b: bool)
    | Num(n: real)
    | Str(s: seq<byte>)
    | Arr(items: seq<Value>)
    | Obj(members: seq<Member>)

  datatype Member = Member(key: seq<byte>, value: Value)

  /** What strtod makes of a text: all of it is a number, not all of it, or a number out of range. */
  datatype Double = Number(r: real) | Partial | OutOfRange

  /** The parts of the C library that numbers rest on: strtod, the "%.17g" form of a number that is no
      small integer, and the locale's decimal point. */
  datatype Lib = Lib(strtod: seq<byte> -> Double, long: real -> seq<byte>, point: seq<byte>)

  const QUOTE: byte := 34
  const BACKSLASH: byte := 92
  const COMMA: byte := 44
  const COLON: byte := 58
  const OPEN_ARRAY: byte := 91
  const CLOSE_ARRAY: byte := 93
  const OPEN_OBJECT: byte := 123
  const CLOSE_OBJECT: byte := 125
  const MINUS: byte := 45
  const DOT: byte := 46
  const SPACE: byte := 32
  const NEWLINE: byte := 10
  const LETTER_U: byte := 117

  const NULL_TEXT: seq<byte> := [110, 117, 108, 108]
  const TRUE_TEXT: seq<byte> := [116, 114, 117, 101]
  const FALSE_TEXT: seq<byte> := [102, 97, 108, 115, 101]

  // ----- printing -----

  /** The letter of a two-character escape: quote, backslash, slash, and b, f, n, r, t. */
  function EscapeLetter(c: byte): Option<byte>
  {
    if c == QUOTE || c == BACKSLASH || c == 47 then Some(c)
    else if c == 8 then Some(98)
    else if c == 12 then Some(102)
    else if c == 10 then Some(110)
    else if c == 13 then Some(114)
    else if c == 9 then Some(116)
    else None
  }

  /** The character of a two-character escape. */
  function Unescape(letter: byte): Option<byte>
  {
    if letter == QUOTE || letter == BACKSLASH || letter == 47 then Some(letter)
    else if letter == 98 then Some(8)
    else if letter == 102 then Some(12)
    else if letter == 110 then Some(10)
    else if letter == 114 then Some(13)
    else if letter == 116 then Some(9)
    else None
  }

  function HexDigit(d: nat): byte
    requires d < 16
  {
    if d < 10 then 48 + d else 87 + d
  }

  function PrintChar(c: byte): seq<byte>
  {
    match EscapeLetter(c)
    case Some(letter) => [BACKSLASH, letter]
    case None =>
      if c < 0x20 || c == 0x7f then [BACKSLASH, LETTER_U, 48, 48, HexDigit(c / 16), HexDigit(c % 16)] else [c]
  }

  function PrintChars(s: seq<byte>): seq<byte>
  {
    if s == [] then [] else PrintChar(s[0]) + PrintChars(s[1..])
  }

  function PrintString(s: seq<byte>): seq<byte>
  {
    [QUOTE] + PrintChars(s) + [QUOTE]
  }

  function Digits(n: nat): (d: seq<byte>)
    ensures d != []
  {
    if n < 10 then [48 + n] else Digits(n / 10) + [48 + n % 10]
  }

  /** The "%.f" form of an integer. */
  function Decimal(n: int): seq<byte>
  {
    if n < 0 then [MINUS] + Digits(-n) else Digits(n)
  }

  const TWO_53: int := 0x20_0000_0000_0000

  /** An integer below 2^53 in size. */
  predicate SmallInteger(r: real)
  {
    r == r.Floor as real && -TWO_53 < r.Floor < TWO_53
  }

  function PrintNumber(lib: Lib, r: real): seq<byte>
  {
    if SmallInteger(r) then Decimal(r.Floor) else lib.long(r)
  }

  /** A line break and the indentation; nothing in compact form (indent -1). */
  function NewLine(indent: int): seq<byte>
  {
    if indent == -1 then [] else [NEWLINE] + Spaces(2 * indent)
  }

  function Spaces(n: int): seq<byte>
  {
    if n <= 0 then [] else [SPACE] + Spaces(n - 1)
  }

  function Inner(indent: int): int
  {
    if indent == -1 then -1 else indent + 1
  }

  /** A value without the line break behind an outermost pretty value. */
  function Print(lib: Lib, v: Value, indent: int): seq<byte>
    decreases v
  {
    match v
    case Null => NULL_TEXT
    case Bool(b) => if b then TRUE_TEXT else FALSE_TEXT
    case Num(n) => PrintNumber(lib, n)
    case Str(s) => PrintString(s)
    case Arr(items) =>
      [OPEN_ARRAY] + PrintItems(lib, items, Inner(indent))
      + (if items == [] then [] else NewLine(indent)) + [CLOSE_ARRAY]
    case Obj(members) =>
      [OPEN_OBJECT] + PrintMembers(lib, members, Inner(indent))
      + (if members == [] then [] else NewLine(indent)) + [CLOSE_OBJECT]
  }

  function PrintItems(lib: Lib, items: seq<Value>, indent: int): seq<byte>
    decreases items
  {
    if items == [] then []
    else
      NewLine(indent) + Print(lib, items[0], indent)
      + (if |items| == 1 then [] else [COMMA] + PrintItems(lib, items[1..], indent))
  }

  function PrintMembers(lib: Lib, members: seq<Member>, indent: int): seq<byte>
    decreases members
  {
    if members == [] then []
    else
      NewLine(indent) + PrintMember(lib, members[0], indent)
      + (if |members| == 1 then [] else [COMMA] + PrintMembers(lib, members[1..], indent))
  }

  function PrintMember(lib: Lib, m: Member, indent: int): seq<byte>
    decreases m
  {
    PrintString(m.key) + [COLON] + (if indent == -1 then [] else [SPACE]) + Print(lib, m.value, indent)
  }

  lemma PrintArray(lib: Lib, items: seq<Value>, indent: int)
    ensures Print(lib, Arr(items), indent)
         == [OPEN_ARRAY] + PrintItems(lib, items, Inner(indent))
            + (if items == [] then [] else NewLine(indent)) + [CLOSE_ARRAY]
  {
  }

  lemma PrintObject(lib: Lib, members: seq<Member>, indent: int)
    ensures Print(lib, Obj(members), indent)
         == [OPEN_OBJECT] + PrintMembers(lib, members, Inner(indent))
            + (if members == [] then [] else NewLine(indent)) + [CLOSE_OBJECT]
  {
  }

  /** What _serialize writes. */
  function Serialized(lib: Lib, v: Value, indent: int): seq<byte>
  {
    Print(lib, v, indent) + (if indent == 0 then [NEWLINE] else [])
  }

  // ----- parsing -----

  /** Failed: syntax error, with the text that is still unread. Thrown: a number out of range raised an exception. */
  datatype Parse<T> = Parsed(value: T, rest: seq<byte>) | Failed(rest: seq<byte>) | Thrown

  predicate IsSpace(c: byte)
  {
    c == SPACE || c == 9 || c == NEWLINE || c == 13
  }

  function SkipSpace(s: seq<byte>): (r: seq<byte>)
    ensures |r| <= |s|
  {
    if s != [] && IsSpace(s[0]) then SkipSpace(s[1..]) else s
  }

  /** Skips white space and, if it comes next, the character c. */
  function Expect(s: seq<byte>, c: byte): (r: (bool, seq<byte>))
    ensures |r.1| <= |s| && (r.0 ==> |r.1| < |s|)
  {
    var t := SkipSpace(s);
    if t != [] && t[0] == c then (true, t[1..]) else (false, t)
  }

  /** The value of a hexadecimal digit. */
  function HexValue(c: byte): Option<nat>
  {
    if 48 <= c <= 57 then Some(c - 48)
    else if 65 <= c <= 70 then Some(c - 55)
    else if 97 <= c <= 102 then Some(c - 87)
    else None
  }

  /** n hexadecimal digits. */
  function HexNumber(s: seq<byte>, n: nat, acc: nat): (r: Parse<nat>)
    ensures r.Parsed? ==> |r.rest| == |s| - n
    decreases n
  {
    if n == 0 then Parsed(acc, s)
    else if s == [] then Failed(s)
    else
      match HexValue(s[0])
      case None => Failed(s)
      case Some(d) => HexNumber(s[1..], n - 1, 16 * acc + d)
  }

  /** The UTF-8 form of a code point (section 3 of RFC 3629). */
  function Utf8(cp: nat): (u: seq<byte>)
    requires cp < 0x110000
  {
    if cp < 0x80 then [cp]
    else if cp < 0x800 then [0xc0 + cp / 64, 0x80 + cp % 64]
    else if cp < 0x10000 then [0xe0 + cp / 4096, 0x80 + cp / 64 % 64, 0x80 + cp % 64]
    else [0xf0 + cp / 262144, 0x80 + cp / 4096 % 64, 0x80 + cp / 64 % 64, 0x80 + cp % 64]
  }

  /** The code point of a surrogate pair (section 7 of RFC 8259). */
  function Combined(high: nat, low: nat): (cp: nat)
    requires 0xd800 <= high < 0xdc00 && 0xdc00 <= low <= 0xdfff
    ensures 0x10000 <= cp < 0x110000
  {
    0x10000 + 1024 * (high - 0xd800) + (low - 0xdc00)
  }

  /** The escape behind a backslash and a u; a first surrogate must be followed by a second one. */
  function Codepoint(s: seq<byte>): (r: Parse<seq<byte>>)
    ensures r.Parsed? ==> |r.rest| < |s|
  {
    match HexNumber(s, 4, 0)
    case Failed(rest) => Failed(rest)
    case Thrown => Thrown
    case Parsed(first, rest) =>
      if first < 0xd800 || 0xdfff < first then HexSmall(s, 4, 0); Parsed(Utf8(first), rest)
      else if 0xdc00 <= first || rest == [] || rest[0] != BACKSLASH then Failed(rest)
      else if |rest| < 2 || rest[1] != LETTER_U then Failed(rest[1..])
      else
        match HexNumber(rest[2..], 4, 0)
        case Failed(after) => Failed(after)
        case Thrown => Thrown
        case Parsed(second, after) =>
          if !(0xdc00 <= second <= 0xdfff) then Failed(after)
          else Parsed(Utf8(Combined(first, second)), after)
  }

  lemma {:induction false} HexSmall(s: seq<byte>, n: nat, acc: nat)
    requires HexNumber(s, n, acc).Parsed?
    ensures HexNumber(s, n, acc).value < (acc + 1) * Pow2(4 * n)
    ensures n == 4 && acc == 0 ==> HexNumber(s, n, acc).value < 0x10000
    decreases n
  {
    hide Pow2;
    Pow2Values();
    if n > 0 {
      var d := HexValue(s[0]).value;
      HexSmall(s[1..], n - 1, 16 * acc + d);
      Pow2Add(4, 4 * (n - 1));
      MulMono(16 * acc + d + 1, 16 * (acc + 1), Pow2(4 * (n - 1)));
      Sixteen(acc + 1, Pow2(4 * (n - 1)));
    }
  }

  lemma Sixteen(a: nat, p: nat)
    ensures 16 * a * p == a * (16 * p)
  {
  }

  /** The rest of a string, up to the closing quote. */
  function ParseString(s: seq<byte>, acc: seq<byte>): (r: Parse<seq<byte>>)
    ensures r.Parsed? ==> |r.rest| < |s|
    decreases |s|
  {
    if s == [] || s[0] < SPACE then Failed(s)
    else if s[0] == QUOTE then Parsed(acc, s[1..])
    else if s[0] != BACKSLASH then ParseString(s[1..], acc + [s[0]])
    else if |s| == 1 then Failed([])
    else
      match Unescape(s[1])
      case Some(c) => ParseString(s[2..], acc + [c])
      case None =>
        if s[1] != LETTER_U then Failed(s[2..])
        else
          match Codepoint(s[2..])
          case Failed(rest) => Failed(rest)
          case Thrown => Thrown
          case Parsed(u, rest) => ParseString(rest, acc + u)
  }

  predicate IsDigit(c: byte)
  {
    48 <= c <= 57
  }

  /** A character that _parse_number takes. */
  predicate InNumber(c: byte)
  {
    IsDigit(c) || c == 43 || c == MINUS || c == 101 || c == 69 || c == DOT
  }

  /** How many characters from the start can be part of a number. */
  function NumberLength(s: seq<byte>): (n: nat)
    ensures n <= |s|
  {
    if s != [] && InNumber(s[0]) then 1 + NumberLength(s[1..]) else 0
  }

  /** The text handed to strtod: the dot is replaced by the locale's decimal point. */
  function Localized(point: seq<byte>, s: seq<byte>): seq<byte>
  {
    if s == [] then [] else (if s[0] == DOT then point else [s[0]]) + Localized(point, s[1..])
  }

  function ParseNumber(lib: Lib, s: seq<byte>): (r: Parse<Value>)
    requires s != [] && InNumber(s[0])
    ensures r.Parsed? ==> |r.rest| < |s|
  {
    var n := NumberLength(s);
    match lib.strtod(Localized(lib.point, s[..n]))
    case Number(d) => Parsed(Num(d), s[n..])
    case Partial => Failed(s[n..])
    case OutOfRange => Thrown
  }

  /** How many bytes two texts have in common at the start. */
  function Common(a: seq<byte>, b: seq<byte>): (n: nat)
    ensures n <= |a| && n <= |b| && a[..n] == b[..n]
    ensures n < |a| && n < |b| ==> a[n] != b[n]
  {
    if a == [] || b == [] || a[0] != b[0] then 0 else 1 + Common(a[1..], b[1..])
  }

  /** The rest of a literal name. */
  function Match(s: seq<byte>, text: seq<byte>, v: Value): (r: Parse<Value>)
    ensures r.Parsed? ==> |r.rest| <= |s|
  {
    if text <= s then Parsed(v, s[|text|..]) else Failed(s[Common(text, s)..])
  }

  /** std::string comparison: byte by byte, a proper prefix first. */
  predicate Less(a: seq<byte>, b: seq<byte>)
  {
    b != [] && (a == [] || a[0] < b[0] || (a[0] == b[0] && Less(a[1..], b[1..])))
  }

  /** Assigning to a key of a map: an existing member gets the new value. */
  function Assign(members: seq<Member>, key: seq<byte>, v: Value): seq<Member>
  {
    if members == [] then [Member(key, v)]
    else if members[0].key == key then [Member(key, v)] + members[1..]
    else if Less(key, members[0].key) then [Member(key, v)] + members
    else [members[0]] + Assign(members[1..], key, v)
  }

  function ParseValue(lib: Lib, s: seq<byte>): (r: Parse<Value>)
    ensures r.Parsed? ==> |r.rest| < |s|
    decreases |s|, 1
  {
    var t := SkipSpace(s);
    if t == [] then Failed(t)
    else if t[0] == 110 then Match(t[1..], NULL_TEXT[1..], Null)
    else if t[0] == 102 then Match(t[1..], FALSE_TEXT[1..], Bool(false))
    else if t[0] == 116 then Match(t[1..], TRUE_TEXT[1..], Bool(true))
    else if t[0] == QUOTE then
      (match ParseString(t[1..], [])
       case Failed(rest) => Failed(rest)
       case Thrown => Thrown
       case Parsed(str, rest) => Parsed(Str(str), rest))
    else if t[0] == OPEN_ARRAY then ParseArray(lib, t[1..])
    else if t[0] == OPEN_OBJECT then ParseObject(lib, t[1..])
    else if IsDigit(t[0]) || t[0] == MINUS then ParseNumber(lib, t)
    else Failed(t)
  }

  function ParseArray(lib: Lib, s: seq<byte>): (r: Parse<Value>)
    ensures r.Parsed? ==> |r.rest| < |s|
    decreases |s|, 3
  {
    var e := Expect(s, CLOSE_ARRAY);
    if e.0 then Parsed(Arr([]), e.1) else ParseItems(lib, e.1, [])
  }

  /** Items separated by commas, up to the closing bracket. */
  function ParseItems(lib: Lib, s: seq<byte>, acc: seq<Value>): (r: Parse<Value>)
    ensures r.Parsed? ==> |r.rest| < |s|
    decreases |s|, 2
  {
    match ParseValue(lib, s)
    case Failed(rest) => Failed(rest)
    case Thrown => Thrown
    case Parsed(v, rest) =>
      var more := Expect(rest, COMMA);
      if more.0 then ParseItems(lib, more.1, acc + [v])
      else
        var end := Expect(more.1, CLOSE_ARRAY);
        if end.0 then Parsed(Arr(acc + [v]), end.1) else Failed(end.1)
  }

  function ParseObject(lib: Lib, s: seq<byte>): (r: Parse<Value>)
    ensures r.Parsed? ==> |r.rest| < |s|
    decreases |s|, 3
  {
    var e := Expect(s, CLOSE_OBJECT);
    if e.0 then Parsed(Obj([]), e.1) else ParseMembers(lib, e.1, [])
  }

  /** A key in quotes and a colon. */
  function ParseKey(s: seq<byte>): (r: Parse<seq<byte>>)
    ensures r.Parsed? ==> |r.rest| < |s|
  {
    var open := Expect(s, QUOTE);
    if !open.0 then Failed(open.1)
    else
      match ParseString(open.1, [])
      case Failed(rest) => Failed(rest)
      case Thrown => Thrown
      case Parsed(key, rest) =>
        var colon := Expect(rest, COLON);
        if colon.0 then Parsed(key, colon.1) else Failed(colon.1)
  }

  /** Members separated by commas, up to the closing brace; a repeated key overwrites. */
  function ParseMembers(lib: Lib, s: seq<byte>, acc: seq<Member>): (r: Parse<Value>)
    ensures r.Parsed? ==> |r.rest| < |s|
    decreases |s|, 2
  {
    match ParseKey(s)
    case Failed(rest) => Failed(rest)
    case Thrown => Thrown
    case Parsed(key, afterKey) =>
      match ParseValue(lib, afterKey)
      case Failed(rest) => Failed(rest)
      case Thrown => Thrown
      case Parsed(v, rest) =>
        var more := Expect(rest, COMMA);
        if more.0 then ParseMembers(lib, more.1, Assign(acc, key, v))
        else
          var end := Expect(more.1, CLOSE_OBJECT);
          if end.0 then Parsed(Obj(Assign(acc, key, v)), end.1) else Failed(end.1)
  }
}
