/** The grammar of RFC 8259 byte by byte, with white space wherever it may stand: the parser accepts the texts of this
    grammar and no others, and gives each the value it stands for. */
module JsonGrammar {
  import opened Bits
  import opened Options
  import opened JsonText
  import opened JsonRoundTrip

  // ----- characters of a string (section 7) -----

  /** A byte as it is, a two-character escape, a code point by its four hexadecimal digits, a surrogate pair. */
  datatype Char = Raw(c: byte) | Short(letter: byte) | Hex(h: seq<byte>) | Pair(high: seq<byte>, low: seq<byte>)

  /** Quote, backslash, slash, and b, f, n, r, t for backspace, form feed, line feed, carriage return, tab. */
  function ShortMeans(letter: byte): Option<byte>
  {
    match letter
    case 0x22 => Some(0x22)
    case 0x5C => Some(0x5C)
    case 0x2F => Some(0x2F)
    case 0x62 => Some(0x08)
    case 0x66 => Some(0x0C)
    case 0x6E => Some(0x0A)
    case 0x72 => Some(0x0D)
    case 0x74 => Some(0x09)
    case _ => None
  }

  /** A hexadecimal digit: 0 to 9, A to F, a to f. */
  predicate HexChar(c: byte)
  {
    0x30 <= c <= 0x39 || 0x41 <= c <= 0x46 || 0x61 <= c <= 0x66
  }

  function HexPlace(c: byte): (d: nat)
    requires HexChar(c)
    ensures d < 16
  {
    if c <= 0x39 then c - 0x30 else if c <= 0x46 then c - 0x41 + 10 else c - 0x61 + 10
  }

  predicate GoodHex(h: seq<byte>)
  {
    |h| == 4 && HexChar(h[0]) && HexChar(h[1]) && HexChar(h[2]) && HexChar(h[3])
  }

  function FourHex(h: seq<byte>): (n: nat)
    requires GoodHex(h)
    ensures n < 0x10000
  {
    0x1000 * HexPlace(h[0]) + 0x100 * HexPlace(h[1]) + 0x10 * HexPlace(h[2]) + HexPlace(h[3])
  }

  predicate GoodChar(ch: Char)
  {
    match ch
    case Raw(c) => c >= 0x20 && c != 0x22 && c != 0x5C
    case Short(letter) => ShortMeans(letter).Some?
    case Hex(h) => GoodHex(h) && !(0xD800 <= FourHex(h) <= 0xDFFF)
    case Pair(high, low) =>
      && GoodHex(high) && 0xD800 <= FourHex(high) <= 0xDBFF
      && GoodHex(low) && 0xDC00 <= FourHex(low) <= 0xDFFF
  }

  function CharText(ch: Char): seq<byte>
  {
    match ch
    case Raw(c) => [c]
    case Short(letter) => [0x5C, letter]
    case Hex(h) => [0x5C, 0x75] + h
    case Pair(high, low) => [0x5C, 0x75] + high + ([0x5C, 0x75] + low)
  }

  function CharMeans(ch: Char): seq<byte>
    requires GoodChar(ch)
  {
    match ch
    case Raw(c) => [c]
    case Short(letter) => [ShortMeans(letter).value]
    case Hex(h) => Utf8(FourHex(h))
    case Pair(high, low) => Utf8(0x10000 + 0x400 * (FourHex(high) - 0xD800) + (FourHex(low) - 0xDC00))
  }

  predicate GoodChars(chars: seq<Char>)
  {
    forall i :: 0 <= i < |chars| ==> GoodChar(chars[i])
  }

  function CharsText(chars: seq<Char>): seq<byte>
  {
    if chars == [] then [] else CharText(chars[0]) + CharsText(chars[1..])
  }

  function CharsMean(chars: seq<Char>): seq<byte>
    requires GoodChars(chars)
  {
    if chars == [] then [] else CharMeans(chars[0]) + CharsMean(chars[1..])
  }

  function StringText(chars: seq<Char>): seq<byte>
  {
    [0x22] + CharsText(chars) + [0x22]
  }

  // ----- values (sections 2 to 6) -----

  /** White space: space, tab, line feed, carriage return. */
  predicate White(w: seq<byte>)
  {
    forall i :: 0 <= i < |w| ==> w[i] == 0x20 || w[i] == 0x09 || w[i] == 0x0A || w[i] == 0x0D
  }

  /** A character of a number: a digit, plus, minus, point, E, e. */
  predicate NumberChar(c: byte)
  {
    0x30 <= c <= 0x39 || c == 0x2B || c == 0x2D || c == 0x2E || c == 0x45 || c == 0x65
  }

  /** The parser asks this much of a number and leaves the rest to strtod. */
  predicate NumberText(t: seq<byte>)
  {
    && t != [] && (0x30 <= t[0] <= 0x39 || t[0] == 0x2D)
    && forall i :: 0 <= i < |t| ==> NumberChar(t[i])
  }

  /** The text with the locale's decimal point in place of every point. */
  function Pointed(point: seq<byte>, t: seq<byte>): seq<byte>
  {
    if t == [] then [] else (if t[0] == 0x2E then point else [t[0]]) + Pointed(point, t[1..])
  }

  /** A value as it is written down, with the white space between its tokens. */
  datatype Node =
    | NullNode
    | TrueNode
    | FalseNode
    | NumberNode(digits: seq<byte>, n: real)
    | StringNode(chars: seq<Char>)
    | ArrayNode(gap: seq<byte>, items: seq<Item>)
    | ObjectNode(gap: seq<byte>, entries: seq<Entry>)

  datatype Item = Item(before: seq<byte>, node: Node, after: seq<byte>)

  datatype Entry = Entry(
    before: seq<byte>, key: seq<Char>, afterKey: seq<byte>, beforeNode: seq<byte>, node: Node, after: seq<byte>)

  predicate Good(lib: Lib, node: Node)
    decreases node
  {
    match node
    case NumberNode(digits, n) => NumberText(digits) && lib.strtod(Pointed(lib.point, digits)) == Number(n)
    case StringNode(chars) => GoodChars(chars)
    case ArrayNode(gap, items) => White(gap) && GoodItems(lib, items)
    case ObjectNode(gap, entries) => White(gap) && GoodEntries(lib, entries)
    case _ => true
  }

  predicate GoodItems(lib: Lib, items: seq<Item>)
    decreases items
  {
    items != [] ==>
      White(items[0].before) && Good(lib, items[0].node) && White(items[0].after) && GoodItems(lib, items[1..])
  }

  predicate GoodGaps(e: Entry)
  {
    White(e.before) && GoodChars(e.key) && White(e.afterKey) && White(e.beforeNode) && White(e.after)
  }

  predicate GoodEntries(lib: Lib, entries: seq<Entry>)
    decreases entries
  {
    entries != [] ==> GoodGaps(entries[0]) && Good(lib, entries[0].node) && GoodEntries(lib, entries[1..])
  }

  function NodeText(node: Node): seq<byte>
    decreases node
  {
    match node
    case NullNode => [0x6E, 0x75, 0x6C, 0x6C]
    case TrueNode => [0x74, 0x72, 0x75, 0x65]
    case FalseNode => [0x66, 0x61, 0x6C, 0x73, 0x65]
    case NumberNode(digits, _) => digits
    case StringNode(chars) => StringText(chars)
    case ArrayNode(gap, items) => [0x5B] + (if items == [] then gap else ItemsText(items)) + [0x5D]
    case ObjectNode(gap, entries) => [0x7B] + (if entries == [] then gap else EntriesText(entries)) + [0x7D]
  }

  function ItemsText(items: seq<Item>): seq<byte>
    requires items != []
    decreases items
  {
    var item := items[0];
    item.before + NodeText(item.node) + item.after + (if |items| == 1 then [] else [0x2C] + ItemsText(items[1..]))
  }

  function EntriesText(entries: seq<Entry>): seq<byte>
    requires entries != []
    decreases entries
  {
    var e := entries[0];
    e.before + StringText(e.key) + e.afterKey + [0x3A] + e.beforeNode + NodeText(e.node) + e.after
    + (if |entries| == 1 then [] else [0x2C] + EntriesText(entries[1..]))
  }

  /** The value that is written down; of several members with one key, the last. */
  function Means(lib: Lib, node: Node): Value
    requires Good(lib, node)
    decreases node
  {
    match node
    case NullNode => Null
    case TrueNode => Bool(true)
    case FalseNode => Bool(false)
    case NumberNode(_, n) => Num(n)
    case StringNode(chars) => Str(CharsMean(chars))
    case ArrayNode(_, items) => Arr(ItemsMean(lib, items))
    case ObjectNode(_, entries) => Obj(EntriesMean(lib, entries, []))
  }

  function ItemsMean(lib: Lib, items: seq<Item>): seq<Value>
    requires GoodItems(lib, items)
    decreases items
  {
    if items == [] then [] else [Means(lib, items[0].node)] + ItemsMean(lib, items[1..])
  }

  function EntriesMean(lib: Lib, entries: seq<Entry>, acc: seq<Member>): seq<Member>
    requires GoodEntries(lib, entries)
    decreases entries
  {
    if entries == [] then acc
    else EntriesMean(lib, entries[1..], Assign(acc, CharsMean(entries[0].key), Means(lib, entries[0].node)))
  }

  /** A number is read as far as it goes; nothing else depends on what follows. */
  predicate Follows(node: Node, rest: seq<byte>)
  {
    node.NumberNode? && rest != [] ==> !NumberChar(rest[0])
  }

  // ----- white space -----

  /** White space before a token does not matter. */
  lemma {:induction false} WhiteSkipped(w: seq<byte>, t: seq<byte>)
    requires White(w)
    ensures SkipSpace(w + t) == SkipSpace(t)
  {
    if w == [] {
      assert w + t == t;
    } else {
      assert (w + t)[1..] == w[1..] + t;
      WhiteSkipped(w[1..], t);
    }
  }

  /** What is skipped is white, and what stays starts with no white byte. */
  lemma {:induction false} GapBefore(s: seq<byte>) returns (w: seq<byte>)
    ensures White(w) && s == w + SkipSpace(s)
    ensures SkipSpace(s) != [] ==> !White([SkipSpace(s)[0]])
  {
    if s != [] && IsSpace(s[0]) {
      var v := GapBefore(s[1..]);
      w := [s[0]] + v;
      assert s == [s[0]] + s[1..];
    } else {
      w := [];
      assert s == [] + s;
      if s != [] {
        assert [s[0]][0] == s[0];
      }
    }
  }

  // ----- reading the strings of the grammar -----

  lemma HexIsPlace(c: byte)
    ensures HexValue(c) == if HexChar(c) then Some(HexPlace(c)) else None
  {
  }

  lemma HexStep(c: byte, t: seq<byte>, n: nat, acc: nat)
    requires n > 0 && HexChar(c)
    ensures HexNumber([c] + t, n, acc) == HexNumber(t, n - 1, 16 * acc + HexPlace(c))
  {
    HexIsPlace(c);
    assert ([c] + t)[1..] == t;
  }

  lemma HexRead(h: seq<byte>, t: seq<byte>)
    requires GoodHex(h)
    ensures HexNumber(h + t, 4, 0) == Parsed(FourHex(h), t)
  {
    hide HexPlace, HexChar, HexNumber;
    assert h + t == [h[0]] + ([h[1]] + ([h[2]] + ([h[3]] + t)));
    HexStep(h[0], [h[1]] + ([h[2]] + ([h[3]] + t)), 4, 0);
    HexStep(h[1], [h[2]] + ([h[3]] + t), 3, HexPlace(h[0]));
    HexStep(h[2], [h[3]] + t, 2, 16 * HexPlace(h[0]) + HexPlace(h[1]));
    HexStep(h[3], t, 1, 16 * (16 * HexPlace(h[0]) + HexPlace(h[1])) + HexPlace(h[2]));
    HexDone(t, FourHex(h));
  }

  lemma HexDone(t: seq<byte>, acc: nat)
    ensures HexNumber(t, 0, acc) == Parsed(acc, t)
  {
  }

  lemma ShortIsEscape(letter: byte)
    ensures Unescape(letter) == ShortMeans(letter) && (ShortMeans(letter).Some? ==> letter != 0x75)
  {
  }

  lemma PairRead(high: seq<byte>, low: seq<byte>, t: seq<byte>)
    requires GoodChar(Pair(high, low))
    ensures Codepoint(high + ([0x5C, 0x75] + (low + t))) == Parsed(CharMeans(Pair(high, low)), t)
  {
    hide HexNumber, FourHex, GoodHex, Utf8;
    var more := [0x5C, 0x75] + (low + t);
    HexRead(high, more);
    HexRead(low, t);
    assert more[2..] == low + t;
  }

  lemma CodeRead(h: seq<byte>, t: seq<byte>)
    requires GoodChar(Hex(h))
    ensures Codepoint(h + t) == Parsed(CharMeans(Hex(h)), t)
  {
    hide HexNumber, FourHex, GoodHex, Utf8;
    HexRead(h, t);
  }

  lemma CharRead(ch: Char, t: seq<byte>, acc: seq<byte>)
    requires GoodChar(ch)
    ensures ParseString(CharText(ch) + t, acc) == ParseString(t, acc + CharMeans(ch))
  {
    hide Codepoint, FourHex, GoodHex, Utf8, Unescape, ShortMeans, ParseString;
    match ch
    case Raw(c) => RawStep(c, t, acc);
    case Short(letter) => ShortStep(letter, t, acc);
    case Hex(h) =>
      CodeRead(h, t);
      CodeStep(h + t, acc);
      assert CharText(ch) + t == [0x5C, 0x75] + (h + t);
    case Pair(high, low) =>
      var more := high + ([0x5C, 0x75] + (low + t));
      PairRead(high, low, t);
      CodeStep(more, acc);
      TwoCodes([0x5C, 0x75], high, low, t);
  }

  lemma TwoCodes(u: seq<byte>, high: seq<byte>, low: seq<byte>, t: seq<byte>)
    ensures u + high + (u + low) + t == u + (high + (u + (low + t)))
  {
  }

  lemma RawStep(c: byte, t: seq<byte>, acc: seq<byte>)
    requires GoodChar(Raw(c))
    ensures ParseString([c] + t, acc) == ParseString(t, acc + [c])
  {
    assert ([c] + t)[1..] == t;
  }

  lemma ShortStep(letter: byte, t: seq<byte>, acc: seq<byte>)
    requires ShortMeans(letter).Some?
    ensures ParseString([0x5C, letter] + t, acc) == ParseString(t, acc + [ShortMeans(letter).value])
  {
    ShortIsEscape(letter);
    hide Unescape, ShortMeans, Codepoint;
    assert ([0x5C, letter] + t)[2..] == t;
  }

  lemma CodeStep(t: seq<byte>, acc: seq<byte>)
    requires Codepoint(t).Parsed?
    ensures ParseString([0x5C, 0x75] + t, acc) == ParseString(Codepoint(t).rest, acc + Codepoint(t).value)
  {
    hide Codepoint;
    assert ([0x5C, 0x75] + t)[2..] == t;
  }

  /** The parser reads the characters of a string up to its closing quote. */
  lemma {:induction false} CharsRead(chars: seq<Char>, rest: seq<byte>, acc: seq<byte>)
    requires GoodChars(chars)
    ensures ParseString(CharsText(chars) + ([0x22] + rest), acc) == Parsed(acc + CharsMean(chars), rest)
  {
    hide CharText, CharMeans, GoodChar;
    var tail := [0x22] + rest;
    if chars == [] {
      assert CharsText(chars) + tail == tail && tail[1..] == rest;
      assert acc + CharsMean(chars) == acc;
    } else {
      var more := CharsText(chars[1..]) + tail;
      assert CharsText(chars) + tail == CharText(chars[0]) + more;
      CharRead(chars[0], more, acc);
      CharsRead(chars[1..], rest, acc + CharMeans(chars[0]));
      assert acc + CharMeans(chars[0]) + CharsMean(chars[1..]) == acc + CharsMean(chars);
    }
  }

  // ----- ... and only those -----

  lemma HexTaken(c: byte, t: seq<byte>, n: nat, acc: nat)
    requires n > 0 && HexNumber([c] + t, n, acc).Parsed?
    ensures HexChar(c) && HexNumber([c] + t, n, acc) == HexNumber(t, n - 1, 16 * acc + HexPlace(c))
  {
    HexIsPlace(c);
    assert ([c] + t)[1..] == t;
  }

  lemma HexOf(s: seq<byte>)
    requires HexNumber(s, 4, 0).Parsed?
    ensures |s| >= 4 && GoodHex(s[..4]) && HexNumber(s, 4, 0) == Parsed(FourHex(s[..4]), s[4..])
  {
    hide HexNumber, FourHex, GoodHex;
    HexOfFour(s[0], s[1], s[2], s[3], s[4..]);
    CutFour(s);
    FirstFour(s);
  }

  lemma FirstFour(s: seq<byte>)
    requires |s| >= 4
    ensures s[..4] == [s[0], s[1], s[2], s[3]]
  {
  }

  lemma CutFour(s: seq<byte>)
    requires |s| >= 4
    ensures s == [s[0]] + ([s[1]] + ([s[2]] + ([s[3]] + s[4..])))
  {
    assert s == s[0..];
    CutAt(s, 0);
    CutAt(s, 1);
    CutAt(s, 2);
    CutAt(s, 3);
  }

  lemma CutAt(s: seq<byte>, i: nat)
    requires i < |s|
    ensures s[i..] == [s[i]] + s[i + 1..]
  {
  }

  lemma HexOfFour(a: byte, b: byte, c: byte, d: byte, t: seq<byte>)
    ensures var s := [a] + ([b] + ([c] + ([d] + t)));
      HexNumber(s, 4, 0).Parsed? ==> GoodHex([a, b, c, d]) && HexNumber(s, 4, 0) == Parsed(FourHex([a, b, c, d]), t)
  {
    hide HexPlace, HexChar, HexNumber;
    if HexNumber([a] + ([b] + ([c] + ([d] + t))), 4, 0).Parsed? {
      HexTaken(a, [b] + ([c] + ([d] + t)), 4, 0);
      HexTaken(b, [c] + ([d] + t), 3, HexPlace(a));
      HexTaken(c, [d] + t, 2, 16 * HexPlace(a) + HexPlace(b));
      HexTaken(d, t, 1, 16 * (16 * HexPlace(a) + HexPlace(b)) + HexPlace(c));
      HexDone(t, FourHex([a, b, c, d]));
    }
  }

  lemma CodeOf(s: seq<byte>) returns (ch: Char)
    requires Codepoint(s).Parsed?
    ensures GoodChar(ch) && [0x5C, 0x75] + s == CharText(ch) + Codepoint(s).rest && CharMeans(ch) == Codepoint(s).value
  {
    hide HexNumber, FourHex, GoodHex, Utf8;
    HexOf(s);
    if FourHex(s[..4]) < 0xD800 || 0xDFFF < FourHex(s[..4]) {
      ch := Hex(s[..4]);
      assert s == s[..4] + s[4..];
    } else {
      var more := s[4..][2..];
      HexOf(more);
      ch := Pair(s[..4], more[..4]);
      assert s == s[..4] + ([s[4..][0], s[4..][1]] + (more[..4] + more[4..]));
    }
  }

  lemma {:induction false} CharsOf(s: seq<byte>, acc: seq<byte>) returns (chars: seq<Char>)
    requires ParseString(s, acc).Parsed?
    ensures GoodChars(chars) && s == CharsText(chars) + ([0x22] + ParseString(s, acc).rest)
    ensures ParseString(s, acc).value == acc + CharsMean(chars)
    decreases |s|
  {
    hide Codepoint, CharText, CharMeans, GoodChar, Unescape, ShortMeans;
    var r := ParseString(s, acc);
    if s[0] == 0x22 {
      chars := [];
      assert s == [] + ([0x22] + s[1..]);
    } else {
      var ch := CharOf(s, acc);
      var t := s[|CharText(ch)|..];
      assert s == CharText(ch) + t;
      CharRead(ch, t, acc);
      var more := CharsOf(t, acc + CharMeans(ch));
      chars := [ch] + more;
      assert chars[1..] == more;
      assert acc + CharMeans(ch) + CharsMean(more) == acc + CharsMean(chars);
    }
  }

  /** The first character of a string that is read. */
  lemma CharOf(s: seq<byte>, acc: seq<byte>) returns (ch: Char)
    requires ParseString(s, acc).Parsed? && s[0] != 0x22
    ensures GoodChar(ch) && CharText(ch) <= s && |CharText(ch)| > 0
  {
    hide Codepoint, Unescape, ShortMeans, CharMeans, FourHex, GoodHex;
    if s[0] != 0x5C {
      ch := Raw(s[0]);
    } else {
      ShortIsEscape(s[1]);
      if Unescape(s[1]).Some? {
        ch := Short(s[1]);
      } else {
        ch := CodeOf(s[2..]);
        assert s == [0x5C, 0x75] + s[2..];
      }
    }
  }

  // ----- reading the values of the grammar -----

  lemma NumberChars(c: byte)
    ensures InNumber(c) <==> NumberChar(c)
  {
  }

  lemma {:induction false} NumberTaken(t: seq<byte>, rest: seq<byte>)
    requires (forall i :: 0 <= i < |t| ==> NumberChar(t[i])) && (rest != [] ==> !NumberChar(rest[0]))
    ensures NumberLength(t + rest) == |t|
  {
    hide InNumber, NumberChar;
    if t == [] {
      assert t + rest == rest;
      if rest != [] {
        NumberChars(rest[0]);
      }
    } else {
      NumberChars(t[0]);
      assert (t + rest)[1..] == t[1..] + rest;
      NumberTaken(t[1..], rest);
    }
  }

  lemma {:induction false} PointedIs(point: seq<byte>, t: seq<byte>)
    ensures Localized(point, t) == Pointed(point, t)
  {
    if t != [] {
      PointedIs(point, t[1..]);
    }
  }

  lemma NumberRead(lib: Lib, t: seq<byte>, n: real, rest: seq<byte>)
    requires Good(lib, NumberNode(t, n)) && Follows(NumberNode(t, n), rest)
    ensures ParseValue(lib, t + rest) == Parsed(Num(n), rest)
  {
    hide ParseArray, ParseObject, ParseString, InNumber, NumberLength, Localized, Pointed;
    NumberTaken(t, rest);
    PointedIs(lib.point, t);
    NumberChars(t[0]);
    assert (t + rest)[..|t|] == t && (t + rest)[|t|..] == rest;
    assert SkipSpace(t + rest) == t + rest;
    assert (t + rest)[0] == t[0];
  }

  lemma LiteralRead(lib: Lib, node: Node, rest: seq<byte>)
    requires node.NullNode? || node.TrueNode? || node.FalseNode?
    ensures ParseValue(lib, NodeText(node) + rest) == Parsed(Means(lib, node), rest)
  {
    hide ParseArray, ParseObject, ParseNumber, ParseString;
    var t := NodeText(node) + rest;
    assert t[1..] == NodeText(node)[1..] + rest;
  }

  lemma StringRead(lib: Lib, chars: seq<Char>, rest: seq<byte>)
    requires GoodChars(chars)
    ensures ParseValue(lib, StringText(chars) + rest) == Parsed(Str(CharsMean(chars)), rest)
  {
    hide ParseArray, ParseObject, ParseNumber, ParseString, CharsText, CharsMean;
    var t := StringText(chars) + rest;
    assert t[1..] == CharsText(chars) + ([0x22] + rest);
    CharsRead(chars, rest, []);
    assert [] + CharsMean(chars) == CharsMean(chars);
  }

  /** A token behind white space. */
  lemma TokenFound(w: seq<byte>, c: byte, rest: seq<byte>)
    requires White(w) && !White([c])
    ensures Expect(w + ([c] + rest), c) == (true, rest)
  {
    var t := [c] + rest;
    WhiteSkipped(w, t);
    NeverSkipped(t);
    assert t[1..] == rest;
  }

  lemma TokenMissed(w: seq<byte>, c: byte, d: byte, rest: seq<byte>)
    requires White(w) && !White([d]) && c != d
    ensures Expect(w + ([d] + rest), c) == (false, [d] + rest)
  {
    WhiteSkipped(w, [d] + rest);
    NeverSkipped([d] + rest);
  }

  /** A text that starts with any other byte is left as it is. */
  lemma NeverSkipped(t: seq<byte>)
    requires t != [] && !White([t[0]])
    ensures SkipSpace(t) == t
  {
    assert [t[0]][0] == t[0];
  }

  /** The characters that the grammar puts between values are not white. */
  lemma TokensAreDark()
    ensures !White([0x2C]) && !White([0x3A]) && !White([0x5B]) && !White([0x5D]) && !White([0x7B]) && !White([0x7D])
    ensures !White([0x22])
    ensures !NumberChar(0x2C) && !NumberChar(0x5D) && !NumberChar(0x7D)
  {
    assert [0x2C][0] == 0x2C && [0x3A][0] == 0x3A && [0x5B][0] == 0x5B && [0x5D][0] == 0x5D && [0x7B][0] == 0x7B
        && [0x7D][0] == 0x7D && [0x22][0] == 0x22;
  }

  /** White space and then a token end a number. */
  lemma GapEnds(node: Node, w: seq<byte>, c: byte, rest: seq<byte>)
    requires White(w) && !NumberChar(c)
    ensures Follows(node, w + ([c] + rest))
  {
    if w != [] {
      assert (w + ([c] + rest))[0] == w[0];
    }
  }

  /** White space is skipped before a value and before a token. */
  lemma TokenBehindGap(w: seq<byte>, t: seq<byte>, c: byte)
    requires White(w)
    ensures Expect(w + t, c) == Expect(t, c)
  {
    WhiteSkipped(w, t);
  }

  lemma ValueBehindGap(lib: Lib, w: seq<byte>, t: seq<byte>)
    requires White(w)
    ensures ParseValue(lib, w + t) == ParseValue(lib, t)
  {
    hide ParseValue, SkipSpace;
    WhiteSkipped(w, t);
    SpaceBeforeValue(lib, w + t, t);
  }

  lemma {:induction false} ItemsRead(lib: Lib, items: seq<Item>, acc: seq<Value>, rest: seq<byte>)
    requires items != [] && GoodItems(lib, items)
    ensures ParseItems(lib, ItemsText(items) + ([0x5D] + rest), acc) == Parsed(Arr(acc + ItemsMean(lib, items)), rest)
    decreases items, 1
  {
    hide NodeText, Means, Good, ParseValue, Expect, White, NumberChar, Follows;
    var item := items[0];
    var end := [0x5D] + rest;
    TokensAreDark();
    if |items| == 1 {
      var tail := item.after + end;
      ItemText(items, end);
      assert [] + end == end;
      GapEnds(item.node, item.after, 0x5D, rest);
      ItemRead(lib, item, tail);
      TokenMissed(item.after, 0x2C, 0x5D, rest);
      TokenFound([], 0x5D, rest);
      assert [Means(lib, item.node)] + [] == [Means(lib, item.node)];
    } else {
      var next := ItemsText(items[1..]) + end;
      var tail := item.after + ([0x2C] + next);
      ItemText(items, end);
      assert [0x2C] + ItemsText(items[1..]) + end == [0x2C] + next;
      GapEnds(item.node, item.after, 0x2C, next);
      ItemRead(lib, item, tail);
      TokenFound(item.after, 0x2C, next);
      ItemsRead(lib, items[1..], acc + [Means(lib, item.node)], rest);
      assert acc + [Means(lib, item.node)] + ItemsMean(lib, items[1..]) == acc + ItemsMean(lib, items);
    }
  }

  lemma ItemText(items: seq<Item>, end: seq<byte>)
    requires items != []
    ensures var item := items[0]; var more := if |items| == 1 then [] else [0x2C] + ItemsText(items[1..]);
      ItemsText(items) + end == item.before + (NodeText(item.node) + (item.after + (more + end)))
  {
    hide NodeText;
    var item := items[0];
    Regroup(item.before, NodeText(item.node), item.after, if |items| == 1 then [] else [0x2C] + ItemsText(items[1..]), end);
  }

  lemma Regroup(a: seq<byte>, b: seq<byte>, c: seq<byte>, d: seq<byte>, e: seq<byte>)
    ensures a + b + c + d + e == a + (b + (c + (d + e)))
  {
  }

  lemma ItemRead(lib: Lib, item: Item, tail: seq<byte>)
    requires White(item.before) && Good(lib, item.node) && Follows(item.node, tail)
    ensures ParseValue(lib, item.before + (NodeText(item.node) + tail)) == Parsed(Means(lib, item.node), tail)
    decreases item
  {
    hide NodeText, Means, Good, ParseValue, Follows;
    NodeRead(lib, item.node, tail);
    ValueBehindGap(lib, item.before, NodeText(item.node) + tail);
  }

  /** Reading the text of a value, whatever the white space between its tokens, gives what it stands for. */
  lemma {:induction false} NodeRead(lib: Lib, node: Node, rest: seq<byte>)
    requires Good(lib, node) && Follows(node, rest)
    ensures ParseValue(lib, NodeText(node) + rest) == Parsed(Means(lib, node), rest)
    decreases node
  {
    hide ParseValue, ItemsText, EntriesText, ItemsMean, EntriesMean, GoodItems, GoodEntries, StringText, CharsMean, NumberText;
    match node
    case NumberNode(digits, n) => NumberRead(lib, digits, n, rest);
    case StringNode(chars) => StringRead(lib, chars, rest);
    case ArrayNode(gap, items) => ArrayRead(lib, gap, items, rest);
    case ObjectNode(gap, entries) => ObjectRead(lib, gap, entries, rest);
    case _ => LiteralRead(lib, node, rest);
  }

  lemma ArrayRead(lib: Lib, gap: seq<byte>, items: seq<Item>, rest: seq<byte>)
    requires White(gap) && GoodItems(lib, items)
    ensures var inside := if items == [] then gap else ItemsText(items);
      ParseValue(lib, [0x5B] + inside + [0x5D] + rest) == Parsed(Arr(ItemsMean(lib, items)), rest)
    decreases items, 2
  {
    hide ParseValue, ParseItems, ItemsText, White, SkipSpace, Good;
    var inside := if items == [] then gap else ItemsText(items);
    var list := inside + ([0x5D] + rest);
    var all := [0x5B] + inside + [0x5D] + rest;
    assert all[1..] == list && all[0] == 0x5B;
    TokensAreDark();
    OpensArray(lib, all);
    if items == [] {
      TokenFound(gap, 0x5D, rest);
    } else {
      ItemsRead(lib, items, [], rest);
      ItemsOpen(lib, items, [0x5D] + rest);
      SkipTwice(list);
      SpaceBeforeItems(lib, list, SkipSpace(list), []);
      assert [] + ItemsMean(lib, items) == ItemsMean(lib, items);
    }
  }

  /** A list of items does not start with a closing bracket. */
  lemma ItemsOpen(lib: Lib, items: seq<Item>, tail: seq<byte>)
    requires items != [] && GoodItems(lib, items)
    ensures Expect(ItemsText(items) + tail, 0x5D) == (false, SkipSpace(ItemsText(items) + tail))
  {
    hide White, SkipSpace;
    var item := items[0];
    NodeStart(lib, item.node);
    var text := NodeText(item.node);
    var more := item.after + (if |items| == 1 then [] else [0x2C] + ItemsText(items[1..])) + tail;
    assert text == [text[0]] + text[1..];
    assert ItemsText(items) + tail == item.before + ([text[0]] + (text[1..] + more));
    TokenMissed(item.before, 0x5D, text[0], text[1..] + more);
  }

  lemma NodeStart(lib: Lib, node: Node)
    requires Good(lib, node)
    ensures var t := NodeText(node); t != [] && !White([t[0]]) && t[0] != 0x5D && t[0] != 0x7D
  {
    hide ItemsText, EntriesText, CharsText, GoodItems, GoodEntries;
    assert [NodeText(node)[0]][0] == NodeText(node)[0];
  }

  lemma {:induction false} EntriesRead(lib: Lib, entries: seq<Entry>, acc: seq<Member>, rest: seq<byte>)
    requires entries != [] && GoodEntries(lib, entries)
    ensures ParseMembers(lib, EntriesText(entries) + ([0x7D] + rest), acc)
         == Parsed(Obj(EntriesMean(lib, entries, acc)), rest)
    decreases entries, 1
  {
    hide NodeText, Means, Good, ParseValue, ParseKey, Expect, White, NumberChar, Follows, StringText, CharsMean, Assign;
    var e := entries[0];
    var end := [0x7D] + rest;
    TokensAreDark();
    if |entries| == 1 {
      var tail := e.after + end;
      EntryText(e, [], end);
      assert EntriesText(entries) + end == HeadText(e) + [] + end;
      GapEnds(e.node, e.after, 0x7D, rest);
      EntryRead(lib, e, tail);
      TokenMissed(e.after, 0x2C, 0x7D, rest);
      TokenFound([], 0x7D, rest);
      assert [] + end == end;
    } else {
      var next := EntriesText(entries[1..]) + end;
      var tail := e.after + ([0x2C] + next);
      EntryText(e, [0x2C] + EntriesText(entries[1..]), end);
      assert [0x2C] + EntriesText(entries[1..]) + end == [0x2C] + next;
      GapEnds(e.node, e.after, 0x2C, next);
      EntryRead(lib, e, tail);
      TokenFound(e.after, 0x2C, next);
      EntriesRead(lib, entries[1..], Assign(acc, CharsMean(e.key), Means(lib, e.node)), rest);
    }
  }

  function HeadText(e: Entry): seq<byte>
  {
    e.before + StringText(e.key) + e.afterKey + [0x3A] + e.beforeNode + NodeText(e.node) + e.after
  }

  lemma EntryText(e: Entry, more: seq<byte>, end: seq<byte>)
    ensures HeadText(e) + more + end
         == e.before + (StringText(e.key) + (e.afterKey + ([0x3A] + (e.beforeNode + (NodeText(e.node) + (e.after + (more + end)))))))
  {
    hide StringText, NodeText;
  }

  lemma EntryRead(lib: Lib, e: Entry, tail: seq<byte>)
    requires GoodGaps(e) && Good(lib, e.node) && Follows(e.node, tail)
    ensures var text := e.beforeNode + (NodeText(e.node) + tail);
      && ParseKey(e.before + (StringText(e.key) + (e.afterKey + ([0x3A] + text)))) == Parsed(CharsMean(e.key), text)
      && ParseValue(lib, text) == Parsed(Means(lib, e.node), tail)
    decreases e
  {
    hide NodeText, Means, Good, ParseValue, Follows, White, ParseString, Expect, CharsText, CharsMean;
    var text := e.beforeNode + (NodeText(e.node) + tail);
    NodeRead(lib, e.node, tail);
    ValueBehindGap(lib, e.beforeNode, NodeText(e.node) + tail);
    TokensAreDark();
    var colon := e.afterKey + ([0x3A] + text);
    var chars := CharsText(e.key) + ([0x22] + colon);
    assert StringText(e.key) + colon == [0x22] + chars;
    TokenFound(e.before, 0x22, chars);
    CharsRead(e.key, colon, []);
    assert [] + CharsMean(e.key) == CharsMean(e.key);
    TokenFound(e.afterKey, 0x3A, text);
  }

  lemma ObjectRead(lib: Lib, gap: seq<byte>, entries: seq<Entry>, rest: seq<byte>)
    requires White(gap) && GoodEntries(lib, entries)
    ensures var inside := if entries == [] then gap else EntriesText(entries);
      ParseValue(lib, [0x7B] + inside + [0x7D] + rest) == Parsed(Obj(EntriesMean(lib, entries, [])), rest)
    decreases entries, 2
  {
    hide ParseValue, ParseMembers, EntriesText, White, SkipSpace, Good;
    var inside := if entries == [] then gap else EntriesText(entries);
    var list := inside + ([0x7D] + rest);
    var all := [0x7B] + inside + [0x7D] + rest;
    assert all[1..] == list && all[0] == 0x7B;
    TokensAreDark();
    OpensObject(lib, all);
    if entries == [] {
      TokenFound(gap, 0x7D, rest);
    } else {
      EntriesRead(lib, entries, [], rest);
      EntriesOpen(lib, entries, [0x7D] + rest);
      SkipTwice(list);
      SpaceBeforeMembers(lib, list, SkipSpace(list), []);
    }
  }

  lemma EntriesOpen(lib: Lib, entries: seq<Entry>, tail: seq<byte>)
    requires entries != [] && GoodEntries(lib, entries)
    ensures Expect(EntriesText(entries) + tail, 0x7D) == (false, SkipSpace(EntriesText(entries) + tail))
  {
    hide White, SkipSpace, NodeText, CharsText;
    var e := entries[0];
    TokensAreDark();
    var more := if |entries| == 1 then [] else [0x2C] + EntriesText(entries[1..]);
    EntryText(e, more, tail);
    assert EntriesText(entries) == HeadText(e) + more;
    var after := e.afterKey + ([0x3A] + (e.beforeNode + (NodeText(e.node) + (e.after + (more + tail)))));
    assert StringText(e.key) + after == [0x22] + (CharsText(e.key) + [0x22] + after);
    TokenMissed(e.before, 0x7D, 0x22, CharsText(e.key) + [0x22] + after);
  }

  // ----- ... and only those -----

  lemma {:induction false} LongestNumber(s: seq<byte>)
    ensures var n := NumberLength(s); (forall i :: 0 <= i < n ==> NumberChar(s[i])) && (n < |s| ==> !NumberChar(s[n]))
  {
    hide InNumber, NumberChar;
    if s != [] {
      NumberChars(s[0]);
      if InNumber(s[0]) {
        LongestNumber(s[1..]);
        forall i | 0 <= i < NumberLength(s) ensures NumberChar(s[i]) {
          if i > 0 {
            assert s[1..][i - 1] == s[i];
          }
        }
      }
    }
  }

  lemma NumberOf(lib: Lib, t: seq<byte>) returns (node: Node)
    requires t != [] && (0x30 <= t[0] <= 0x39 || t[0] == 0x2D) && ParseNumber(lib, t).Parsed?
    ensures Good(lib, node) && t == NodeText(node) + ParseNumber(lib, t).rest
    ensures Means(lib, node) == ParseNumber(lib, t).value && Follows(node, ParseNumber(lib, t).rest)
  {
    hide Localized, Pointed, InNumber, NumberLength, NumberChar;
    var n := NumberLength(t);
    LongestNumber(t);
    NumberChars(t[0]);
    StartsNumber(t);
    PointedIs(lib.point, t[..n]);
    node := NumberNode(t[..n], ParseNumber(lib, t).value.n);
    assert t == t[..n] + t[n..];
    assert n < |t| ==> t[n..][0] == t[n];
  }

  lemma StartsNumber(t: seq<byte>)
    requires t != [] && (0x30 <= t[0] <= 0x39 || t[0] == 0x2D)
    ensures NumberLength(t) > 0
  {
  }

  lemma TokenOf(s: seq<byte>, c: byte) returns (w: seq<byte>)
    ensures White(w)
    ensures Expect(s, c).0 ==> s == w + ([c] + Expect(s, c).1)
    ensures !Expect(s, c).0 ==> s == w + Expect(s, c).1 && SkipSpace(Expect(s, c).1) == Expect(s, c).1
  {
    hide White;
    w := GapBefore(s);
    SkipTwice(s);
    var t := SkipSpace(s);
    if t != [] {
      assert t == [t[0]] + t[1..];
    }
  }

  lemma LastToken(s: seq<byte>, c: byte)
    requires SkipSpace(s) == s && Expect(s, c).0
    ensures s == [c] + Expect(s, c).1
  {
    assert s == [s[0]] + s[1..];
  }

  /** What the parser accepts is a text of the grammar. */
  lemma {:induction false} NodeOf(lib: Lib, s: seq<byte>) returns (w: seq<byte>, node: Node)
    requires ParseValue(lib, s).Parsed?
    ensures White(w) && Good(lib, node) && s == w + (NodeText(node) + ParseValue(lib, s).rest)
    ensures Means(lib, node) == ParseValue(lib, s).value && Follows(node, ParseValue(lib, s).rest)
    decreases |s|, 1
  {
    hide ParseArray, ParseObject, ParseNumber, Means, NodeText, Good, White, Match, Follows;
    var t := SkipSpace(s);
    w := GapBefore(s);
    assert t == [t[0]] + t[1..];
    if t[0] == 0x5B {
      node := ArrayOf(lib, t[1..]);
    } else if t[0] == 0x7B {
      node := ObjectOf(lib, t[1..]);
    } else if t[0] == 0x22 {
      node := StringOf(lib, t[1..]);
    } else if t[0] == 0x6E || t[0] == 0x66 || t[0] == 0x74 {
      node := LiteralOf(lib, t);
    } else {
      node := NumberOf(lib, t);
    }
  }

  lemma MatchOf(c: byte, name: seq<byte>, t: seq<byte>, v: Value)
    requires t != [] && t[0] == c && Match(t[1..], name, v).Parsed?
    ensures t == [c] + name + Match(t[1..], name, v).rest && Match(t[1..], name, v).value == v
  {
    assert t == [c] + t[1..] && t[1..] == name + t[1..][|name|..];
  }

  lemma LiteralOf(lib: Lib, t: seq<byte>) returns (node: Node)
    requires t != [] && (t[0] == 0x6E || t[0] == 0x66 || t[0] == 0x74) && ParseValue(lib, t).Parsed?
    ensures Good(lib, node) && t == NodeText(node) + ParseValue(lib, t).rest
    ensures Means(lib, node) == ParseValue(lib, t).value && Follows(node, ParseValue(lib, t).rest)
  {
    hide ParseArray, ParseObject, ParseNumber, ParseString, Match;
    Names();
    if t[0] == 0x6E {
      node := NullNode;
      MatchOf(0x6E, NULL_TEXT[1..], t, Null);
    } else if t[0] == 0x66 {
      node := FalseNode;
      MatchOf(0x66, FALSE_TEXT[1..], t, Bool(false));
    } else {
      node := TrueNode;
      MatchOf(0x74, TRUE_TEXT[1..], t, Bool(true));
    }
  }

  lemma Names()
    ensures [0x6E] + NULL_TEXT[1..] == NodeText(NullNode)
    ensures [0x66] + FALSE_TEXT[1..] == NodeText(FalseNode)
    ensures [0x74] + TRUE_TEXT[1..] == NodeText(TrueNode)
  {
  }

  lemma StringOf(lib: Lib, s: seq<byte>) returns (node: Node)
    requires ParseString(s, []).Parsed?
    ensures Good(lib, node) && [0x22] + s == NodeText(node) + ParseString(s, []).rest
    ensures Means(lib, node) == Str(ParseString(s, []).value) && Follows(node, ParseString(s, []).rest)
  {
    hide ParseString, CharsText, CharsMean;
    var chars := CharsOf(s, []);
    assert [] + CharsMean(chars) == CharsMean(chars);
    node := StringNode(chars);
  }

  lemma ArrayOf(lib: Lib, s: seq<byte>) returns (node: Node)
    requires ParseArray(lib, s).Parsed?
    ensures Good(lib, node) && [0x5B] + s == NodeText(node) + ParseArray(lib, s).rest
    ensures Means(lib, node) == ParseArray(lib, s).value && Follows(node, ParseArray(lib, s).rest)
    decreases |s|, 3
  {
    hide ParseItems, White, ItemsText, SkipSpace, GoodItems;
    var e := Expect(s, 0x5D);
    if e.0 {
      var gap := TokenOf(s, 0x5D);
      node := ArrayNode(gap, []);
      EmptyNodes(lib, gap);
      assert [0x5B] + s == [0x5B] + gap + [0x5D] + e.1;
    } else {
      SkipTwice(s);
      SpaceBeforeItems(lib, s, e.1, []);
      var items := ItemsOf(lib, s, []);
      assert [] + ItemsMean(lib, items) == ItemsMean(lib, items);
      node := ArrayNode([], items);
      Nothing();
      assert [0x5B] + s == NodeText(node) + ParseArray(lib, s).rest;
    }
  }

  lemma EmptyNodes(lib: Lib, gap: seq<byte>)
    requires White(gap)
    ensures Good(lib, ArrayNode(gap, [])) && Good(lib, ObjectNode(gap, []))
    ensures Means(lib, ArrayNode(gap, [])) == Arr([]) && Means(lib, ObjectNode(gap, [])) == Obj([])
  {
  }

  lemma Nothing()
    ensures White([])
  {
  }

  lemma {:induction false} ItemsOf(lib: Lib, s: seq<byte>, acc: seq<Value>) returns (items: seq<Item>)
    requires ParseItems(lib, s, acc).Parsed?
    ensures items != [] && GoodItems(lib, items) && s == ItemsText(items) + ([0x5D] + ParseItems(lib, s, acc).rest)
    ensures ParseItems(lib, s, acc).value == Arr(acc + ItemsMean(lib, items))
    decreases |s|, 2
  {
    hide ParseValue, Expect, White, Good, Means, NodeText, SkipSpace;
    var w, node := NodeOf(lib, s);
    var r := ParseValue(lib, s);
    var more := Expect(r.rest, 0x2C);
    var after := TokenOf(r.rest, 0x2C);
    var item := Item(w, node, after);
    if more.0 {
      var others := ItemsOf(lib, more.1, acc + [r.value]);
      items := [item] + others;
      assert items[1..] == others;
      assert acc + [r.value] + ItemsMean(lib, others) == acc + ItemsMean(lib, items);
    } else {
      LastToken(more.1, 0x5D);
      items := [item];
      assert ItemsMean(lib, items) == [r.value] + [];
    }
  }

  lemma ObjectOf(lib: Lib, s: seq<byte>) returns (node: Node)
    requires ParseObject(lib, s).Parsed?
    ensures Good(lib, node) && [0x7B] + s == NodeText(node) + ParseObject(lib, s).rest
    ensures Means(lib, node) == ParseObject(lib, s).value && Follows(node, ParseObject(lib, s).rest)
    decreases |s|, 3
  {
    hide ParseMembers, White, EntriesText, SkipSpace, GoodEntries;
    var e := Expect(s, 0x7D);
    if e.0 {
      var gap := TokenOf(s, 0x7D);
      node := ObjectNode(gap, []);
      EmptyNodes(lib, gap);
      assert [0x7B] + s == [0x7B] + gap + [0x7D] + e.1;
    } else {
      SkipTwice(s);
      SpaceBeforeMembers(lib, s, e.1, []);
      var entries := EntriesOf(lib, s, []);
      node := ObjectNode([], entries);
      Nothing();
      assert [0x7B] + s == NodeText(node) + ParseObject(lib, s).rest;
    }
  }

  /** A key and what follows its colon. */
  lemma KeyOf(s: seq<byte>) returns (before: seq<byte>, key: seq<Char>, afterKey: seq<byte>)
    requires ParseKey(s).Parsed?
    ensures White(before) && GoodChars(key) && White(afterKey)
    ensures s == before + (StringText(key) + (afterKey + ([0x3A] + ParseKey(s).rest))) && ParseKey(s).value == CharsMean(key)
  {
    hide ParseString, Expect, White, CharsText, CharsMean;
    before := TokenOf(s, 0x22);
    var open := Expect(s, 0x22);
    key := CharsOf(open.1, []);
    assert [] + CharsMean(key) == CharsMean(key);
    afterKey := TokenOf(ParseString(open.1, []).rest, 0x3A);
  }

  lemma {:induction false} EntriesOf(lib: Lib, s: seq<byte>, acc: seq<Member>) returns (entries: seq<Entry>)
    requires ParseMembers(lib, s, acc).Parsed?
    ensures entries != [] && GoodEntries(lib, entries)
    ensures s == EntriesText(entries) + ([0x7D] + ParseMembers(lib, s, acc).rest)
    ensures ParseMembers(lib, s, acc).value == Obj(EntriesMean(lib, entries, acc))
    decreases |s|, 2
  {
    hide ParseValue, ParseKey, Expect, White, Good, Means, NodeText, SkipSpace, StringText, Assign, CharsMean;
    var before, key, afterKey := KeyOf(s);
    var k := ParseKey(s);
    var w, node := NodeOf(lib, k.rest);
    var r := ParseValue(lib, k.rest);
    var more := Expect(r.rest, 0x2C);
    var after := TokenOf(r.rest, 0x2C);
    var e := Entry(before, key, afterKey, w, node, after);
    if more.0 {
      var others := EntriesOf(lib, more.1, Assign(acc, k.value, r.value));
      entries := [e] + others;
      assert entries[1..] == others;
      var end := [0x7D] + ParseMembers(lib, s, acc).rest;
      EntryText(e, [0x2C] + EntriesText(others), end);
      assert [0x2C] + EntriesText(others) + end == [0x2C] + more.1;
    } else {
      LastToken(more.1, 0x7D);
      entries := [e];
      EntryText(e, [], more.1);
      assert [] + more.1 == more.1;
    }
  }

  // ----- the parser and the grammar -----

  /** The text s is white space, a text of the grammar that stands for v, and then rest. */
  ghost predicate Splits(lib: Lib, s: seq<byte>, w: seq<byte>, node: Node, v: Value, rest: seq<byte>)
  {
    && White(w) && Good(lib, node) && Means(lib, node) == v && Follows(node, rest)
    && s == w + (NodeText(node) + rest)
  }

  /** The parser reads a value exactly where the grammar has one, and reads the value that it stands for there. */
  lemma ParserIsGrammar(lib: Lib, s: seq<byte>, v: Value, rest: seq<byte>)
    ensures ParseValue(lib, s) == Parsed(v, rest) <==> exists w, node :: Splits(lib, s, w, node, v, rest)
  {
    hide ParseValue, White, Good, Means, NodeText, Follows;
    if ParseValue(lib, s) == Parsed(v, rest) {
      var w, node := NodeOf(lib, s);
      assert Splits(lib, s, w, node, v, rest);
    }
    if w, node :| Splits(lib, s, w, node, v, rest) {
      NodeRead(lib, node, rest);
      ValueBehindGap(lib, w, NodeText(node) + rest);
    }
  }

  /** What the serializer prints is a text of the grammar, and stands for the value that is printed. */
  lemma PrintedIsJson(lib: Lib, v: Value, indent: int, rest: seq<byte>)
    requires ReadsIntegers(lib) && Plain(v) && Ends(rest)
    ensures exists w, node :: Splits(lib, Print(lib, v, indent) + rest, w, node, v, rest)
  {
    hide ParseValue, Print, Plain, ReadsIntegers, Splits;
    ValueUndone(lib, v, indent, rest);
    ParserIsGrammar(lib, Print(lib, v, indent) + rest, v, rest);
  }
}
