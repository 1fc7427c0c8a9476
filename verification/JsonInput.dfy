/** The JSON parser as the source runs it: a cursor with one character of push-back and a recursive descent. */
module JsonInput {
  import opened Bits
  import opened Options
  import opened JsonText

  function Newlines(s: seq<byte>): nat
  {
    if s == [] then 0 else Newlines(s[..|s| - 1]) + (if s[|s| - 1] == NEWLINE then 1 else 0)
  }

  /** How a parsing function ended. */
  datatype Outcome = Good | Bad | Raised

  /** Reads characters one by one. A character that was read is only passed when the next one is asked for,
      so that one ungetc is always possible. */
  class TextInput {
    const text: seq<byte>
    var cur: nat
    var consumed: bool
    var line: nat

    ghost predicate Valid()
      reads this
    {
      cur <= |text| && (consumed ==> cur < |text|) && line == 1 + Newlines(text[..cur])
    }

    /** The position of the next character. */
    ghost function Pos(): (p: nat)
      requires Valid()
      reads this
      ensures p <= |text|
    {
      if consumed then cur + 1 else cur
    }

    /** The characters not read yet. */
    ghost function Rest(): seq<byte>
      requires Valid()
      reads this
    {
      text[Pos()..]
    }

    constructor (text: seq<byte>)
      ensures Valid() && Rest() == text && this.text == text
    {
      this.text, cur, consumed, line := text, 0, false, 1;
    }

    /** The next character, or -1 at the end. */
    method Getc() returns (ch: int)
      requires Valid()
      modifies this
      ensures Valid() && cur == old(Pos())
      ensures old(Rest()) == [] ==> ch == -1 && !consumed && Rest() == []
      ensures old(Rest()) != [] ==> ch == old(Rest())[0] && consumed && Rest() == old(Rest())[1..]
    {
      if consumed {
        assert text[..cur + 1][..cur] == text[..cur];
        if text[cur] == NEWLINE {
          line := line + 1;
        }
        cur := cur + 1;
      }
      if cur == |text| {
        consumed := false;
        return -1;
      }
      consumed := true;
      ch := text[cur];
    }

    /** Takes the last character back; there is none to take back at the end of the text. */
    method Ungetc()
      requires Valid()
      modifies this`consumed
      ensures Valid() && !consumed && Rest() == text[cur..]
    {
      consumed := false;
    }

    method SkipWs()
      requires Valid()
      modifies this
      ensures Valid() && Rest() == SkipSpace(old(Rest()))
    {
      hide Newlines;
      var more := true;
      while more
        invariant Valid() && SkipSpace(Rest()) == SkipSpace(old(Rest()))
        invariant !more ==> Rest() == SkipSpace(old(Rest()))
        decreases |text| - Pos(), more
      {
        ghost var before := Rest();
        var ch := Getc();
        if !(ch == 32 || ch == 9 || ch == 10 || ch == 13) {
          Ungetc();
          more := false;
          assert Rest() == before;
        }
      }
    }

    method ExpectChar(expected: byte) returns (found: bool)
      requires Valid()
      modifies this
      ensures Valid() && (found, Rest()) == Expect(old(Rest()), expected)
    {
      hide Newlines, SkipSpace;
      SkipWs();
      ghost var before := Rest();
      var ch := Getc();
      if ch != expected {
        Ungetc();
        assert Rest() == before;
        return false;
      }
      return true;
    }

    lemma {:induction false} CommonIs(a: seq<byte>, b: seq<byte>, i: nat)
      requires i <= |a| && i <= |b| && a[..i] == b[..i] && (i < |a| && i < |b| ==> a[i] != b[i])
      ensures Common(a, b) == i
      ensures a <= b <==> i == |a|
    {
      if i > 0 {
        assert a[0] == a[..i][0] == b[..i][0] == b[0];
        assert a[1..][..i - 1] == a[..i][1..] && b[1..][..i - 1] == b[..i][1..];
        CommonIs(a[1..], b[1..], i - 1);
        assert a == [a[0]] + a[1..] && b == [b[0]] + b[1..];
      }
    }

    /** Reads the given text; stops at the first difference. */
    method MatchText(pattern: seq<byte>) returns (ok: bool)
      requires Valid()
      modifies this
      ensures Valid() && ok == (pattern <= old(Rest()))
      ensures Rest() == old(Rest())[Common(pattern, old(Rest()))..]
    {
      hide Newlines;
      ghost var s := Rest();
      var i := 0;
      while i < |pattern|
        invariant Valid() && i <= |pattern| && i <= |s|
        invariant Rest() == s[i..] && pattern[..i] == s[..i]
      {
        var ch := Getc();
        if ch != pattern[i] {
          Ungetc();
          CommonIs(pattern, s, i);
          return false;
        }
        i := i + 1;
      }
      CommonIs(pattern, s, i);
      return true;
    }

    // ----- strings -----

    lemma HexCase(s: seq<byte>, n: nat, acc: nat)
      ensures n == 0 ==> HexNumber(s, n, acc) == Parsed(acc, s)
      ensures n > 0 && (s == [] || HexValue(s[0]) == None) ==> HexNumber(s, n, acc) == Failed(s)
      ensures n > 0 && s != [] && HexValue(s[0]).Some? ==>
        HexNumber(s, n, acc) == HexNumber(s[1..], n - 1, 16 * acc + HexValue(s[0]).value)
    {
    }

    /** Four hexadecimal digits, or -1. */
    method ParseQuadhex() returns (uni_ch: int)
      requires Valid()
      modifies this
      ensures Valid()
      ensures match HexNumber(old(Rest()), 4, 0)
        case Parsed(v, rest) => uni_ch == v && Rest() == rest
        case Failed(rest) => uni_ch == -1 && Rest() == rest
        case Thrown => false
    {
      hide Newlines, HexNumber;
      ghost var spec := HexNumber(Rest(), 4, 0);
      uni_ch := 0;
      var i := 0;
      while i < 4
        invariant Valid() && i <= 4 && uni_ch >= 0
        invariant HexNumber(Rest(), 4 - i, uni_ch) == spec
      {
        HexCase(Rest(), 4 - i, uni_ch);
        var hex := Getc();
        if hex == -1 {
          return -1;
        }
        if 48 <= hex <= 57 {
          hex := hex - 48;
        } else if 65 <= hex <= 70 {
          hex := hex - (65 - 10);
        } else if 97 <= hex <= 102 {
          hex := hex - (97 - 10);
        } else {
          Ungetc();
          return -1;
        }
        uni_ch := uni_ch * 16 + hex;
        i := i + 1;
      }
      HexCase(Rest(), 0, uni_ch);
    }

    /** The escape behind a backslash and a u. */
    method ParseCodepoint() returns (ok: bool, out: seq<byte>)
      requires Valid()
      modifies this
      ensures Valid()
      ensures match Codepoint(old(Rest()))
        case Parsed(u, rest) => ok && out == u && Rest() == rest
        case Failed(rest) => !ok && Rest() == rest
        case Thrown => false
    {
      hide Newlines, HexNumber, Utf8;
      ok, out := false, [];
      ghost var s := Rest();
      var uni_ch := ParseQuadhex();
      if uni_ch == -1 {
        return;
      }
      HexSmall(s, 4, 0);
      var cp: nat := uni_ch;
      if 0xd800 <= uni_ch <= 0xdfff {
        if 0xdc00 <= uni_ch {
          return;
        }
        var c0 := Getc();
        if c0 != 92 {
          Ungetc();
          return;
        }
        var c1 := Getc();
        if c1 != 117 {
          Ungetc();
          return;
        }
        var second := ParseQuadhex();
        if !(0xdc00 <= second <= 0xdfff) {
          return;
        }
        PairBits(uni_ch, second);
        cp := Or(Shl(uni_ch - 0xd800, 10), And(second - 0xdc00, 0x3ff)) + 0x10000;
      }
      out := PushUtf8(cp);
      ok := true;
    }

    /** The characters of a string up to the closing quote. */
    method ParseStringBody() returns (ok: bool, out: seq<byte>)
      requires Valid()
      modifies this
      ensures Valid()
      ensures match ParseString(old(Rest()), [])
        case Parsed(str, rest) => ok && out == str && Rest() == rest
        case Failed(rest) => !ok && Rest() == rest
        case Thrown => false
    {
      hide Newlines, Codepoint, Unescape;
      ok, out := false, [];
      ghost var spec := ParseString(Rest(), []);
      while true
        invariant Valid() && !ok && ParseString(Rest(), out) == spec
        decreases |Rest()|
      {
        ghost var s := Rest();
        var ch := Getc();
        if ch < 32 {
          Ungetc();
          return;
        } else if ch == 34 {
          ok := true;
          return;
        } else if ch == 92 {
          ch := Getc();
          if ch == -1 {
            return;
          }
          assert s[2..] == Rest();
          match Unescape(ch) {
            case Some(c) =>
              out := out + [c];
            case None =>
              if ch != 117 {
                return;
              }
              var good, u := ParseCodepoint();
              if !good {
                return;
              }
              out := out + u;
          }
        } else {
          out := out + [ch];
        }
      }
    }

    // ----- values -----

    /** The characters of a number; the dot becomes the locale's decimal point. */
    method ParseNumberText(point: seq<byte>) returns (num_str: seq<byte>)
      requires Valid()
      modifies this
      ensures Valid()
      ensures var s := old(Rest()); var n := NumberLength(s);
        num_str == Localized(point, s[..n]) && Rest() == s[n..]
    {
      hide Newlines, NumberLength, Localized, InNumber;
      ghost var s, n := Rest(), NumberLength(Rest());
      ghost var goal := Localized(point, s[..n]);
      num_str := [];
      ghost var i := 0;
      assert s[0..n] == s[..n] && s[0..] == s;
      var more := true;
      while more
        invariant Valid() && i <= n && Rest() == s[i..] && n == i + NumberLength(s[i..])
        invariant num_str + Localized(point, s[i..n]) == goal
        invariant !more ==> i == n
        decreases n - i, more
      {
        NumberStep(point, s, i);
        ghost var left, before := if i < n then Localized(point, s[i + 1..n]) else [], Rest();
        NumberMarks(s, i);
        var ch := Getc();
        if 48 <= ch <= 57 || ch == 43 || ch == 45 || ch == 101 || ch == 69 {
          assert num_str + ([ch] + left) == num_str + [ch] + left;
          num_str := num_str + [ch];
          i := i + 1;
        } else if ch == 46 {
          assert num_str + (point + left) == num_str + point + left;
          num_str := num_str + point;
          i := i + 1;
        } else {
          Ungetc();
          assert Rest() == before;
          more := false;
        }
      }
      NumberStep(point, s, i);
    }

    lemma NumberMarks(s: seq<byte>, i: nat)
      ensures i < |s| ==> (InNumber(s[i]) <==>
        48 <= s[i] <= 57 || s[i] == 43 || s[i] == 45 || s[i] == 101 || s[i] == 69 || s[i] == 46)
    {
    }

    lemma NumberStep(point: seq<byte>, s: seq<byte>, i: nat)
      requires i <= NumberLength(s) && NumberLength(s) == i + NumberLength(s[i..])
      ensures var n := NumberLength(s);
        if i < |s| && InNumber(s[i]) then
          i < n && n == i + 1 + NumberLength(s[i + 1..])
          && Localized(point, s[i..n]) == (if s[i] == DOT then point else [s[i]]) + Localized(point, s[i + 1..n])
        else i == n && Localized(point, s[i..n]) == []
    {
      hide InNumber;
      var n := NumberLength(s);
      if i < |s| && InNumber(s[i]) {
        assert s[i..][1..] == s[i + 1..];
        assert s[i..n][1..] == s[i + 1..n];
      }
    }

    /** What a parsing method must do. */
    ghost predicate Follows(spec: Parse<Value>, out: Outcome, v: Value)
      requires Valid()
      reads this
    {
      match spec
      case Parsed(value, rest) => out == Good && v == value && Rest() == rest
      case Failed(rest) => out == Bad && Rest() == rest
      case Thrown => out == Raised
    }

    method ParseNumberValue(lib: Lib) returns (out: Outcome, v: Value)
      requires Valid() && Rest() != [] && InNumber(Rest()[0])
      modifies this
      ensures Valid() && Follows(ParseNumber(lib, old(Rest())), out, v)
    {
      hide Newlines, NumberLength, Localized;
      v := Null;
      var num_str := ParseNumberText(lib.point);
      match lib.strtod(num_str)
      case Number(d) => out, v := Good, Num(d);
      case Partial => out := Bad;
      case OutOfRange => out := Raised;
    }

    method ParseLiteral(pattern: seq<byte>, value: Value) returns (out: Outcome, v: Value)
      requires Valid()
      modifies this
      ensures Valid() && Follows(Match(old(Rest()), pattern, value), out, v)
    {
      v := value;
      var ok := MatchText(pattern);
      out := if ok then Good else Bad;
    }

    method ParseArrayValue(lib: Lib) returns (out: Outcome, v: Value)
      requires Valid()
      modifies this
      ensures Valid() && Follows(ParseArray(lib, old(Rest())), out, v)
      decreases |Rest()|, 3
    {
      hide Newlines, ParseValue, ParseItems, Expect;
      var empty := ExpectChar(CLOSE_ARRAY);
      if empty {
        return Good, Arr([]);
      }
      ghost var spec := ParseItems(lib, Rest(), []);
      var items := [];
      v := Null;
      var more := true;
      while more
        invariant Valid() && |Rest()| <= |old(Rest())|
        invariant more ==> spec == ParseItems(lib, Rest(), items)
        invariant !more ==> spec == EndOfItems(Rest(), items)
        decreases |Rest()|, more
      {
        ItemsCase(lib, Rest(), items);
        var item;
        out, item := ParseAny(lib);
        if out != Good {
          return;
        }
        items := items + [item];
        more := ExpectChar(COMMA);
      }
      var closed := ExpectChar(CLOSE_ARRAY);
      if closed {
        return Good, Arr(items);
      }
      return Bad, Null;
    }

    method ParseObjectValue(lib: Lib) returns (out: Outcome, v: Value)
      requires Valid()
      modifies this
      ensures Valid() && Follows(ParseObject(lib, old(Rest())), out, v)
      decreases |Rest()|, 3
    {
      hide Newlines, ParseValue, ParseMembers, Expect, ParseKey;
      var empty := ExpectChar(CLOSE_OBJECT);
      if empty {
        return Good, Obj([]);
      }
      ghost var spec := ParseMembers(lib, Rest(), []);
      var members := [];
      v := Null;
      var more := true;
      while more
        invariant Valid() && |Rest()| <= |old(Rest())|
        invariant more ==> spec == ParseMembers(lib, Rest(), members)
        invariant !more ==> spec == EndOfMembers(Rest(), members)
        decreases |Rest()|, more
      {
        MembersCase(lib, Rest(), members);
        var ok, key := ParseKeyText();
        if !ok {
          return Bad, Null;
        }
        var item;
        out, item := ParseAny(lib);
        if out != Good {
          return;
        }
        members := Assign(members, key, item);
        more := ExpectChar(COMMA);
      }
      var closed := ExpectChar(CLOSE_OBJECT);
      if closed {
        return Good, Obj(members);
      }
      return Bad, Null;
    }

    /** A key in quotes and the colon behind it. */
    method ParseKeyText() returns (ok: bool, key: seq<byte>)
      requires Valid()
      modifies this
      ensures Valid()
      ensures match ParseKey(old(Rest()))
        case Parsed(k, rest) => ok && key == k && Rest() == rest
        case Failed(rest) => !ok && Rest() == rest
        case Thrown => false
    {
      hide Newlines, Expect, ParseString;
      key := [];
      ok := ExpectChar(QUOTE);
      if !ok {
        return;
      }
      ok, key := ParseStringBody();
      if !ok {
        return;
      }
      ok := ExpectChar(COLON);
    }

    /** A value of any kind. */
    method ParseAny(lib: Lib) returns (out: Outcome, v: Value)
      requires Valid()
      modifies this
      ensures Valid() && Follows(ParseValue(lib, old(Rest())), out, v)
      decreases |Rest()|, 1
    {
      hide Newlines, ParseString, ParseNumber, ParseArray, ParseObject, SkipSpace, Match, IsSpace;
      SkipWs();
      ghost var t := Rest();
      var ch := Getc();
      v := Null;
      if ch == 110 {
        out, v := ParseLiteral(NULL_TEXT[1..], Null);
      } else if ch == 102 {
        out, v := ParseLiteral(FALSE_TEXT[1..], Bool(false));
      } else if ch == 116 {
        out, v := ParseLiteral(TRUE_TEXT[1..], Bool(true));
      } else if ch == 34 {
        StringsFail(t[1..], []);
        var ok, str := ParseStringBody();
        out, v := if ok then Good else Bad, Str(str);
      } else if ch == 91 {
        out, v := ParseArrayValue(lib);
      } else if ch == 123 {
        out, v := ParseObjectValue(lib);
      } else if 48 <= ch <= 57 || ch == 45 {
        Ungetc();
        assert Rest() == t;
        out, v := ParseNumberValue(lib);
      } else {
        Ungetc();
        out := Bad;
      }
    }
  }

  /** What comes behind the last item of a list. */
  function EndOfItems(s: seq<byte>, items: seq<Value>): Parse<Value>
  {
    var end := Expect(s, CLOSE_ARRAY);
    if end.0 then Parsed(Arr(items), end.1) else Failed(end.1)
  }

  /** How a list goes on behind an item. */
  function AfterItem(lib: Lib, item: Parse<Value>, acc: seq<Value>): Parse<Value>
  {
    if !item.Parsed? then item
    else
      var more := Expect(item.rest, COMMA);
      if more.0 then ParseItems(lib, more.1, acc + [item.value]) else EndOfItems(more.1, acc + [item.value])
  }

  lemma ItemsCase(lib: Lib, s: seq<byte>, acc: seq<Value>)
    ensures ParseItems(lib, s, acc) == AfterItem(lib, ParseValue(lib, s), acc)
  {
    hide ParseValue, Expect;
  }

  function EndOfMembers(s: seq<byte>, members: seq<Member>): Parse<Value>
  {
    var end := Expect(s, CLOSE_OBJECT);
    if end.0 then Parsed(Obj(members), end.1) else Failed(end.1)
  }

  /** How an object goes on behind a member. */
  function AfterMember(lib: Lib, key: seq<byte>, item: Parse<Value>, acc: seq<Member>): Parse<Value>
  {
    if !item.Parsed? then item
    else
      var more := Expect(item.rest, COMMA);
      var acc' := Assign(acc, key, item.value);
      if more.0 then ParseMembers(lib, more.1, acc') else EndOfMembers(more.1, acc')
  }

  lemma MembersCase(lib: Lib, s: seq<byte>, acc: seq<Member>)
    ensures ParseKey(s).Failed? ==> ParseMembers(lib, s, acc) == Failed(ParseKey(s).rest)
    ensures ParseKey(s).Parsed? ==>
      ParseMembers(lib, s, acc) == AfterMember(lib, ParseKey(s).value, ParseValue(lib, ParseKey(s).rest), acc)
    ensures !ParseKey(s).Thrown?
  {
    KeysFail(s);
    hide ParseValue, Expect, ParseKey;
  }

  lemma CodepointsFail(s: seq<byte>, n: nat, acc: nat)
    ensures !HexNumber(s, n, acc).Thrown?
    decreases n
  {
    if n > 0 && s != [] && HexValue(s[0]).Some? {
      CodepointsFail(s[1..], n - 1, 16 * acc + HexValue(s[0]).value);
    }
  }

  /** Strings never raise an exception. */
  lemma {:induction false} StringsFail(s: seq<byte>, acc: seq<byte>)
    ensures !ParseString(s, acc).Thrown?
    decreases |s|
  {
    hide HexNumber, Unescape, Utf8;
    if s == [] || s[0] < SPACE || s[0] == QUOTE {
    } else if s[0] != BACKSLASH {
      StringsFail(s[1..], acc + [s[0]]);
    } else if |s| > 1 {
      match Unescape(s[1])
      case Some(c) => StringsFail(s[2..], acc + [c]);
      case None =>
        CodepointsFail(s[2..], 4, 0);
        var first := HexNumber(s[2..], 4, 0);
        if first.Parsed? && |first.rest| >= 2 {
          CodepointsFail(first.rest[2..], 4, 0);
        }
        var u := Codepoint(s[2..]);
        if s[1] == LETTER_U && u.Parsed? {
          StringsFail(u.rest, acc + u.value);
        }
    }
  }

  lemma KeysFail(s: seq<byte>)
    ensures !ParseKey(s).Thrown?
  {
    hide ParseString, Expect;
    StringsFail(Expect(s, QUOTE).1, []);
  }

  /** Parses a text; whatever follows the first value is left unread. */
  method ParseText(lib: Lib, text: seq<byte>) returns (out: Outcome, v: Value, rest: seq<byte>)
    ensures match ParseValue(lib, text)
      case Parsed(value, r) => out == Good && v == value && rest == r
      case Failed(r) => out == Bad && rest == r
      case Thrown => out == Raised
  {
    hide ParseValue;
    var input := new TextInput(text);
    out, v := input.ParseAny(lib);
    rest := input.text[if input.consumed then input.cur + 1 else input.cur..];
  }

  // ----- UTF-8 with shifts and masks -----

  /** Shifting a first surrogate up and masking the second one combines them. */
  lemma PairBits(high: nat, low: nat)
    requires 0xd800 <= high < 0xdc00 && 0xdc00 <= low <= 0xdfff
    ensures Or(Shl(high - 0xd800, 10), And(low - 0xdc00, 0x3ff)) + 0x10000 == Combined(high, low)
  {
    hide Or, Shl, And;
    Pow2Values();
    AndMask(low - 0xdc00, 10);
    SmallMod(low - 0xdc00, 1024);
    OrCommutes(Shl(high - 0xd800, 10), low - 0xdc00);
    OrDisjoint(low - 0xdc00, high - 0xd800, 10);
    ShlIsMul(high - 0xd800, 10);
  }

  /** A lead marker k * 2^n with n free bits, filled. */
  lemma MarkerBits(k: nat, n: nat, v: nat)
    requires v < Pow2(n)
    ensures Or(k * Pow2(n), v) == k * Pow2(n) + v
  {
    hide Or;
    ShlIsMul(k, n);
    OrDisjoint(v, k, n);
    OrCommutes(k * Pow2(n), v);
  }

  lemma Continuation(v: nat)
    ensures Or(0x80, And(v, 0x3f)) == 0x80 + v % 64
  {
    hide Or, And;
    Pow2Values();
    AndMask(v, 6);
    MarkerBits(2, 6, v % 64);
  }

  lemma Lead(k: nat, n: nat, v: nat, shift: nat, marker: nat)
    requires v < Pow2(n) * Pow2(shift) && marker == k * Pow2(n)
    ensures Or(marker, Shr(v, shift)) == marker + v / Pow2(shift)
  {
    hide Or, Shr, Pow2;
    ShrIsDiv(v, shift);
    DivBelow(v, Pow2(shift), Pow2(n));
    MarkerBits(k, n, v / Pow2(shift));
  }

  /** The bytes that the shifts and masks of the source give are the UTF-8 form. */
  method PushUtf8(cp: nat) returns (out: seq<byte>)
    requires cp < 0x110000
    ensures out == Utf8(cp)
  {
    hide Or, And, Shr, Pow2;
    Pow2Values();
    Continuation(cp);
    Shr6(cp);
    Continuation(Shr(cp, 6));
    Continuation(Shr(cp, 12));
    out := [];
    if cp < 0x80 {
      out := out + [cp];
    } else {
      if cp < 0x800 {
        Lead(6, 5, cp, 6, 0xc0);
        out := out + [Or(0xc0, Shr(cp, 6))];
      } else {
        if cp < 0x10000 {
          Lead(14, 4, cp, 12, 0xe0);
          out := out + [Or(0xe0, Shr(cp, 12))];
        } else {
          LeadFour(cp);
          out := out + [Or(0xf0, Shr(cp, 18))];
          out := out + [Or(0x80, And(Shr(cp, 12), 0x3f))];
        }
        out := out + [Or(0x80, And(Shr(cp, 6), 0x3f))];
      }
      out := out + [Or(0x80, And(cp, 0x3f))];
    }
  }

  lemma Shr6(cp: nat)
    ensures Shr(cp, 6) == cp / 64 && Shr(cp, 12) == cp / 4096
  {
    Pow2Values();
    ShrIsDiv(cp, 6);
    ShrIsDiv(cp, 12);
  }

  lemma LeadFour(cp: nat)
    requires cp < 0x110000
    ensures Or(0xf0, Shr(cp, 18)) == 0xf0 + cp / 262144
  {
    hide Or, Shr;
    Pow2Values();
    Pow2Add(16, 2);
    Lead(30, 3, cp, 18, 0xf0);
  }

  // ----- escapes denote code points -----

  /** The free bits of a byte behind its marker. */
  function Free(c: nat, marker: nat): nat
  {
    if c >= marker then c - marker else 0
  }

  predicate IsContinuation(c: byte)
  {
    0x80 <= c < 0xc0
  }

  /** One UTF-8 sequence at the head of s: its code point and its length (section 3 of RFC 3629). */
  function Utf8Read(s: seq<byte>): Option<(nat, nat)>
  {
    if s == [] then None
    else if s[0] < 0x80 then Some((s[0], 1))
    else if 0xc0 <= s[0] < 0xe0 && |s| >= 2 && IsContinuation(s[1]) then
      Some((64 * Free(s[0], 0xc0) + Free(s[1], 0x80), 2))
    else if 0xe0 <= s[0] < 0xf0 && |s| >= 3 && IsContinuation(s[1]) && IsContinuation(s[2]) then
      Some((4096 * Free(s[0], 0xe0) + 64 * Free(s[1], 0x80) + Free(s[2], 0x80), 3))
    else if 0xf0 <= s[0] < 0xf8 && |s| >= 4 && IsContinuation(s[1]) && IsContinuation(s[2]) && IsContinuation(s[3]) then
      Some((262144 * Free(s[0], 0xf0) + 4096 * Free(s[1], 0x80) + 64 * Free(s[2], 0x80) + Free(s[3], 0x80), 4))
    else None
  }

  /** Four lower-case hexadecimal digits. */
  function Hex4(v: nat): seq<byte>
    requires v < 0x10000
  {
    [HexDigit(v / 4096), HexDigit(v / 256 % 16), HexDigit(v / 16 % 16), HexDigit(v % 16)]
  }

  lemma HexStep(d: nat, rest: seq<byte>, n: nat, acc: nat)
    requires d < 16 && n > 0
    ensures HexNumber([HexDigit(d)] + rest, n, acc) == HexNumber(rest, n - 1, 16 * acc + d)
  {
    assert ([HexDigit(d)] + rest)[1..] == rest;
  }

  lemma Nibbles(v: nat)
    ensures 16 * (16 * (16 * (v / 4096) + v / 256 % 16) + v / 16 % 16) + v % 16 == v
  {
    assert v / 256 == 16 * (v / 4096) + v / 256 % 16;
    assert v / 16 == 16 * (v / 256) + v / 16 % 16;
  }

  lemma Hex4Undone(v: nat, rest: seq<byte>)
    requires v < 0x10000
    ensures HexNumber(Hex4(v) + rest, 4, 0) == Parsed(v, rest)
  {
    hide HexDigit, HexValue;
    var a, b, c, d := v / 4096, v / 256 % 16, v / 16 % 16, v % 16;
    var s1 := [HexDigit(d)] + rest;
    var s2 := [HexDigit(c)] + s1;
    var s3 := [HexDigit(b)] + s2;
    assert Hex4(v) + rest == [HexDigit(a)] + s3;
    HexStep(a, s3, 4, 0);
    HexStep(b, s2, 3, a);
    HexStep(c, s1, 2, 16 * a + b);
    HexStep(d, rest, 1, 16 * (16 * a + b) + c);
    Nibbles(v);
  }

  /** How JSON writes a code point behind the first backslash and u: directly, or as a surrogate pair. */
  function Escape(cp: nat): seq<byte>
    requires cp < 0x110000
  {
    if cp < 0x10000 then Hex4(cp)
    else Hex4(0xd800 + (cp - 0x10000) / 1024) + [BACKSLASH, LETTER_U] + Hex4(0xdc00 + (cp - 0x10000) % 1024)
  }

  predicate Scalar(cp: nat)
  {
    cp < 0xd800 || 0xdfff < cp < 0x110000
  }

  /** The escape of a code point is read as its UTF-8 form. */
  lemma EscapeRead(cp: nat, rest: seq<byte>)
    requires Scalar(cp)
    ensures Codepoint(Escape(cp) + rest) == Parsed(Utf8(cp), rest)
  {
    hide Hex4, HexNumber, Utf8;
    if cp < 0x10000 {
      Hex4Undone(cp, rest);
    } else {
      var high, low := 0xd800 + (cp - 0x10000) / 1024, 0xdc00 + (cp - 0x10000) % 1024;
      var second := Hex4(low) + rest;
      var tail := [BACKSLASH, LETTER_U] + second;
      assert Escape(cp) + rest == Hex4(high) + tail;
      Hex4Undone(high, tail);
      assert tail[2..] == second;
      Hex4Undone(low, rest);
      assert Combined(high, low) == cp;
    }
  }

  /** The UTF-8 form of a code point reads back as that code point. */
  lemma Utf8Undone(cp: nat, rest: seq<byte>)
    requires cp < 0x110000
    ensures Utf8Read(Utf8(cp) + rest) == Some((cp, |Utf8(cp)|))
  {
    SixBits(cp);
  }

  lemma SixBits(cp: nat)
    ensures cp == 64 * (cp / 64) + cp % 64
    ensures cp == 4096 * (cp / 4096) + 64 * (cp / 64 % 64) + cp % 64
    ensures cp == 262144 * (cp / 262144) + 4096 * (cp / 4096 % 64) + 64 * (cp / 64 % 64) + cp % 64
  {
    DivDiv(cp, 64, 64);
    DivDiv(cp, 4096, 64);
  }
}
