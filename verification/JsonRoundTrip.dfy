/** Parsing a printed JSON value gives the value back, in compact and in pretty form. */
module JsonRoundTrip {
  import opened Bits
  import opened Options
  import opened JsonText

  // ----- what strtod must do -----

  predicate AllDigits(t: seq<byte>)
  {
    forall i :: 0 <= i < |t| ==> IsDigit(t[i])
  }

  function DigitOf(c: byte): nat
    requires IsDigit(c)
  {
    c - 48
  }

  function DigitsValue(t: seq<byte>): nat
    requires AllDigits(t)
  {
    if t == [] then 0 else 10 * DigitsValue(t[..|t| - 1]) + DigitOf(t[|t| - 1])
  }

  /** Decimal digits with an optional minus sign. */
  predicate IntegerText(t: seq<byte>)
  {
    (t != [] && AllDigits(t)) || (|t| > 1 && t[0] == MINUS && AllDigits(t[1..]))
  }

  function IntegerValue(t: seq<byte>): int
    requires IntegerText(t)
  {
    var n: int := DigitsValue(if t[0] == MINUS then t[1..] else t);
    if t[0] == MINUS then -n else n
  }

  /** strtod reads integers below 2^53 in size exactly; a double holds each of them. */
  ghost predicate ReadsIntegers(lib: Lib)
  {
    forall t: seq<byte> {:trigger lib.strtod(t)} :: IntegerText(t) && -TWO_53 < IntegerValue(t) < TWO_53 ==>
        lib.strtod(t) == Number(IntegerValue(t) as real)
  }

  lemma {:induction false} DigitsRead(n: nat)
    ensures AllDigits(Digits(n)) && DigitsValue(Digits(n)) == n
  {
    if n >= 10 {
      DigitsRead(n / 10);
      var d := Digits(n);
      assert d[..|d| - 1] == Digits(n / 10);
    } else {
      assert Digits(n)[..0] == [];
    }
  }

  /** Decimal texts denote their numbers. */
  lemma DecimalReads(n: int)
    ensures IntegerText(Decimal(n)) && IntegerValue(Decimal(n)) == n
  {
    DigitsRead(if n < 0 then -n else n);
    assert n < 0 ==> Decimal(n)[1..] == Digits(-n);
  }

  // ----- numbers -----

  /** A number text may be followed by anything that cannot continue it. */
  predicate Ends(rest: seq<byte>)
  {
    rest == [] || !InNumber(rest[0])
  }

  /** A text without a dot that _parse_number takes whole. */
  predicate PlainNumber(t: seq<byte>)
  {
    forall i :: 0 <= i < |t| ==> InNumber(t[i]) && t[i] != DOT
  }

  lemma {:induction false} PlainTaken(point: seq<byte>, t: seq<byte>, rest: seq<byte>)
    requires PlainNumber(t) && Ends(rest)
    ensures NumberLength(t + rest) == |t| && Localized(point, t) == t
  {
    if t == [] {
      assert t + rest == rest;
    } else {
      PlainTaken(point, t[1..], rest);
      assert (t + rest)[1..] == t[1..] + rest;
    }
  }

  lemma IntegerIsPlain(t: seq<byte>)
    requires IntegerText(t)
    ensures PlainNumber(t) && (IsDigit(t[0]) || t[0] == MINUS)
  {
    if !AllDigits(t) {
      forall i | 0 <= i < |t| ensures InNumber(t[i]) && t[i] != DOT {
        if i > 0 {
          assert t[1..][i - 1] == t[i];
        }
      }
    }
  }

  lemma NumberUndone(lib: Lib, r: real, rest: seq<byte>)
    requires ReadsIntegers(lib) && SmallInteger(r) && Ends(rest)
    ensures ParseValue(lib, PrintNumber(lib, r) + rest) == Parsed(Num(r), rest)
  {
    hide Decimal, IntegerText, IntegerValue, NumberLength, Localized, PlainNumber;
    var t := Decimal(r.Floor);
    DecimalReads(r.Floor);
    IntegerIsPlain(t);
    NotEmpty(t);
    PlainTaken(lib.point, t, rest);
    assert (t + rest)[..|t|] == t && (t + rest)[|t|..] == rest;
    assert SkipSpace(t + rest) == t + rest;
    assert lib.strtod(t) == Number(r);
  }

  lemma NotEmpty(t: seq<byte>)
    requires IntegerText(t)
    ensures t != []
  {
  }

  // ----- strings -----

  lemma EscapeUndone(c: byte)
    ensures match EscapeLetter(c) case Some(l) => Unescape(l) == Some(c) case None => c != QUOTE && c != BACKSLASH
  {
  }

  lemma HexUndone(c: byte, rest: seq<byte>)
    requires c < 0x80
    ensures HexNumber([48, 48, HexDigit(c / 16), HexDigit(c % 16)] + rest, 4, 0) == Parsed(c, rest)
  {
    var h, l := HexDigit(c / 16), HexDigit(c % 16);
    assert HexValue(h) == Some(c / 16) && HexValue(l) == Some(c % 16);
    var s := [48, 48, h, l] + rest;
    assert s[1..] == [48, h, l] + rest;
    assert s[1..][1..] == [h, l] + rest;
    assert s[1..][1..][1..] == [l] + rest;
    assert s[1..][1..][1..][1..] == rest;
    calc {
      HexNumber(s, 4, 0);
      HexNumber([48, h, l] + rest, 3, 0);
      HexNumber([h, l] + rest, 2, 0);
      HexNumber([l] + rest, 1, c / 16);
      HexNumber(rest, 0, 16 * (c / 16) + c % 16);
    }
  }

  lemma CharUndone(c: byte, tail: seq<byte>, acc: seq<byte>)
    ensures ParseString(PrintChar(c) + tail, acc) == ParseString(tail, acc + [c])
  {
    EscapeUndone(c);
    hide EscapeLetter, Unescape, HexNumber, HexDigit;
    var s := PrintChar(c) + tail;
    match EscapeLetter(c)
    case Some(l) =>
      assert s[2..] == tail;
    case None =>
      if c < 0x20 || c == 0x7f {
        LetterU();
        var hex := [48, 48, HexDigit(c / 16), HexDigit(c % 16)];
        assert s[2..] == hex + tail;
        HexUndone(c, tail);
        assert Codepoint(s[2..]) == Parsed([c], tail);
      } else {
        assert s[1..] == tail;
      }
  }

  lemma LetterU()
    ensures Unescape(LETTER_U) == None
  {
  }

  /** Reading a string undoes printing it, whatever its bytes. */
  lemma {:induction false} CharsUndone(s: seq<byte>, rest: seq<byte>, acc: seq<byte>)
    ensures ParseString(PrintChars(s) + ([QUOTE] + rest), acc) == Parsed(acc + s, rest)
  {
    hide PrintChar, Unescape;
    var tail := [QUOTE] + rest;
    if s == [] {
      assert PrintChars(s) + tail == tail;
      assert acc + s == acc;
    } else {
      assert PrintChars(s) + tail == PrintChar(s[0]) + (PrintChars(s[1..]) + tail);
      CharUndone(s[0], PrintChars(s[1..]) + tail, acc);
      CharsUndone(s[1..], rest, acc + [s[0]]);
      assert acc + [s[0]] + s[1..] == acc + s;
    }
  }

  // ----- white space -----

  lemma {:induction false} SpacesSkipped(n: int, t: seq<byte>)
    ensures SkipSpace(Spaces(n) + t) == SkipSpace(t)
  {
    if n > 0 {
      SpacesSkipped(n - 1, t);
      assert (Spaces(n) + t)[1..] == Spaces(n - 1) + t;
    } else {
      assert Spaces(n) + t == t;
    }
  }

  lemma NewLineSkipped(indent: int, t: seq<byte>)
    ensures SkipSpace(NewLine(indent) + t) == SkipSpace(t)
  {
    if indent == -1 {
      assert NewLine(indent) + t == t;
    } else {
      assert (NewLine(indent) + t)[1..] == Spaces(2 * indent) + t;
      SpacesSkipped(2 * indent, t);
    }
  }

  lemma {:induction false} SkipTwice(s: seq<byte>)
    ensures SkipSpace(SkipSpace(s)) == SkipSpace(s)
  {
    if s != [] && IsSpace(s[0]) {
      SkipTwice(s[1..]);
    }
  }

  /** White space in front of a value does not matter. */
  lemma SpaceBeforeValue(lib: Lib, s: seq<byte>, t: seq<byte>)
    requires SkipSpace(s) == SkipSpace(t)
    ensures ParseValue(lib, s) == ParseValue(lib, t)
  {
    hide ParseNumber, ParseArray, ParseObject, ParseString;
  }

  lemma SpaceBeforeItems(lib: Lib, s: seq<byte>, t: seq<byte>, acc: seq<Value>)
    requires SkipSpace(s) == SkipSpace(t)
    ensures ParseItems(lib, s, acc) == ParseItems(lib, t, acc)
  {
    SpaceBeforeValue(lib, s, t);
    hide ParseValue;
  }

  lemma SpaceBeforeMembers(lib: Lib, s: seq<byte>, t: seq<byte>, acc: seq<Member>)
    requires SkipSpace(s) == SkipSpace(t)
    ensures ParseMembers(lib, s, acc) == ParseMembers(lib, t, acc)
  {
    assert ParseKey(s) == ParseKey(t);
    hide ParseValue, ParseKey;
  }

  lemma Found(indent: int, c: byte, rest: seq<byte>)
    requires !IsSpace(c)
    ensures Expect(NewLine(indent) + ([c] + rest), c) == (true, rest)
  {
    NewLineSkipped(indent, [c] + rest);
    assert ([c] + rest)[1..] == rest;
  }

  lemma FoundHere(c: byte, rest: seq<byte>)
    requires !IsSpace(c)
    ensures Expect([c] + rest, c) == (true, rest)
  {
    assert ([c] + rest)[1..] == rest;
  }

  lemma NotFound(indent: int, c: byte, d: byte, rest: seq<byte>)
    requires !IsSpace(d) && c != d
    ensures Expect(NewLine(indent) + ([d] + rest), c) == (false, [d] + rest)
  {
    NewLineSkipped(indent, [d] + rest);
  }

  // ----- objects -----

  lemma {:induction false} LessIsStrict(a: seq<byte>, b: seq<byte>)
    requires Less(a, b)
    ensures a != b && !Less(b, a)
  {
    if a != [] && a[0] == b[0] {
      LessIsStrict(a[1..], b[1..]);
    }
  }

  ghost predicate AllLess(members: seq<Member>, key: seq<byte>)
  {
    forall i :: 0 <= i < |members| ==> Less(members[i].key, key)
  }

  /** Members in strictly ascending order of their keys. */
  ghost predicate Sorted(members: seq<Member>)
  {
    forall i, j :: 0 <= i < j < |members| ==> Less(members[i].key, members[j].key)
  }

  /** A key behind all others is added at the end. */
  lemma {:induction false} AssignLast(members: seq<Member>, key: seq<byte>, v: Value)
    requires AllLess(members, key)
    ensures Assign(members, key, v) == members + [Member(key, v)]
  {
    hide Less;
    if members != [] {
      assert Less(members[0].key, key);
      LessIsStrict(members[0].key, key);
      AssignLast(members[1..], key, v);
    }
  }

  /** The values the serializer is meant for: integers below 2^53, and objects as a std::map holds them. */
  ghost predicate Plain(v: Value)
    decreases v
  {
    match v
    case Num(n) => SmallInteger(n)
    case Arr(items) => forall i :: 0 <= i < |items| ==> Plain(items[i])
    case Obj(members) => Sorted(members) && forall i :: 0 <= i < |members| ==> Plain(members[i].value)
    case _ => true
  }

  // ----- the round trip -----

  /** A printed value starts with none of the characters that could end a list. */
  lemma PrintStart(lib: Lib, v: Value, indent: int)
    requires Plain(v)
    ensures var t := Print(lib, v, indent); t != [] && !IsSpace(t[0]) && t[0] != CLOSE_ARRAY
  {
    hide PrintItems, PrintMembers, PrintChars, Sorted;
    if v.Num? {
      DecimalReads(v.n.Floor);
      IntegerIsPlain(Decimal(v.n.Floor));
    }
  }

  lemma StringUndone(lib: Lib, s: seq<byte>, rest: seq<byte>)
    ensures ParseValue(lib, PrintString(s) + rest) == Parsed(Str(s), rest)
  {
    hide ParseString, PrintChars, ParseArray, ParseObject, ParseNumber;
    var t := PrintString(s) + rest;
    assert t[1..] == PrintChars(s) + ([QUOTE] + rest);
    CharsUndone(s, rest, []);
    assert [] + s == s;
  }

  lemma LiteralUndone(lib: Lib, v: Value, rest: seq<byte>)
    requires v.Null? || v.Bool?
    ensures ParseValue(lib, Print(lib, v, -1) + rest) == Parsed(v, rest)
  {
    hide ParseArray, ParseObject, ParseNumber, ParseString;
    var text := if v.Null? then NULL_TEXT else if v.b then TRUE_TEXT else FALSE_TEXT;
    var t := text + rest;
    assert t[1..] == text[1..] + rest;
  }

  lemma CloseEnds(indent: int, c: byte, rest: seq<byte>)
    requires !InNumber(c)
    ensures Ends(NewLine(indent) + ([c] + rest))
  {
  }

  /** One item and what follows it. */
  lemma {:induction false} ItemsUndone(lib: Lib, items: seq<Value>, indent: int, outer: int, acc: seq<Value>, rest: seq<byte>)
    requires ReadsIntegers(lib) && items != [] && forall i :: 0 <= i < |items| ==> Plain(items[i])
    ensures ParseItems(lib, PrintItems(lib, items, indent) + (NewLine(outer) + ([CLOSE_ARRAY] + rest)), acc)
         == Parsed(Arr(acc + items), rest)
    decreases items, 0
  {
    hide Print, NewLine, ParseValue, ReadsIntegers, Plain, IsSpace, InNumber;
    var text := Print(lib, items[0], indent);
    var close := NewLine(outer) + ([CLOSE_ARRAY] + rest);
    var all := PrintItems(lib, items, indent) + close;
    Marks();
    if |items| == 1 {
      assert all == NewLine(indent) + (text + close);
      NewLineSkipped(indent, text + close);
      SpaceBeforeValue(lib, all, text + close);
      CloseEnds(outer, CLOSE_ARRAY, rest);
      ValueUndone(lib, items[0], indent, close);
      NotFound(outer, COMMA, CLOSE_ARRAY, rest);
      FoundHere(CLOSE_ARRAY, rest);
      assert items == [items[0]];
    } else {
      var next := PrintItems(lib, items[1..], indent) + close;
      assert all == NewLine(indent) + (text + ([COMMA] + next));
      NewLineSkipped(indent, text + ([COMMA] + next));
      SpaceBeforeValue(lib, all, text + ([COMMA] + next));
      CommaEnds(next);
      ValueUndone(lib, items[0], indent, [COMMA] + next);
      FoundHere(COMMA, next);
      ItemsUndone(lib, items[1..], indent, outer, acc + [items[0]], rest);
      assert acc + [items[0]] + items[1..] == acc + items;
    }
  }

  lemma CommaEnds(next: seq<byte>)
    ensures Ends([COMMA] + next)
  {
  }

  /** The structural characters are no white space and no part of a number. */
  lemma Marks()
    ensures !IsSpace(COMMA) && !IsSpace(COLON) && !IsSpace(QUOTE)
    ensures !IsSpace(CLOSE_ARRAY) && !IsSpace(CLOSE_OBJECT) && !IsSpace(OPEN_ARRAY) && !IsSpace(OPEN_OBJECT)
    ensures !InNumber(CLOSE_ARRAY) && !InNumber(CLOSE_OBJECT)
  {
  }

  lemma ArrayUndone(lib: Lib, items: seq<Value>, indent: int, rest: seq<byte>)
    requires ReadsIntegers(lib) && forall i :: 0 <= i < |items| ==> Plain(items[i])
    ensures ParseValue(lib, Print(lib, Arr(items), indent) + rest) == Parsed(Arr(items), rest)
    decreases items, 1
  {
    hide Print, PrintItems, ParseItems, ParseValue, ReadsIntegers, Plain, SkipSpace, NewLine, IsSpace, InNumber, Expect;
    PrintArray(lib, items, indent);
    var body := Print(lib, Arr(items), indent) + rest;
    Marks();
    OpensArray(lib, body);
    if items == [] {
      EmptyItems(lib, Inner(indent));
      assert body[1..] == [CLOSE_ARRAY] + rest;
      FoundHere(CLOSE_ARRAY, rest);
    } else {
      var inner := Inner(indent);
      var list := PrintItems(lib, items, inner) + (NewLine(indent) + ([CLOSE_ARRAY] + rest));
      assert body[1..] == list;
      ItemsUndone(lib, items, inner, indent, [], rest);
      ItemsStart(lib, items, inner, NewLine(indent) + ([CLOSE_ARRAY] + rest));
      SkipTwice(list);
      SpaceBeforeItems(lib, list, SkipSpace(list), []);
      assert [] + items == items;
    }
  }

  lemma EmptyItems(lib: Lib, indent: int)
    ensures PrintItems(lib, [], indent) == []
  {
  }

  lemma OpensArray(lib: Lib, body: seq<byte>)
    requires body != [] && body[0] == OPEN_ARRAY
    ensures ParseValue(lib, body) == ParseArray(lib, body[1..])
  {
    hide ParseArray;
  }

  lemma ItemsStart(lib: Lib, items: seq<Value>, indent: int, tail: seq<byte>)
    requires items != [] && Plain(items[0])
    ensures var list := PrintItems(lib, items, indent) + tail;
      Expect(list, CLOSE_ARRAY) == (false, SkipSpace(list))
  {
    hide Print, NewLine;
    var text := Print(lib, items[0], indent);
    PrintStart(lib, items[0], indent);
    var more := (if |items| == 1 then [] else [COMMA] + PrintItems(lib, items[1..], indent)) + tail;
    assert PrintItems(lib, items, indent) + tail == NewLine(indent) + (text + more);
    NewLineSkipped(indent, text + more);
  }

  /** A printed member: its key, the colon, its value. */
  lemma KeyUndone(lib: Lib, m: Member, indent: int, before: int, tail: seq<byte>)
    ensures var all := NewLine(before) + (PrintMember(lib, m, indent) + tail);
      ParseKey(all) == Parsed(m.key, (if indent == -1 then [] else [SPACE]) + (Print(lib, m.value, indent) + tail))
  {
    hide Print, PrintChars, ParseString, NewLine, IsSpace;
    Marks();
    var value := (if indent == -1 then [] else [SPACE]) + (Print(lib, m.value, indent) + tail);
    var afterKey := [COLON] + value;
    var chars := PrintChars(m.key) + ([QUOTE] + afterKey);
    assert PrintMember(lib, m, indent) + tail == [QUOTE] + chars;
    Found(before, QUOTE, chars);
    CharsUndone(m.key, afterKey, []);
    assert [] + m.key == m.key;
    FoundHere(COLON, value);
  }

  lemma MemberValueUndone(lib: Lib, m: Member, indent: int, tail: seq<byte>)
    requires ReadsIntegers(lib) && Plain(m.value) && Ends(tail)
    ensures ParseValue(lib, (if indent == -1 then [] else [SPACE]) + (Print(lib, m.value, indent) + tail))
         == Parsed(m.value, tail)
    decreases m
  {
    hide Print, ParseValue, Plain, ReadsIntegers;
    var text := Print(lib, m.value, indent) + tail;
    var all := (if indent == -1 then [] else [SPACE]) + text;
    if indent == -1 {
      assert all == text;
    } else {
      assert all[1..] == text;
      SpaceBeforeValue(lib, all, text);
    }
    ValueUndone(lib, m.value, indent, tail);
  }

  lemma {:induction false} MembersUndone(lib: Lib, members: seq<Member>, indent: int, outer: int, acc: seq<Member>, rest: seq<byte>)
    requires ReadsIntegers(lib) && members != [] && Sorted(acc + members)
    requires forall i :: 0 <= i < |members| ==> Plain(members[i].value)
    ensures ParseMembers(lib, PrintMembers(lib, members, indent) + (NewLine(outer) + ([CLOSE_OBJECT] + rest)), acc)
         == Parsed(Obj(acc + members), rest)
    decreases members, 0
  {
    hide Print, NewLine, ParseValue, ParseKey, ReadsIntegers, Plain, IsSpace, InNumber, PrintMember, Sorted, Assign;
    var m := members[0];
    var close := NewLine(outer) + ([CLOSE_OBJECT] + rest);
    var all := PrintMembers(lib, members, indent) + close;
    Marks();
    AssignSorted(acc, members);
    if |members| == 1 {
      assert all == NewLine(indent) + (PrintMember(lib, m, indent) + close);
      KeyUndone(lib, m, indent, indent, close);
      CloseEnds(outer, CLOSE_OBJECT, rest);
      MemberValueUndone(lib, m, indent, close);
      NotFound(outer, COMMA, CLOSE_OBJECT, rest);
      FoundHere(CLOSE_OBJECT, rest);
      assert members == [m];
    } else {
      var next := PrintMembers(lib, members[1..], indent) + close;
      assert all == NewLine(indent) + (PrintMember(lib, m, indent) + ([COMMA] + next));
      KeyUndone(lib, m, indent, indent, [COMMA] + next);
      CommaEnds(next);
      MemberValueUndone(lib, m, indent, [COMMA] + next);
      FoundHere(COMMA, next);
      assert acc + [m] + members[1..] == acc + members;
      MembersUndone(lib, members[1..], indent, outer, acc + [m], rest);
    }
  }

  lemma AssignSorted(acc: seq<Member>, members: seq<Member>)
    requires members != [] && Sorted(acc + members)
    ensures Assign(acc, members[0].key, members[0].value) == acc + [members[0]]
  {
    hide Assign, Less;
    var all := acc + members;
    forall i | 0 <= i < |acc| ensures Less(acc[i].key, members[0].key) {
      assert all[i] == acc[i] && all[|acc|] == members[0];
    }
    AssignLast(acc, members[0].key, members[0].value);
  }

  lemma ObjectUndone(lib: Lib, members: seq<Member>, indent: int, rest: seq<byte>)
    requires ReadsIntegers(lib) && Sorted(members) && forall i :: 0 <= i < |members| ==> Plain(members[i].value)
    ensures ParseValue(lib, Print(lib, Obj(members), indent) + rest) == Parsed(Obj(members), rest)
    decreases members, 1
  {
    hide Print, PrintMembers, ParseMembers, ParseValue, ReadsIntegers, Plain, SkipSpace, NewLine, IsSpace, InNumber, Sorted, Expect;
    PrintObject(lib, members, indent);
    var body := Print(lib, Obj(members), indent) + rest;
    Marks();
    OpensObject(lib, body);
    if members == [] {
      EmptyMembers(lib, Inner(indent));
      assert body[1..] == [CLOSE_OBJECT] + rest;
      FoundHere(CLOSE_OBJECT, rest);
    } else {
      var inner := Inner(indent);
      var list := PrintMembers(lib, members, inner) + (NewLine(indent) + ([CLOSE_OBJECT] + rest));
      assert body[1..] == list;
      assert [] + members == members;
      MembersUndone(lib, members, inner, indent, [], rest);
      MembersStart(lib, members, inner, NewLine(indent) + ([CLOSE_OBJECT] + rest));
      SkipTwice(list);
      SpaceBeforeMembers(lib, list, SkipSpace(list), []);
    }
  }

  lemma EmptyMembers(lib: Lib, indent: int)
    ensures PrintMembers(lib, [], indent) == []
  {
  }

  lemma OpensObject(lib: Lib, body: seq<byte>)
    requires body != [] && body[0] == OPEN_OBJECT
    ensures ParseValue(lib, body) == ParseObject(lib, body[1..])
  {
    hide ParseObject;
  }

  lemma MembersStart(lib: Lib, members: seq<Member>, indent: int, tail: seq<byte>)
    requires members != []
    ensures var list := PrintMembers(lib, members, indent) + tail;
      Expect(list, CLOSE_OBJECT) == (false, SkipSpace(list))
  {
    hide NewLine, Print, PrintChars;
    var text := PrintMember(lib, members[0], indent);
    var more := (if |members| == 1 then [] else [COMMA] + PrintMembers(lib, members[1..], indent)) + tail;
    assert PrintMembers(lib, members, indent) + tail == NewLine(indent) + (text + more);
    assert text[0] == QUOTE;
    NewLineSkipped(indent, text + more);
  }

  /** Reading a printed value gives the value back and stops right behind it. */
  lemma {:induction false} ValueUndone(lib: Lib, v: Value, indent: int, rest: seq<byte>)
    requires ReadsIntegers(lib) && Plain(v) && Ends(rest)
    ensures ParseValue(lib, Print(lib, v, indent) + rest) == Parsed(v, rest)
    decreases v
  {
    hide ParseValue, ReadsIntegers, PrintItems, PrintMembers, PrintString, PrintNumber, SmallInteger, NewLine;
    match v
    case Null => LiteralUndone(lib, v, rest);
    case Bool(_) => LiteralUndone(lib, v, rest);
    case Num(n) => NumberUndone(lib, n, rest);
    case Str(s) => StringUndone(lib, s, rest);
    case Arr(items) => ArrayUndone(lib, items, indent, rest);
    case Obj(members) => ObjectUndone(lib, members, indent, rest);
  }

  /** Parsing serialized text gives the value back, compact or pretty. */
  lemma RoundTrip(lib: Lib, v: Value, prettify: bool)
    requires ReadsIntegers(lib) && Plain(v)
    ensures ParseValue(lib, Serialized(lib, v, if prettify then 0 else -1))
         == Parsed(v, if prettify then [NEWLINE] else [])
  {
    hide Print, ParseValue, Plain, ReadsIntegers;
    if prettify {
      ValueUndone(lib, v, 0, [NEWLINE]);
    } else {
      ValueUndone(lib, v, -1, []);
      assert Print(lib, v, -1) + [] == Print(lib, v, -1);
    }
  }

  // ----- every parsed object is a map -----

  lemma {:induction false} LessTotal(a: seq<byte>, b: seq<byte>)
    ensures Less(a, b) || a == b || Less(b, a)
  {
    if a != [] && b != [] && a[0] == b[0] {
      LessTotal(a[1..], b[1..]);
      assert a == [a[0]] + a[1..] && b == [b[0]] + b[1..];
    }
  }

  lemma {:induction false} LessTrans(a: seq<byte>, b: seq<byte>, c: seq<byte>)
    requires Less(a, b) && Less(b, c)
    ensures Less(a, c)
  {
    if a != [] && a[0] == b[0] == c[0] {
      LessTrans(a[1..], b[1..], c[1..]);
    }
  }

  function Lookup(members: seq<Member>, key: seq<byte>): Option<Value>
  {
    if members == [] then None
    else if members[0].key == key then Some(members[0].value)
    else Lookup(members[1..], key)
  }

  /** All keys lie behind a bound. */
  ghost predicate AllMore(members: seq<Member>, key: seq<byte>)
  {
    forall i :: 0 <= i < |members| ==> Less(key, members[i].key)
  }

  lemma SortedCons(m: Member, members: seq<Member>)
    requires Sorted(members) && AllMore(members, m.key)
    ensures Sorted([m] + members)
  {
    hide Less;
  }

  lemma SortedTail(members: seq<Member>)
    requires members != [] && Sorted(members)
    ensures Sorted(members[1..]) && AllMore(members[1..], members[0].key)
  {
    hide Less;
    forall i | 0 <= i < |members[1..]| ensures Less(members[0].key, members[1..][i].key) {
      assert members[1..][i] == members[i + 1];
    }
  }

  lemma MoreTrans(members: seq<Member>, a: seq<byte>, b: seq<byte>)
    requires Less(a, b) && AllMore(members, b)
    ensures AllMore(members, a)
  {
    hide Less;
    forall i | 0 <= i < |members| ensures Less(a, members[i].key) {
      LessTrans(a, b, members[i].key);
    }
  }

  lemma {:induction false} AssignAllMore(members: seq<Member>, key: seq<byte>, v: Value, bound: seq<byte>)
    requires AllMore(members, bound) && Less(bound, key)
    ensures AllMore(Assign(members, key, v), bound)
  {
    hide Less;
    if members != [] {
      assert Less(bound, members[0].key);
      AssignAllMore(members[1..], key, v, bound);
    }
  }

  /** Assigning keeps the order of keys. */
  lemma {:induction false} AssignKeepsSorted(members: seq<Member>, key: seq<byte>, v: Value)
    requires Sorted(members)
    ensures Sorted(Assign(members, key, v))
  {
    hide Less, Sorted;
    if members == [] {
      OneIsSorted(Member(key, v));
    } else {
      var m := members[0];
      SortedTail(members);
      LessTotal(key, m.key);
      if m.key == key {
        SortedCons(Member(key, v), members[1..]);
      } else if Less(key, m.key) {
        MoreTrans(members[1..], key, m.key);
        SortedAllMore(members, key);
        SortedCons(Member(key, v), members);
      } else {
        AssignKeepsSorted(members[1..], key, v);
        AssignAllMore(members[1..], key, v, m.key);
        SortedCons(m, Assign(members[1..], key, v));
      }
    }
  }

  lemma OneIsSorted(m: Member)
    ensures Sorted([m])
  {
  }

  lemma SortedAllMore(members: seq<Member>, key: seq<byte>)
    requires members != [] && Less(key, members[0].key) && AllMore(members[1..], key)
    ensures AllMore(members, key)
  {
    hide Less;
    forall i | 0 <= i < |members| ensures Less(key, members[i].key) {
      if i > 0 {
        assert members[1..][i - 1] == members[i];
      }
    }
  }

  /** Assigning sets one key, overwriting an earlier value, and leaves the others alone. */
  lemma {:induction false} AssignSets(members: seq<Member>, key: seq<byte>, v: Value, k: seq<byte>)
    requires Sorted(members)
    ensures Lookup(Assign(members, key, v), k) == if k == key then Some(v) else Lookup(members, k)
  {
    hide Less, Sorted;
    if members != [] {
      SortedTail(members);
      AssignSets(members[1..], key, v, k);
    }
  }

  /** All objects in the value, however deep, have sorted and distinct keys. */
  ghost predicate WellSorted(v: Value)
    decreases v
  {
    match v
    case Arr(items) => forall i :: 0 <= i < |items| ==> WellSorted(items[i])
    case Obj(members) => MembersSorted(members)
    case _ => true
  }

  ghost predicate MembersSorted(members: seq<Member>)
    decreases members
  {
    Sorted(members) && forall i :: 0 <= i < |members| ==> WellSorted(members[i].value)
  }

  ghost predicate ValuesSorted(members: seq<Member>)
  {
    forall i :: 0 <= i < |members| ==> WellSorted(members[i].value)
  }

  lemma {:induction false} AssignWellSorted(members: seq<Member>, key: seq<byte>, v: Value)
    requires WellSorted(v) && ValuesSorted(members)
    ensures ValuesSorted(Assign(members, key, v))
  {
    hide Less, WellSorted;
    if members != [] {
      forall i | 0 <= i < |members[1..]| ensures WellSorted(members[1..][i].value) {
        assert members[1..][i] == members[i + 1];
      }
      AssignWellSorted(members[1..], key, v);
    }
  }

  /** Whatever the text, the objects read from it are maps: keys sorted, none twice. */
  lemma {:induction false} ParsedIsMap(lib: Lib, s: seq<byte>)
    requires ParseValue(lib, s).Parsed?
    ensures WellSorted(ParseValue(lib, s).value)
    decreases |s|, 1
  {
    hide ParseString, ParseNumber, ParseItems, ParseMembers, IsSpace;
    var t := SkipSpace(s);
    if t[0] == OPEN_ARRAY {
      var e := Expect(t[1..], CLOSE_ARRAY);
      if !e.0 {
        ItemsAreMaps(lib, e.1, []);
      }
    } else if t[0] == OPEN_OBJECT {
      var e := Expect(t[1..], CLOSE_OBJECT);
      if !e.0 {
        MembersAreMaps(lib, e.1, []);
      }
    } else {
      SkipTwice(s);
      SpaceBeforeValue(lib, s, t);
      ScalarSorted(lib, t);
    }
  }

  lemma ScalarSorted(lib: Lib, t: seq<byte>)
    requires t != [] && t[0] != OPEN_ARRAY && t[0] != OPEN_OBJECT && SkipSpace(t) == t && ParseValue(lib, t).Parsed?
    ensures WellSorted(ParseValue(lib, t).value)
  {
  }

  lemma {:induction false} ItemsAreMaps(lib: Lib, s: seq<byte>, acc: seq<Value>)
    requires ParseItems(lib, s, acc).Parsed? && forall i :: 0 <= i < |acc| ==> WellSorted(acc[i])
    ensures WellSorted(ParseItems(lib, s, acc).value)
    decreases |s|, 2
  {
    hide ParseValue, Expect;
    var r := ParseValue(lib, s);
    ParsedIsMap(lib, s);
    var more := Expect(r.rest, COMMA);
    if more.0 {
      ItemsAreMaps(lib, more.1, acc + [r.value]);
    }
  }

  lemma {:induction false} MembersAreMaps(lib: Lib, s: seq<byte>, acc: seq<Member>)
    requires ParseMembers(lib, s, acc).Parsed? && MembersSorted(acc)
    ensures WellSorted(ParseMembers(lib, s, acc).value)
    decreases |s|, 2
  {
    hide ParseValue, Expect, ParseKey, Sorted, Assign, Less;
    var key := ParseKey(s);
    var r := ParseValue(lib, key.rest);
    ParsedIsMap(lib, key.rest);
    AssignKeepsSorted(acc, key.value, r.value);
    AssignWellSorted(acc, key.value, r.value);
    var more := Expect(r.rest, COMMA);
    if more.0 {
      MembersAreMaps(lib, more.1, Assign(acc, key.value, r.value));
    }
  }
}
