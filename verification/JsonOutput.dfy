/** The JSON serializer as the source runs it: characters go one by one to an output iterator. */
module JsonOutput {
  import opened Bits
  import opened JsonText

  /** What an output iterator has received so far. */
  class Output {
    var text: seq<byte>

    constructor ()
      ensures text == []
    {
      text := [];
    }

    method Put(c: byte)
      modifies this
      ensures text == old(text) + [c]
    {
      text := text + [c];
    }

    method Copy(s: seq<byte>)
      modifies this
      ensures text == old(text) + s
    {
      text := text + s;
    }

    /** A line break and two blanks per level. */
    method Indent(indent: nat)
      modifies this
      ensures text == old(text) + NewLine(indent)
    {
      hide Spaces;
      ghost var before := text;
      Put(NEWLINE);
      ghost var goal := text + Spaces(indent * 2);
      assert goal == before + NewLine(indent);
      var i := 0;
      while i < indent * 2
        invariant i <= indent * 2 && text + Spaces(indent * 2 - i) == goal
      {
        SpacesStep(text, indent * 2 - i);
        Put(SPACE);
        i := i + 1;
      }
      SpacesEnd(text);
    }

    lemma SpacesStep(t: seq<byte>, n: nat)
      requires n > 0
      ensures t + Spaces(n) == t + [SPACE] + Spaces(n - 1)
    {
    }

    lemma SpacesEnd(t: seq<byte>)
      ensures t + Spaces(0) == t
    {
    }

    method SerializeChar(c: byte)
      modifies this
      ensures text == old(text) + PrintChar(c)
    {
      match EscapeLetter(c)
      case Some(letter) => Copy([BACKSLASH, letter]);
      case None =>
        if c < 0x20 || c == 0x7f {
          Copy([BACKSLASH, LETTER_U, 48, 48, HexDigit(c / 16), HexDigit(c % 16)]);
        } else {
          Put(c);
        }
    }

    method SerializeString(s: seq<byte>)
      modifies this
      ensures text == old(text) + PrintString(s)
    {
      hide PrintChar;
      ghost var goal := text + [QUOTE] + PrintChars(s);
      assert goal + [QUOTE] == text + PrintString(s);
      Put(QUOTE);
      assert s[0..] == s;
      var i := 0;
      while i < |s|
        invariant i <= |s| && text + PrintChars(s[i..]) == goal
      {
        assert s[i..][1..] == s[i + 1..];
        assert PrintChars(s[i..]) == PrintChar(s[i]) + PrintChars(s[i + 1..]);
        SerializeChar(s[i]);
        i := i + 1;
      }
      assert text + PrintChars(s[i..]) == text;
      Put(QUOTE);
    }

    /** What is left to write of a list behind its first i items. */
    ghost function ItemsLeft(lib: Lib, items: seq<Value>, i: nat, indent: int): seq<byte>
      requires i <= |items|
    {
      if i == |items| then [] else (if i == 0 then [] else [COMMA]) + PrintItems(lib, items[i..], indent)
    }

    lemma ItemsStep(lib: Lib, items: seq<Value>, i: nat, indent: int)
      requires i < |items|
      ensures ItemsLeft(lib, items, i, indent)
           == (if i == 0 then [] else [COMMA])
              + (NewLine(indent) + Print(lib, items[i], indent) + ItemsLeft(lib, items, i + 1, indent))
    {
      hide Print, NewLine;
      assert items[i..][1..] == items[i + 1..];
    }

    ghost function MembersLeft(lib: Lib, members: seq<Member>, i: nat, indent: int): seq<byte>
      requires i <= |members|
    {
      if i == |members| then [] else (if i == 0 then [] else [COMMA]) + PrintMembers(lib, members[i..], indent)
    }

    lemma MembersStep(lib: Lib, members: seq<Member>, i: nat, indent: int)
      requires i < |members|
      ensures MembersLeft(lib, members, i, indent)
           == (if i == 0 then [] else [COMMA])
              + (NewLine(indent) + PrintMember(lib, members[i], indent) + MembersLeft(lib, members, i + 1, indent))
    {
      hide PrintMember, NewLine;
      assert members[i..][1..] == members[i + 1..];
    }

    /** A line break with indentation, in pretty form only. */
    method Break(indent: int)
      requires indent >= -1
      modifies this
      ensures text == old(text) + NewLine(indent)
    {
      if indent != -1 {
        Indent(indent);
      }
    }

    method SerializeItems(lib: Lib, items: seq<Value>, indent: int)
      requires indent == -1 || indent >= 1
      modifies this
      ensures text == old(text) + PrintItems(lib, items, indent)
      decreases items, 0
    {
      hide Print, PrintItems, NewLine, ItemsLeft;
      ghost var goal := text + PrintItems(lib, items, indent);
      ItemsBounds(lib, items, indent);
      var i := 0;
      while i < |items|
        invariant i <= |items| && text + ItemsLeft(lib, items, i, indent) == goal
      {
        ghost var before := text;
        ItemsStep(lib, items, i, indent);
        if i != 0 {
          Put(COMMA);
        }
        Break(indent);
        Serialize(lib, items[i], indent);
        i := i + 1;
        assert text == before + (if i == 1 then [] else [COMMA]) + NewLine(indent) + Print(lib, items[i - 1], indent);
      }
    }

    lemma ItemsBounds(lib: Lib, items: seq<Value>, indent: int)
      ensures ItemsLeft(lib, items, 0, indent) == PrintItems(lib, items, indent)
      ensures ItemsLeft(lib, items, |items|, indent) == []
    {
      assert items[0..] == items;
    }

    lemma MembersBounds(lib: Lib, members: seq<Member>, indent: int)
      ensures MembersLeft(lib, members, 0, indent) == PrintMembers(lib, members, indent)
      ensures MembersLeft(lib, members, |members|, indent) == []
    {
      assert members[0..] == members;
    }

    method SerializeMembers(lib: Lib, members: seq<Member>, indent: int)
      requires indent == -1 || indent >= 1
      modifies this
      ensures text == old(text) + PrintMembers(lib, members, indent)
      decreases members, 0
    {
      hide Print, PrintMembers, NewLine, MembersLeft, PrintMember;
      ghost var goal := text + PrintMembers(lib, members, indent);
      MembersBounds(lib, members, indent);
      var i := 0;
      while i < |members|
        invariant i <= |members| && text + MembersLeft(lib, members, i, indent) == goal
      {
        ghost var before := text;
        MembersStep(lib, members, i, indent);
        if i != 0 {
          Put(COMMA);
        }
        Break(indent);
        SerializeMember(lib, members[i], indent);
        i := i + 1;
        assert text == before + (if i == 1 then [] else [COMMA]) + NewLine(indent) + PrintMember(lib, members[i - 1], indent);
      }
    }

    method SerializeMember(lib: Lib, m: Member, indent: int)
      requires indent == -1 || indent >= 1
      modifies this
      ensures text == old(text) + PrintMember(lib, m, indent)
      decreases m
    {
      hide Print, PrintString;
      SerializeString(m.key);
      Put(COLON);
      if indent != -1 {
        Put(SPACE);
      }
      Serialize(lib, m.value, indent);
    }

    method SerializeArray(lib: Lib, items: seq<Value>, indent: int)
      requires indent >= -1
      modifies this
      ensures text == old(text) + Print(lib, Arr(items), indent)
      decreases items, 1
    {
      hide Print, PrintItems, NewLine;
      PrintArray(lib, items, indent);
      Put(OPEN_ARRAY);
      SerializeItems(lib, items, if indent != -1 then indent + 1 else indent);
      if items != [] {
        Break(indent);
      }
      Put(CLOSE_ARRAY);
    }

    method SerializeObject(lib: Lib, members: seq<Member>, indent: int)
      requires indent >= -1
      modifies this
      ensures text == old(text) + Print(lib, Obj(members), indent)
      decreases members, 1
    {
      hide Print, PrintMembers, NewLine;
      PrintObject(lib, members, indent);
      Put(OPEN_OBJECT);
      SerializeMembers(lib, members, if indent != -1 then indent + 1 else indent);
      if members != [] {
        Break(indent);
      }
      Put(CLOSE_OBJECT);
    }

    lemma PrintScalar(lib: Lib, v: Value, indent: int)
      ensures v.Null? ==> Print(lib, v, indent) == NULL_TEXT
      ensures v.Bool? ==> Print(lib, v, indent) == if v.b then TRUE_TEXT else FALSE_TEXT
      ensures v.Num? ==> Print(lib, v, indent) == PrintNumber(lib, v.n)
      ensures v.Str? ==> Print(lib, v, indent) == PrintString(v.s)
    {
    }

    /** Writes a value; only the outermost pretty value gets a line break behind it. */
    method Serialize(lib: Lib, v: Value, indent: int)
      requires indent >= -1
      modifies this
      ensures text == old(text) + Serialized(lib, v, indent)
      decreases v
    {
      hide Print, PrintString, PrintNumber;
      PrintScalar(lib, v, indent);
      match v {
        case Null => Copy(NULL_TEXT);
        case Bool(b) => Copy(if b then TRUE_TEXT else FALSE_TEXT);
        case Num(n) => Copy(PrintNumber(lib, n));
        case Str(s) => SerializeString(s);
        case Arr(items) => SerializeArray(lib, items, indent);
        case Obj(members) => SerializeObject(lib, members, indent);
      }
      if indent == 0 {
        Put(NEWLINE);
      }
    }
  }

  /** Serializes to a string. */
  method SerializeText(lib: Lib, v: Value, prettify: bool) returns (text: seq<byte>)
    ensures text == Serialized(lib, v, if prettify then 0 else -1)
  {
    var out := new Output();
    out.Serialize(lib, v, if prettify then 0 else -1);
    text := out.text;
  }
}
