/** How a printed JSON text looks: its escapes, its line breaks, the order of its members, and two texts in full. */
module JsonLayout {
  import opened Bits
  import opened JsonText
  import opened JsonRoundTrip

  /** A letter for quote, backslash, slash, backspace, tab, line feed, form feed and carriage return; the code for the
      other control characters and DEL; every other byte as it is. */
  lemma CharForm(c: byte)
    ensures c == 0x22 ==> PrintChar(c) == [0x5C, 0x22]
    ensures c == 0x5C ==> PrintChar(c) == [0x5C, 0x5C]
    ensures c == 0x2F ==> PrintChar(c) == [0x5C, 0x2F]
    ensures c == 0x08 ==> PrintChar(c) == [0x5C, 0x62]
    ensures c == 0x09 ==> PrintChar(c) == [0x5C, 0x74]
    ensures c == 0x0A ==> PrintChar(c) == [0x5C, 0x6E]
    ensures c == 0x0C ==> PrintChar(c) == [0x5C, 0x66]
    ensures c == 0x0D ==> PrintChar(c) == [0x5C, 0x72]
    ensures (c < 0x20 && c !in {0x08, 0x09, 0x0A, 0x0C, 0x0D}) || c == 0x7F ==>
      PrintChar(c) == [0x5C, 0x75, 0x30, 0x30, 0x30 + c / 16, if c % 16 < 10 then 0x30 + c % 16 else 0x61 + (c % 16 - 10)]
    ensures c >= 0x20 && c !in {0x22, 0x2F, 0x5C, 0x7F} ==> PrintChar(c) == [c]
  {
  }

  /** A line of pretty text starts with two spaces for each level. */
  lemma LineStart(indent: nat)
    ensures |NewLine(indent)| == 1 + 2 * indent && NewLine(indent)[0] == 0x0A
    ensures forall i :: 1 <= i < |NewLine(indent)| ==> NewLine(indent)[i] == 0x20
  {
    hide Spaces;
    AllSpaces(2 * indent);
  }

  lemma {:induction false} AllSpaces(n: nat)
    ensures |Spaces(n)| == n && forall i :: 0 <= i < n ==> Spaces(n)[i] == 0x20
  {
    if n > 0 {
      AllSpaces(n - 1);
    }
  }

  /** Integers below two to the 53rd in size are printed in decimal; what prints the other numbers is left to the
      library. */
  lemma NumberForm(lib: Lib, n: int, r: real)
    ensures -9007199254740992 < n < 9007199254740992 ==> PrintNumber(lib, n as real) == Decimal(n)
    ensures !(-9007199254740992.0 < r < 9007199254740992.0) || r != r.Floor as real ==> PrintNumber(lib, r) == lib.long(r)
  {
    assert (n as real).Floor == n;
  }

  /** Keys are ordered by their first difference; a proper prefix comes first. */
  ghost predicate FirstDifference(a: seq<byte>, b: seq<byte>, k: nat)
  {
    k <= |a| && k < |b| && a[..k] == b[..k] && (k == |a| || a[k] < b[k])
  }

  lemma {:induction false} LessIsLexicographic(a: seq<byte>, b: seq<byte>)
    ensures Less(a, b) <==> exists k: nat :: FirstDifference(a, b, k)
  {
    if b == [] {
      assert !Less(a, b);
    } else if a == [] || a[0] < b[0] {
      assert FirstDifference(a, b, 0);
    } else if a[0] == b[0] {
      LessIsLexicographic(a[1..], b[1..]);
      if Less(a, b) {
        var k: nat :| FirstDifference(a[1..], b[1..], k);
        SameStart(a, b, k);
        assert FirstDifference(a, b, k + 1);
      }
      if k: nat :| FirstDifference(a, b, k) {
        assert k > 0;
        SameRest(a, b, k);
        assert FirstDifference(a[1..], b[1..], k - 1);
      }
    } else {
      forall k: nat ensures !FirstDifference(a, b, k) {
        if k > 0 && k <= |a| && k <= |b| {
          assert a[..k][0] == a[0] && b[..k][0] == b[0];
        }
      }
    }
  }

  lemma SameStart(a: seq<byte>, b: seq<byte>, k: nat)
    requires k < |a| && k < |b| && a[0] == b[0] && a[1..][..k] == b[1..][..k]
    ensures a[..k + 1] == b[..k + 1]
  {
    assert a[..k + 1] == [a[0]] + a[1..][..k] && b[..k + 1] == [b[0]] + b[1..][..k];
  }

  lemma SameRest(a: seq<byte>, b: seq<byte>, k: nat)
    requires 0 < k <= |a| && k <= |b| && a[..k] == b[..k]
    ensures a[1..][..k - 1] == b[1..][..k - 1]
  {
    assert a[1..][..k - 1] == a[..k][1..] && b[1..][..k - 1] == b[..k][1..];
  }

  // ----- two texts in full -----

  /** An object with the members "a", an array of null and true, and "b", an empty object. */
  const EXAMPLE := Obj([Member([0x61], Arr([Null, Bool(true)])), Member([0x62], Obj([]))])

  lemma OneChar(c: byte)
    requires 0x61 <= c <= 0x62
    ensures PrintString([c]) == [0x22, c, 0x22]
  {
    assert PrintChars([c]) == PrintChar(c) + PrintChars([]);
  }

  lemma TwoItems(lib: Lib, indent: int)
    ensures PrintItems(lib, [Null, Bool(true)], indent)
         == NewLine(indent) + [0x6E, 0x75, 0x6C, 0x6C] + ([0x2C] + (NewLine(indent) + [0x74, 0x72, 0x75, 0x65]))
  {
    hide NewLine;
    OneItem(lib, indent);
    assert [Null, Bool(true)][1..] == [Bool(true)];
  }

  lemma OneItem(lib: Lib, indent: int)
    ensures PrintItems(lib, [Bool(true)], indent) == NewLine(indent) + [0x74, 0x72, 0x75, 0x65]
  {
    hide NewLine;
    assert NewLine(indent) + [0x74, 0x72, 0x75, 0x65] + [] == NewLine(indent) + [0x74, 0x72, 0x75, 0x65];
  }

  lemma FirstMember(lib: Lib, indent: int)
    ensures var sep := if indent == -1 then [] else [0x20];
      PrintMember(lib, EXAMPLE.members[0], indent)
      == [0x22, 0x61, 0x22, 0x3A] + sep + ([0x5B] + PrintItems(lib, [Null, Bool(true)], Inner(indent)) + NewLine(indent) + [0x5D])
  {
    hide NewLine, PrintItems, PrintString, Inner;
    OneChar(0x61);
    PrintArray(lib, [Null, Bool(true)], indent);
  }

  lemma SecondMember(lib: Lib, indent: int)
    ensures var sep := if indent == -1 then [] else [0x20];
      PrintMember(lib, EXAMPLE.members[1], indent) == [0x22, 0x62, 0x22, 0x3A] + sep + [0x7B, 0x7D]
  {
    hide NewLine, PrintMembers, PrintString;
    OneChar(0x62);
    PrintObject(lib, [], indent);
    EmptyMembers(lib, Inner(indent));
    assert [0x7B] + [] + [] + [0x7D] == [0x7B, 0x7D];
  }

  lemma TwoMembers(lib: Lib, indent: int)
    ensures PrintMembers(lib, EXAMPLE.members, indent)
         == NewLine(indent) + PrintMember(lib, EXAMPLE.members[0], indent)
            + ([0x2C] + (NewLine(indent) + PrintMember(lib, EXAMPLE.members[1], indent)))
  {
    hide NewLine, PrintMember;
    var last := EXAMPLE.members[1..];
    assert last == [EXAMPLE.members[1]];
    assert NewLine(indent) + PrintMember(lib, last[0], indent) + [] == NewLine(indent) + PrintMember(lib, last[0], indent);
  }

  lemma NoLines()
    ensures NewLine(-1) == [] && Inner(-1) == -1
  {
  }

  lemma CompactItems(lib: Lib)
    ensures PrintItems(lib, [Null, Bool(true)], -1) == [0x6E, 0x75, 0x6C, 0x6C, 0x2C, 0x74, 0x72, 0x75, 0x65]
  {
    hide PrintItems, NewLine;
    NoLines();
    TwoItems(lib, -1);
  }

  lemma CompactFirst(lib: Lib)
    ensures PrintMember(lib, EXAMPLE.members[0], -1)
         == [0x22, 0x61, 0x22, 0x3A, 0x5B, 0x6E, 0x75, 0x6C, 0x6C, 0x2C, 0x74, 0x72, 0x75, 0x65, 0x5D]
  {
    hide PrintMember, PrintItems, NewLine, Inner;
    NoLines();
    CompactItems(lib);
    FirstMember(lib, -1);
  }

  lemma CompactSecond(lib: Lib)
    ensures PrintMember(lib, EXAMPLE.members[1], -1) == [0x22, 0x62, 0x22, 0x3A, 0x7B, 0x7D]
  {
    hide PrintMember;
    SecondMember(lib, -1);
  }

  /** {"a":[null,true],"b":{}} */
  lemma CompactExample(lib: Lib)
    ensures Serialized(lib, EXAMPLE, -1)
         == [0x7B, 0x22, 0x61, 0x22, 0x3A, 0x5B, 0x6E, 0x75, 0x6C, 0x6C, 0x2C, 0x74, 0x72, 0x75, 0x65, 0x5D, 0x2C,
             0x22, 0x62, 0x22, 0x3A, 0x7B, 0x7D, 0x7D]
  {
    hide Print, PrintMembers, PrintMember, NewLine, Inner;
    NoLines();
    PrintObject(lib, EXAMPLE.members, -1);
    TwoMembers(lib, -1);
    CompactFirst(lib);
    CompactSecond(lib);
  }

  /** The same with a line for each item and each member, two spaces for each level, and a line break at the end. */
  lemma PrettyExample(lib: Lib)
    ensures Serialized(lib, EXAMPLE, 0)
         == [0x7B] + ([0x0A, 0x20, 0x20] + [0x22, 0x61, 0x22, 0x3A, 0x20, 0x5B]
            + ([0x0A, 0x20, 0x20, 0x20, 0x20] + [0x6E, 0x75, 0x6C, 0x6C, 0x2C]
            + ([0x0A, 0x20, 0x20, 0x20, 0x20] + [0x74, 0x72, 0x75, 0x65]
            + ([0x0A, 0x20, 0x20] + [0x5D, 0x2C]
            + ([0x0A, 0x20, 0x20] + [0x22, 0x62, 0x22, 0x3A, 0x20, 0x7B, 0x7D]
            + ([0x0A] + [0x7D, 0x0A]))))))
  {
    hide Print, PrintMembers, PrintMember, PrintItems, NewLine;
    PrintObject(lib, EXAMPLE.members, 0);
    TwoMembers(lib, 1);
    FirstMember(lib, 1);
    SecondMember(lib, 1);
    TwoItems(lib, 2);
    LineStarts();
  }

  lemma LineStarts()
    ensures NewLine(0) == [0x0A] && NewLine(1) == [0x0A, 0x20, 0x20] && NewLine(2) == [0x0A, 0x20, 0x20, 0x20, 0x20]
  {
    LineStart(0);
    LineStart(1);
    LineStart(2);
  }
}
