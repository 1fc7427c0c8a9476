/** An encoder for dynamic headers (section 3.2.7 of RFC 1951), and the proof that decoding undoes it. */
module ZlibEncode {
  import opened Bits
  import opened Canonical
  import opened ZBuf
  import opened DynamicHeader
  import opened DeflateEncode

  // ----- code descriptions -----

  /** One step of the run-length coding of code lengths. */
  datatype LengthOp = One(l: nat) | Again(n: nat) | FewZeros(n: nat) | ManyZeros(n: nat)

  function OpSymbol(op: LengthOp): nat
  {
    match op
    case One(l) => l
    case Again(_) => 16
    case FewZeros(_) => 17
    case ManyZeros(_) => 18
  }

  function ApplyOp(acc: seq<nat>, op: LengthOp): seq<nat>
    requires op.Again? ==> acc != []
  {
    match op
    case One(l) => acc + [l]
    case Again(n) => acc + Repeated(acc[|acc| - 1], n)
    case FewZeros(n) => acc + Repeated(0, n)
    case ManyZeros(n) => acc + Repeated(0, n)
  }

  /** The step is in range, fits into ntot lengths, and its symbol has a code. */
  predicate OpFits(cl: seq<nat>, ntot: nat, acc: seq<nat>, op: LengthOp)
  {
    && HasCode(cl, OpSymbol(op))
    && (match op
        case One(l) => l <= MAX_LENGTH && |acc| < ntot
        case Again(n) => 3 <= n <= 6 && acc != [] && |acc| + n <= ntot
        case FewZeros(n) => 3 <= n <= 10 && |acc| + n <= ntot
        case ManyZeros(n) => 11 <= n <= 138 && |acc| + n <= ntot)
  }

  predicate OpsFit(cl: seq<nat>, ntot: nat, acc: seq<nat>, ops: seq<LengthOp>)
    decreases |ops|
  {
    if ops == [] then |acc| == ntot
    else OpFits(cl, ntot, acc, ops[0]) && OpsFit(cl, ntot, ApplyOp(acc, ops[0]), ops[1..])
  }

  function ApplyOps(cl: seq<nat>, ntot: nat, acc: seq<nat>, ops: seq<LengthOp>): (r: seq<nat>)
    requires OpsFit(cl, ntot, acc, ops)
    ensures |r| == ntot
    decreases |ops|
  {
    if ops == [] then acc else ApplyOps(cl, ntot, ApplyOp(acc, ops[0]), ops[1..])
  }

  function OpBits(cl: seq<nat>, op: LengthOp): seq<bit>
    requires HasCode(cl, OpSymbol(op))
  {
    SymbolBits(cl, OpSymbol(op))
    + (match op
       case One(_) => []
       case Again(n) => ToBits(if n >= 3 then n - 3 else 0, 2)
       case FewZeros(n) => ToBits(if n >= 3 then n - 3 else 0, 3)
       case ManyZeros(n) => ToBits(if n >= 11 then n - 11 else 0, 7))
  }

  function OpsBits(cl: seq<nat>, ntot: nat, acc: seq<nat>, ops: seq<LengthOp>): seq<bit>
    requires OpsFit(cl, ntot, acc, ops)
    decreases |ops|
  {
    if ops == [] then [] else OpBits(cl, ops[0]) + OpsBits(cl, ntot, ApplyOp(acc, ops[0]), ops[1..])
  }

  lemma OneUndone(cl: seq<nat>, ntot: nat, acc: seq<nat>, op: LengthOp, tail: seq<bit>)
    requires |cl| == 19 && ValidLens(cl) && Accepted(cl) && |acc| <= ntot && AllLengths(acc)
    requires OpFits(cl, ntot, acc, op) && op.One?
    ensures AllLengths(ApplyOp(acc, op)) && |ApplyOp(acc, op)| <= ntot
    ensures ReadLengths(cl, ntot, acc, OpBits(cl, op) + tail) == ReadLengths(cl, ntot, ApplyOp(acc, op), tail)
  {
    hide DecodeSymbol, SymbolBits, ValidLens, Accepted;
    assert OpBits(cl, op) + tail == SymbolBits(cl, op.l) + tail;
    DecodeUndoesSymbol(cl, op.l, tail);
  }

  function OpCount(op: LengthOp): nat
  {
    match op
    case One(_) => 1
    case Again(n) => n
    case FewZeros(n) => n
    case ManyZeros(n) => n
  }

  lemma RepeatOpUndone(cl: seq<nat>, ntot: nat, acc: seq<nat>, op: LengthOp, tail: seq<bit>)
    requires |cl| == 19 && ValidLens(cl) && Accepted(cl) && |acc| <= ntot && AllLengths(acc)
    requires OpFits(cl, ntot, acc, op) && !op.One?
    ensures AllLengths(ApplyOp(acc, op)) && |ApplyOp(acc, op)| <= ntot
    ensures ReadLengths(cl, ntot, acc, OpBits(cl, op) + tail) == ReadLengths(cl, ntot, ApplyOp(acc, op), tail)
  {
    hide DecodeSymbol, SymbolBits, ValidLens, Accepted, FromBits, ToBits, Pow2;
    Pow2Values();
    var c, n := OpSymbol(op), OpCount(op);
    var after := ToBits(n - RepeatBase(c), RepeatExtra(c)) + tail;
    assert OpBits(cl, op) + tail == SymbolBits(cl, c) + after;
    DecodeUndoesSymbol(cl, c, after);
    ExtraUndone(RepeatBase(c), n, RepeatExtra(c), tail);
    assert ApplyOp(acc, op) == acc + Repeated(Fill(c, acc), n);
  }

  lemma AllLengthsRead(cl: seq<nat>, ntot: nat, acc: seq<nat>, rest: seq<bit>)
    requires |cl| == 19 && |acc| == ntot && AllLengths(acc)
    ensures ReadLengths(cl, ntot, acc, rest) == Lengths(acc, rest)
  {
  }

  /** Reading code lengths undoes writing them. */
  lemma {:induction false} OpsUndone(cl: seq<nat>, ntot: nat, acc: seq<nat>, ops: seq<LengthOp>, rest: seq<bit>)
    requires |cl| == 19 && ValidLens(cl) && Accepted(cl) && |acc| <= ntot && AllLengths(acc)
    requires OpsFit(cl, ntot, acc, ops)
    ensures ReadLengths(cl, ntot, acc, OpsBits(cl, ntot, acc, ops) + rest)
         == Lengths(ApplyOps(cl, ntot, acc, ops), rest)
    decreases |ops|
  {
    hide DecodeSymbol, SymbolBits, ValidLens, Accepted, OpBits, HasCode, Repeated, ReadLengths;
    if ops == [] {
      assert OpsBits(cl, ntot, acc, ops) + rest == rest;
      AllLengthsRead(cl, ntot, acc, rest);
    } else {
      var tail := OpsBits(cl, ntot, ApplyOp(acc, ops[0]), ops[1..]) + rest;
      assert OpsBits(cl, ntot, acc, ops) + rest == OpBits(cl, ops[0]) + tail;
      if ops[0].One? {
        OneUndone(cl, ntot, acc, ops[0], tail);
      } else {
        RepeatOpUndone(cl, ntot, acc, ops[0], tail);
      }
      OpsUndone(cl, ntot, ApplyOp(acc, ops[0]), ops[1..], rest);
    }
  }

  /** A dynamic header: the sizes sent for the code-length code, the steps, and where the lengths split. */
  datatype Plan = Plan(sent: seq<nat>, ops: seq<LengthOp>, hlit: nat, hdist: nat)

  predicate PlanShape(plan: Plan)
  {
    4 <= |plan.sent| <= 19 && SmallSizes(plan.sent) && 257 <= plan.hlit <= 288 && 1 <= plan.hdist <= 32
  }

  function PlanCode(plan: Plan): (cl: seq<nat>)
    requires PlanShape(plan)
    ensures |cl| == 19 && ValidLens(cl)
  {
    Arrange(plan.sent)
  }

  predicate PlanFits(plan: Plan)
  {
    PlanShape(plan) && Accepted(PlanCode(plan)) && OpsFit(PlanCode(plan), plan.hlit + plan.hdist, [], plan.ops)
  }

  function PlanLengths(plan: Plan): (lens: seq<nat>)
    requires PlanFits(plan)
    ensures |lens| == plan.hlit + plan.hdist && AllLengths(lens)
  {
    var lens := ApplyOps(PlanCode(plan), plan.hlit + plan.hdist, [], plan.ops);
    OpsKeepLengths(PlanCode(plan), plan.hlit + plan.hdist, [], plan.ops);
    lens
  }

  lemma {:induction false} OpsKeepLengths(cl: seq<nat>, ntot: nat, acc: seq<nat>, ops: seq<LengthOp>)
    requires AllLengths(acc) && OpsFit(cl, ntot, acc, ops)
    ensures AllLengths(ApplyOps(cl, ntot, acc, ops))
    decreases |ops|
  {
    if ops != [] {
      OpsKeepLengths(cl, ntot, ApplyOp(acc, ops[0]), ops[1..]);
    }
  }

  function PlanLL(plan: Plan): (ll: seq<nat>)
    requires PlanFits(plan)
    ensures ValidLens(ll)
  {
    PlanLengths(plan)[..plan.hlit]
  }

  function PlanDD(plan: Plan): (dd: seq<nat>)
    requires PlanFits(plan)
    ensures ValidLens(dd)
  {
    PlanLengths(plan)[plan.hlit..]
  }

  /** Three bits per size. */
  function SentBits(sent: seq<nat>): (b: seq<bit>)
    ensures |b| == 3 * |sent|
  {
    if sent == [] then [] else SentBits(sent[..|sent| - 1]) + ToBits(sent[|sent| - 1], 3)
  }

  lemma SizeUndone(head: seq<bit>, v: nat, rest: seq<bit>)
    requires v < 8
    ensures FromBits(Window(head + (ToBits(v, 3) + rest), |head|, 3)) == v
  {
    hide FromBits, ToBits;
    Pow2Values();
    FromToBits(v, 3);
    SmallMod(v, 8);
    assert Window(head + (ToBits(v, 3) + rest), |head|, 3) == ToBits(v, 3);
  }

  lemma {:induction false} SentUndone(sent: seq<nat>, before: seq<bit>, rest: seq<bit>)
    requires SmallSizes(sent)
    ensures Sizes(before + SentBits(sent) + rest, |before|, |sent|) == sent
  {
    hide ToBits, FromBits, Window, Pow2;
    if sent != [] {
      var n := |sent| - 1;
      var head := before + SentBits(sent[..n]);
      assert before + SentBits(sent) + rest == head + (ToBits(sent[n], 3) + rest);
      SentUndone(sent[..n], before, ToBits(sent[n], 3) + rest);
      SizeUndone(head, sent[n], rest);
      assert sent == sent[..n] + [sent[n]];
    }
  }

  function CountBits(plan: Plan): (b: seq<bit>)
    requires PlanShape(plan)
    ensures |b| == 14
  {
    ToBits(plan.hlit - 257, 5) + ToBits(plan.hdist - 1, 5) + ToBits(|plan.sent| - 4, 4)
  }

  function PlanBits(plan: Plan): seq<bit>
    requires PlanFits(plan)
  {
    CountBits(plan) + SentBits(plan.sent) + OpsBits(PlanCode(plan), plan.hlit + plan.hdist, [], plan.ops)
  }

  lemma FieldUndone(v: nat, n: nat)
    requires v < 16 || (v < 32 && n == 5)
    requires n == 4 || n == 5
    ensures FromBits(ToBits(v, n)) == v
  {
    Pow2Values();
    FromToBits(v, n);
    SmallMod(v, Pow2(n));
  }

  lemma CountsUndone(plan: Plan, tail: seq<bit>)
    requires PlanShape(plan)
    ensures var bits := CountBits(plan) + tail;
      FromBits(bits[..5]) == plan.hlit - 257 && FromBits(bits[5..10]) == plan.hdist - 1
      && FromBits(bits[10..14]) == |plan.sent| - 4
  {
    hide ToBits, FromBits;
    var bits := CountBits(plan) + tail;
    assert bits[..5] == ToBits(plan.hlit - 257, 5);
    assert bits[5..10] == ToBits(plan.hdist - 1, 5);
    assert bits[10..14] == ToBits(|plan.sent| - 4, 4);
    FieldUndone(plan.hlit - 257, 5);
    FieldUndone(plan.hdist - 1, 5);
    FieldUndone(|plan.sent| - 4, 4);
  }

  /** Reading a dynamic header undoes writing it. */
  lemma HeaderUndone(plan: Plan, rest: seq<bit>)
    requires PlanFits(plan) && Accepted(PlanLL(plan)) && Accepted(PlanDD(plan))
    ensures Header(PlanBits(plan) + rest) == Tables(PlanLL(plan), PlanDD(plan), rest)
  {
    hide FromBits, ToBits, ReadLengths, Accepted, Arrange, ApplyOps, OpsBits, SentBits, Sizes, SmallSizes, OpsFit, CountBits;
    var cl, ntot := PlanCode(plan), plan.hlit + plan.hdist;
    var ops := OpsBits(cl, ntot, [], plan.ops);
    var bits := PlanBits(plan) + rest;
    var behind := SentBits(plan.sent) + (ops + rest);
    assert bits == CountBits(plan) + behind;
    CountsUndone(plan, behind);
    SentUndone(plan.sent, CountBits(plan), ops + rest);
    assert bits == CountBits(plan) + SentBits(plan.sent) + (ops + rest);
    var from := 14 + 3 * |plan.sent|;
    assert bits[from..] == ops + rest;
    OpsUndone(cl, ntot, [], plan.ops, rest);
    assert LengthsFrom(bits, 14, |plan.sent|, ntot) == Lengths(PlanLengths(plan), rest);
  }
}
