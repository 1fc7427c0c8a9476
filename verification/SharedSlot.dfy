/** A slot of shared memory that one writer fills: a generation counter and a body of pieces. */
module SharedSlot {

  type Body = seq<int>

  /** A slot of the shared table. */
  datatype Slot = Slot(generation: nat, body: Body)

  function Pieces(n: nat): (s: set<nat>)
    ensures forall k: nat :: k in s <==> k < n
  {
    if n == 0 then {} else Pieces(n - 1) + {n - 1}
  }

  function ZeroBody(n: nat): (b: Body)
    ensures |b| == n
  {
    seq(n, (k: nat) => 0)
  }
}
