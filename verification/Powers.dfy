/** Powers of two and left shifts, as the back-off and HPACK integers use them. */
module Powers {

  function Pow2(n: nat): (p: nat)
    ensures p >= 1
  {
    if n == 0 then 1 else 2 * Pow2(n - 1)
  }

  /** `v << shift`. */
  function Shl(v: nat, shift: nat): nat {
    if shift == 0 then v else 2 * Shl(v, shift - 1)
  }

  lemma {:induction false} ShlAdds(a: nat, b: nat, shift: nat)
    ensures Shl(a + b, shift) == Shl(a, shift) + Shl(b, shift)
  {
    if shift > 0 {
      ShlAdds(a, b, shift - 1);
    }
  }

  lemma {:induction false} ShlMoves(v: nat, shift: nat)
    ensures Shl(2 * v, shift) == Shl(v, shift + 1)
  {
    if shift > 0 {
      ShlMoves(v, shift - 1);
    }
  }

  lemma ShlBy7(v: nat, shift: nat)
    ensures Shl(0x80 * v, shift) == Shl(v, shift + 7)
  {
    ShlMoves(v, shift + 6);
    ShlMoves(2 * v, shift + 5);
    ShlMoves(4 * v, shift + 4);
    ShlMoves(8 * v, shift + 3);
    ShlMoves(0x10 * v, shift + 2);
    ShlMoves(0x20 * v, shift + 1);
    ShlMoves(0x40 * v, shift);
  }
}
