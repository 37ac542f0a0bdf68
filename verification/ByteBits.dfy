/** The single bits of a byte. */
module ByteBits {

  function Mask(k: nat): bv8
    requires k < 8
  {
    1 << k
  }

  predicate BitAt(b: bv8, k: nat)
    requires k < 8
  {
    b & Mask(k) != 0
  }

  lemma MaskIs(k: nat)
    requires k < 8
    ensures Mask(k) == [1, 2, 4, 8, 16, 32, 64, 128][k]
  {
  }

  lemma OrBit(b: bv8, k: nat, j: nat)
    requires k < 8 && j < 8
    ensures BitAt(b | Mask(k), j) <==> BitAt(b, j) || j == k
    ensures !BitAt(0, j) && BitAt(0xFF, j)
  {
    MaskIs(k);
    MaskIs(j);
  }

  lemma AndNotBit(b: bv8, k: nat, j: nat)
    requires k < 8 && j < 8
    ensures BitAt(b & !Mask(k), j) <==> BitAt(b, j) && j != k
  {
    MaskIs(k);
    MaskIs(j);
  }
}
