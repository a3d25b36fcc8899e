/** The 256-bit value type of the ledger: 32 bytes, added byte by byte with wrap-around at 256. */
module Uint256 {

  const WIDTH := 32

  type Byte = b: int | 0 <= b < 256
  type Hash = s: seq<Byte> | |s| == WIDTH witness seq(WIDTH, _ => 0)

  function Zero(): Hash { seq(WIDTH, _ => 0) }

  function PlusByte(a: Byte, b: Byte): Byte { (a + b) % 256 }

  /** Each byte is summed on its own: a carry out of one byte is dropped, not passed on. */
  function Plus(a: Hash, b: Hash): (r: Hash)
  {
    seq(WIDTH, i requires 0 <= i < WIDTH => PlusByte(a[i], b[i]))
  }

  /** The two operands of `operator+` may be exchanged. */
  lemma PlusCommutes(a: Hash, b: Hash)
    ensures Plus(a, b) == Plus(b, a)
  {
    assert forall i | 0 <= i < WIDTH :: Plus(a, b)[i] == Plus(b, a)[i];
  }

  /** A byte of the sum is the sum of the two bytes, or 256 less. */
  lemma PlusBytes(a: Hash, b: Hash, i: nat)
    requires i < WIDTH
    ensures var r, sum := Plus(a, b)[i] as int, a[i] as int + b[i] as int; sum == r || sum == r + 256
  {
  }

  lemma PlusZero(a: Hash)
    ensures Plus(a, Zero()) == a
  {
    assert forall i | 0 <= i < WIDTH :: Plus(a, Zero())[i] == a[i];
  }

  lemma PlusAssociates(a: Hash, b: Hash, c: Hash)
    ensures Plus(Plus(a, b), c) == Plus(a, Plus(b, c))
  {
    forall i | 0 <= i < WIDTH
      ensures Plus(Plus(a, b), c)[i] == Plus(a, Plus(b, c))[i]
    {
      BytesAssociate(a[i], b[i], c[i]);
    }
  }

  lemma BytesAssociate(a: Byte, b: Byte, c: Byte)
    ensures PlusByte(PlusByte(a, b), c) == PlusByte(a, PlusByte(b, c))
  {
  }

  /** An operand is determined by the other one and the sum. */
  lemma PlusCancels(a: Hash, b: Hash, c: Hash)
    requires Plus(a, b) == Plus(a, c)
    ensures b == c
  {
    forall i | 0 <= i < WIDTH
      ensures b[i] == c[i]
    {
      assert Plus(a, b)[i] == Plus(a, c)[i];
    }
  }
}
