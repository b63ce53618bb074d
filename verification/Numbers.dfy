/** Arithmetic shared by the models. */
module Numbers {

  /** A floating-point value where the program tests for finiteness; finite ones are exact. */
  datatype Num = Finite(r: real) | NonFinite

  function Abs(r: real): real { if r < 0.0 then -r else r }
  function Min(a: real, b: real): real { if a <= b then a else b }
  function Max(a: real, b: real): real { if a >= b then a else b }
  function MinNat(a: nat, b: nat): nat { if a <= b then a else b }

  const UINT64: int := 0x1_0000_0000_0000_0000

  /** Unsigned 64-bit arithmetic, written out. */
  function Wrap64(i: int): (r: nat)
    ensures r < UINT64
  {
    i % UINT64
  }

  lemma MulLe(a: int, b: int, c: int)
    requires a <= b && c >= 0
    ensures a * c <= b * c
  {
    assert (b - a) * c >= 0;
  }
}
