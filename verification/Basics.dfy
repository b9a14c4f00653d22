// Types shared by every part of the model: optional values, results, digests and the two
// logarithmic functions the proof-size bounds are stated with.
module Basics {

  datatype Option<+T> = None | Some(value: T)

  datatype Result<+T, +E> = Ok(value: T) | Err(error: E)

  type Bytes = seq<bv8>

  /** A digest: the bytes its hex text stands for, or the text itself where the repository hashes the
      text. What comes from outside may have any length. */
  datatype Digest = Digest(bytes: Bytes)

  function Pow2(e: nat): (p: nat)
    ensures p >= 1
  {
    if e == 0 then 1 else 2 * Pow2(e - 1)
  }

  /** The number of levels above the leaves of a tree with n leaves. */
  function CeilLog2(n: nat): nat {
    if n <= 1 then 0 else 1 + CeilLog2((n + 1) / 2)
  }

  /** CeilLog2 is the least exponent whose power of two reaches n. */
  lemma {:induction false} CeilLog2IsLeast(n: nat)
    requires n > 0
    ensures n <= Pow2(CeilLog2(n))
    ensures CeilLog2(n) > 0 ==> Pow2(CeilLog2(n) - 1) < n
  {
    if n > 1 {
      CeilLog2IsLeast((n + 1) / 2);
    }
  }

  lemma {:induction false} CeilLog2Monotone(m: nat, n: nat)
    requires m <= n
    ensures CeilLog2(m) <= CeilLog2(n)
  {
    if m > 1 {
      CeilLog2Monotone((m + 1) / 2, (n + 1) / 2);
    }
  }

  lemma {:induction false} Pow2Monotone(d: nat, e: nat)
    requires d <= e
    ensures Pow2(d) <= Pow2(e)
  {
    if d < e {
      Pow2Monotone(d, e - 1);
    }
  }

  /** No smaller exponent will do, so a bound by CeilLog2 is a bound by every power of two that
      reaches n. */
  lemma {:induction false} CeilLog2Reaches(n: nat, e: nat)
    requires n <= Pow2(e)
    ensures CeilLog2(n) <= e
  {
    if CeilLog2(n) > e {
      CeilLog2IsLeast(n);
      Pow2Monotone(e, CeilLog2(n) - 1);
    }
  }
}
