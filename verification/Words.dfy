/** Machine words: the sizes the source's counters wrap or saturate at, and powers of two. */
module Words {

  const U32: nat := 0x1_0000_0000
  const U64_MAX: nat := 0xFFFF_FFFF_FFFF_FFFF

  function Pow2(n: nat): (p: nat)
    ensures p >= 1
  {
    if n == 0 then 1 else 2 * Pow2(n - 1)
  }

  lemma {:induction false} Pow2Sum(m: nat, n: nat)
    ensures Pow2(m + n) == Pow2(m) * Pow2(n)
  {
    if m > 0 {
      Pow2Sum(m - 1, n);
    }
  }

  lemma {:induction false} Pow2Increases(m: nat, n: nat)
    ensures m < n ==> Pow2(m) < Pow2(n)
    ensures m <= n ==> Pow2(m) <= Pow2(n)
  {
    if m < n {
      Pow2Increases(m, n - 1);
    }
  }

  lemma Pow2Word()
    ensures Pow2(32) == U32
  {
    assert Pow2(8) == 256;
    Pow2Sum(8, 8);
    Pow2Sum(16, 16);
  }

  lemma Pow2DoubleWord()
    ensures Pow2(64) == U64_MAX + 1 && Pow2(63) <= U64_MAX / 2 + 1
  {
    Pow2Word();
    Pow2Sum(32, 32);
  }

  /** `2_u32.pow(n)` in wrapping arithmetic: exact below 32, zero from there on. */
  lemma Pow2Wraps(n: nat)
    ensures Pow2(n) % U32 == if n < 32 then Pow2(n) else 0
  {
    Pow2Word();
    if n < 32 {
      Pow2Increases(n, 32);
    } else {
      Pow2Sum(n - 32, 32);
      MultipleOfWord(Pow2(n - 32));
    }
  }

  lemma MultipleOfWord(k: nat)
    ensures (k * U32) % U32 == 0
  {
  }
}
