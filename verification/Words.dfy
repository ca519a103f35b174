/** Powers of two and 64-bit words, as the allocator's bit tricks need them. */
module Words {
  const WORD: nat := 0x1_0000_0000_0000_0000
  const HALF: nat := 0x8000_0000_0000_0000

  /** 2 to the power k. */
  function P(k: nat): (r: nat)
    ensures r >= 1
  {
    if k == 0 then 1 else 2 * P(k - 1)
  }

  lemma {:induction false} PAdd(a: nat, b: nat)
    ensures P(a + b) == P(a) * P(b)
  {
    if a != 0 {
      PAdd(a - 1, b);
    }
  }

  lemma {:induction false} PMono(a: nat, b: nat)
    requires a <= b
    ensures P(a) <= P(b)
  {
    if a < b {
      PMono(a, b - 1);
    }
  }

  lemma PValues()
    ensures P(8) == 0x100 && P(16) == 0x1_0000 && P(24) == 0x100_0000 && P(32) == 0x1_0000_0000
    ensures P(40) == 0x100_0000_0000 && P(63) == HALF && P(64) == WORD
  {
    assert P(8) == 0x100 by {
      assert P(4) == 16;
      PAdd(4, 4);
    }
    PAdd(8, 8);
    PAdd(16, 8);
    PAdd(16, 16);
    PAdd(32, 8);
    PAdd(32, 32);
  }
}
