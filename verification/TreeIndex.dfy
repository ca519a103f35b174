/** Which tree bin a size belongs to, and the bit path a size takes inside its bin
    (lj_alloc.c:533-558, 647-680). */
module TreeIndex {
  import opened Words

  const NTREEBINS: nat := 32

  /** Position of the highest set bit. */
  function Fls(x: nat): (k: nat)
    requires x > 0
    ensures P(k) <= x < P(k + 1)
  {
    if x == 1 then 0 else Fls(x / 2) + 1
  }

  /** The 32-bit value that compute_tree_index looks at: the size shifted right by 8
      and truncated to an unsigned int. */
  function Truncated(s: nat): nat {
    (s / 0x100) % 0x1_0000_0000
  }

  function IndexOf(s: nat): nat {
    var x := Truncated(s);
    if x == 0 then 0
    else if x > 0xFFFF then NTREEBINS - 1
    else 2 * Fls(x) + (s / P(Fls(x) + 7)) % 2
  }

  function MinSize(i: nat): nat {
    P(i / 2 + 8) + (if i % 2 == 1 then P(i / 2 + 7) else 0)
  }

  /** Bin i holds sizes from BinLo(i) up to BinLo(i) + 2^BinBits(i); only the last
      bin is open-ended, and its trie uses all 64 bits of the size. */
  function BinLo(i: nat): nat {
    if i == NTREEBINS - 1 then 0 else MinSize(i)
  }

  function BinBits(i: nat): nat {
    if i == NTREEBINS - 1 then 64 else i / 2 + 7
  }

  ghost predicate Bracketed(s: nat, i: nat) {
    i < NTREEBINS && MinSize(i) <= s && (i < NTREEBINS - 1 ==> s < MinSize(i + 1))
  }

  lemma MinSizeStep(i: nat)
    ensures MinSize(i + 1) == MinSize(i) + P(i / 2 + 7)
  {
    assert P(i / 2 + 8) == 2 * P(i / 2 + 7);
    if i % 2 == 0 {
      assert (i + 1) / 2 == i / 2;
    } else {
      assert (i + 1) / 2 == i / 2 + 1;
    }
  }

  lemma {:induction false} MinSizeMono(i: nat, j: nat)
    requires i <= j
    ensures MinSize(i) <= MinSize(j)
  {
    if i < j {
      MinSizeMono(i, j - 1);
      MinSizeStep(j - 1);
    }
  }

  /** Sizes of the truncated value's octave: with k = Fls(x), the size lies between
      2^(k+8) and 2^(k+9), and the next lower bit says in which half. */
  lemma Octave(s: nat)
    requires 0x100 <= s < 0x100_0000_0000
    ensures var k := Fls(s / 0x100);
            Truncated(s) == s / 0x100 > 0 && P(k + 8) <= s < P(k + 9)
            && (s / P(k + 7) == 2 || s / P(k + 7) == 3)
            && ((s / P(k + 7)) % 2 == 1 <==> s >= P(k + 8) + P(k + 7))
  {
    var x := s / 0x100;
    var k := Fls(x);
    PValues();
    PAdd(k, 8);
    PAdd(k + 1, 8);
    var a := P(k + 7);
    assert P(k + 8) == 2 * a && P(k + 9) == 4 * a;
    DivBetween(s, a);
  }

  lemma DivBetween(s: nat, a: nat)
    requires a > 0 && 2 * a <= s < 4 * a
    ensures s / a == if s < 3 * a then 2 else 3
  {
    if s < 3 * a {
      assert s == 2 * a + (s - 2 * a);
      DivIs(s, a, 2);
    } else {
      DivIs(s, a, 3);
    }
  }

  lemma DivIs(s: nat, a: nat, q: nat)
    requires a > 0 && q * a <= s < (q + 1) * a
    ensures s / a == q
  {
    var d := s / a;
    if d < q {
      MulMono(d + 1, q, a);
    } else if d > q {
      MulMono(q + 1, d, a);
    }
  }

  lemma MulMono(x: nat, y: nat, a: nat)
    requires x <= y
    ensures x * a <= y * a
  {
  }

  lemma FlsMax(x: nat)
    requires 0 < x <= 0xFFFF
    ensures Fls(x) <= 15
  {
    PValues();
    if Fls(x) >= 16 {
      PMono(16, Fls(x));
    }
  }

  /** For every size below 2^40 the index brackets the size. */
  lemma IndexBrackets(s: nat)
    requires 0x100 <= s < 0x100_0000_0000
    ensures Bracketed(s, IndexOf(s))
  {
    Octave(s);
    if s / 0x100 > 0xFFFF {
      LastBinSize();
    } else {
      FlsMax(s / 0x100);
      var k := Fls(s / 0x100);
      SmallIndex(s, k, (s / P(k + 7)) % 2);
    }
  }

  lemma SmallIndex(s: nat, k: nat, b: nat)
    requires k <= 15 && s < 0x100_0000
    requires P(k + 8) <= s < P(k + 9) && b < 2 && (b == 1 <==> s >= P(k + 8) + P(k + 7))
    ensures Bracketed(s, 2 * k + b)
  {
    hide P, MinSize;
    Halves(s, k, b);
    MinSizeStep(2 * k + b);
  }

  lemma Halves(s: nat, k: nat, b: nat)
    requires P(k + 8) <= s < P(k + 9) && b < 2 && (b == 1 <==> s >= P(k + 8) + P(k + 7))
    ensures (2 * k + b) / 2 == k && MinSize(2 * k + b) <= s < MinSize(2 * k + b) + P(k + 7)
  {
    assert P(k + 9) == 2 * P(k + 8) && P(k + 8) == 2 * P(k + 7);
    HalfOf(k, b);
  }

  lemma HalfOf(k: nat, b: nat)
    requires b < 2
    ensures (2 * k + b) / 2 == k && (2 * k + b) % 2 == b
  {
  }

  lemma LastBinSize()
    ensures MinSize(31) == 0xC0_0000
  {
    PValues();
    assert P(24) == 2 * P(23) && P(23) == 2 * P(22);
  }

  /** The smallest size whose index is wrong: bin 0 is for sizes below 0x180. */
  lemma LargeSizeMisfiled()
    ensures var s := 0x100_0000_0000;
      IndexOf(s) == 0 && !Bracketed(s, 0) && (forall r: nat :: 0x100 <= r < s ==> Bracketed(r, IndexOf(r)))
  {
    PValues();
    forall r: nat | 0x100 <= r < 0x100_0000_0000 ensures Bracketed(r, IndexOf(r)) { IndexBrackets(r); }
  }

  /** From 2^40 on the truncation loses bits, and then the index is right exactly when
      what is left of the size selects the last, open-ended bin. */
  lemma IndexBracketsExactly(s: nat)
    requires 0x100 <= s < WORD
    ensures Bracketed(s, IndexOf(s)) <==> s < 0x100_0000_0000 || Truncated(s) >= 0xC000
  {
    if s < 0x100_0000_0000 {
      IndexBrackets(s);
    } else {
      PValues();
      LastBin(s);
      LastBinSize();
      if IndexOf(s) != 31 {
        IndexInRange(s);
        MinSizeMono(IndexOf(s) + 1, 31);
      }
    }
  }

  lemma IndexInRange(s: nat)
    ensures IndexOf(s) < NTREEBINS
  {
    var x := Truncated(s);
    if 0 < x <= 0xFFFF {
      FlsMax(x);
    }
  }

  /** The last bin is selected by the truncated values from 0xC000 on. */
  lemma LastBin(s: nat)
    ensures IndexOf(s) == 31 <==> Truncated(s) >= 0xC000
  {
    var x := Truncated(s);
    if 0 < x <= 0xFFFF {
      FlsMax(x);
      var k := Fls(x);
      PValues();
      assert P(15) == 0x8000 by { assert P(16) == 2 * P(15); }
      assert P(14) == 0x4000 by { assert P(15) == 2 * P(14); }
      assert P(22) == 0x40_0000 by { assert P(24) == 2 * P(23) && P(23) == 2 * P(22); }
      if k < 15 {
        PMono(k + 1, 15);
        assert 2 * k + (s / P(k + 7)) % 2 < 31;
      } else {
        assert k == 15;
        BitFourteen(s);
      }
    }
  }

  lemma BitFourteen(s: nat)
    requires 0x8000 <= Truncated(s) <= 0xFFFF
    ensures (s / 0x40_0000) % 2 == 1 <==> Truncated(s) >= 0xC000
  {
    var y := s / 0x100;
    assert s / 0x40_0000 == y / 0x4000;
    var q, x := y / 0x1_0000_0000, y % 0x1_0000_0000;
    assert y == q * 0x1_0000_0000 + x;
    assert y / 0x4000 == q * 0x4_0000 + x / 0x4000;
    assert x / 0x4000 == 2 || x / 0x4000 == 3;
  }

  // ----- the bit path

  /** The word that starts the walk: the size shifted so that the highest bit that
      sizes of bin i can differ in becomes the sign bit. */
  function StartWord(s: nat, i: nat): nat
    requires i < NTREEBINS
  {
    (s * P(64 - BinBits(i))) % WORD
  }

  /** The word belongs to the walk for size s at a subtree over lo .. lo + 2^k. */
  ghost predicate OnPath(word: nat, s: nat, lo: nat, k: nat) {
    k <= 64 && lo <= s < lo + P(k) && word == (s - lo) * P(64 - k)
  }

  lemma OnPathRange(word: nat, s: nat, lo: nat, k: nat)
    requires OnPath(word, s, lo, k)
    ensures lo <= s < lo + P(k)
  {
  }

  lemma PathStart(s: nat, i: nat)
    requires Bracketed(s, i) && s < WORD
    ensures OnPath(StartWord(s, i), s, BinLo(i), BinBits(i))
  {
    if i < NTREEBINS - 1 {
      MinSizeStep(i);
      MinSizeMultiple(i);
      PathStartAt(s, MinSize(i), BinBits(i), if i % 2 == 1 then 3 else 2);
    } else {
      PValues();
      assert P(0) == 1;
    }
  }

  lemma PathStartAt(s: nat, lo: nat, k: nat, c: nat)
    requires k <= 64 && lo == c * P(k) && lo <= s < lo + P(k)
    ensures OnPath((s * P(64 - k)) % WORD, s, lo, k)
  {
    PValues();
    PAdd(k, 64 - k);
    ShiftOut(s, c, P(k), P(64 - k));
  }

  lemma MinSizeMultiple(i: nat)
    ensures MinSize(i) == (if i % 2 == 1 then 3 else 2) * P(i / 2 + 7)
  {
    assert P(i / 2 + 8) == 2 * P(i / 2 + 7);
  }

  lemma ShiftOut(s: nat, c: nat, p: nat, m: nat)
    requires p * m == WORD && c * p <= s < c * p + p
    ensures (s * m) % WORD == (s - c * p) * m
  {
    var d := s - c * p;
    calc {
      s * m;
      (d + c * p) * m;
      d * m + (c * p) * m;
      { assert (c * p) * m == c * (p * m); }
      d * m + c * WORD;
    }
    MulLess(d, p, m);
    ModOf(d * m, c);
  }

  lemma MulLess(d: nat, p: nat, m: nat)
    requires d < p && m > 0
    ensures d * m < p * m
  {
  }

  lemma ModOf(a: nat, c: nat)
    requires a < WORD
    ensures (a + c * WORD) % WORD == a
  {
    DivIs(a + c * WORD, WORD, c);
  }

  /** The sign bit of the word says which half of the range the size is in, and the
      word shifted left by one belongs to that half. */
  lemma PathStep(word: nat, s: nat, lo: nat, k: nat)
    requires OnPath(word, s, lo, k) && k > 0
    ensures word < WORD && (word / HALF) % 2 == (if s < lo + P(k - 1) then 0 else 1)
    ensures var lo' := if s < lo + P(k - 1) then lo else lo + P(k - 1);
            OnPath((word * 2) % WORD, s, lo', k - 1)
  {
    PValues();
    var m, h := P(64 - k), P(k - 1);
    PAdd(k - 1, 64 - k);
    assert h * m == P(63);
    assert P(65 - k) == 2 * m && P(k) == 2 * h;
    HalfStep(s - lo, m, h);
  }

  lemma HalfStep(d: nat, m: nat, h: nat)
    requires h * m == HALF && d < 2 * h && m > 0
    ensures d * m < WORD && ((d * m) / HALF) % 2 == (if d < h then 0 else 1)
    ensures ((d * m) * 2) % WORD == (if d < h then d * (2 * m) else (d - h) * (2 * m))
  {
    assert d * (2 * m) == (d * m) * 2;
    if d < h {
      MulLess(d, h, m);
    } else {
      MulLess(d - h, h, m);
      assert d * m == (d - h) * m + HALF;
      DivIs(d * m, HALF, 1);
      assert (d - h) * (2 * m) == ((d - h) * m) * 2;
      ModOf((d - h) * (2 * m), 1);
    }
  }
}
