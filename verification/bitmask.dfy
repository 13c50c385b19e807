/** Masks on unsigned words: what `x & ~(a - 1)` and `x & (x - 1)` compute. */
module BitMask {
  function Pow2(k: nat): (p: nat)
    ensures p > 0
  {
    if k == 0 then 1 else 2 * Pow2(k - 1)
  }

  /** Bitwise conjunction. */
  function And(x: nat, y: nat): nat {
    if x == 0 || y == 0 then 0
    else 2 * And(x / 2, y / 2) + if x % 2 == 1 && y % 2 == 1 then 1 else 0
  }

  lemma {:induction false} AndOnes(x: nat, width: nat)
    requires x < Pow2(width)
    ensures And(x, Pow2(width) - 1) == x
  {
    if x > 0 {
      AndOnes(x / 2, width - 1);
      assert (Pow2(width) - 1) / 2 == Pow2(width - 1) - 1;
    }
  }

  lemma ModHalves(x: nat, m: nat)
    requires m > 0
    ensures x % (2 * m) == 2 * ((x / 2) % m) + x % 2
  {
    var q, r := (x / 2) / m, (x / 2) % m;
    assert x == q * (2 * m) + (2 * r + x % 2);
    ModUnique(x, 2 * m, q, 2 * r + x % 2);
  }

  lemma ModUnique(x: nat, m: nat, q: nat, r: nat)
    requires m > 0 && x == q * m + r && r < m
    ensures x % m == r
  {
    var d := x / m;
    assert d > q ==> d * m >= (q + 1) * m;
    assert d < q ==> d * m <= (q - 1) * m;
  }

  /** Masking with the complement of `2^k - 1` clears the low `k` bits. */
  lemma {:induction false} AndMask(x: nat, width: nat, k: nat)
    requires k <= width && x < Pow2(width)
    ensures Pow2(k) <= Pow2(width) && And(x, Pow2(width) - Pow2(k)) == x - x % Pow2(k)
  {
    if k == 0 {
      AndOnes(x, width);
    } else {
      AndMask(x / 2, width - 1, k - 1);
      ModHalves(x, Pow2(k - 1));
      assert (Pow2(width) - Pow2(k)) / 2 == Pow2(width - 1) - Pow2(k - 1);
    }
  }

  lemma {:induction false} AndSelf(x: nat)
    ensures And(x, x) == x
  {
    if x > 0 { AndSelf(x / 2); }
  }

  ghost predicate IsPowerOfTwo(x: nat) { exists k: nat :: x == Pow2(k) }

  /** The classic test: a positive number is a power of two just when it shares no bit with its
      predecessor. */
  lemma {:induction false} PowerOfTwoTest(x: nat)
    requires x > 0
    ensures And(x, x - 1) == 0 <==> IsPowerOfTwo(x)
  {
    if x == 1 {
      assert x == Pow2(0);
    } else if x % 2 == 1 {
      AndSelf(x / 2);
    } else {
      PowerOfTwoTest(x / 2);
      assert (x - 1) / 2 == x / 2 - 1;
      if IsPowerOfTwo(x / 2) {
        var k: nat :| x / 2 == Pow2(k);
        assert x == Pow2(k + 1);
      }
      if IsPowerOfTwo(x) {
        var k: nat :| x == Pow2(k);
        assert x / 2 == Pow2(k - 1);
      }
    }
  }
}
