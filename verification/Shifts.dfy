/**
  Shifts of nonnegative numbers, as doubling and halving: block numbers and the rows they stand for.
 */
module Shifts {

  /** b << n. */
  function Shl(b: nat, n: nat): (r: nat)
    ensures r >= b
    decreases n
  {
    if n == 0 then b else Shl(2 * b, n - 1)
  }

  lemma {:induction false} ShlGrows(a: nat, b: nat, n: nat)
    requires a <= b
    ensures Shl(a, n) <= Shl(b, n)
    decreases n
  {
    if n > 0 {
      ShlGrows(2 * a, 2 * b, n - 1);
    }
  }

  lemma {:induction false} ShlTwice(a: nat, m: nat, n: nat)
    ensures Shl(Shl(a, m), n) == Shl(a, m + n)
    decreases m
  {
    if m > 0 {
      ShlTwice(2 * a, m - 1, n);
    }
  }

  /** The blocks d levels below a block. */
  predicate Below(block: nat, d: nat, k: nat) {
    Shl(block, d) <= k < Shl(block + 1, d)
  }

  lemma {:induction false} BelowSplit(block: nat, d: nat, k: nat)
    requires d > 0
    ensures Below(block, d, k) <==> Below(2 * block, d - 1, k) || Below(2 * block + 1, d - 1, k)
  {
    ShlGrows(2 * block, 2 * block + 1, d - 1);
    ShlGrows(2 * block + 1, 2 * block + 2, d - 1);
  }

  lemma {:induction false} InBelow(block: nat, d: nat, k: nat)
    ensures Below(block, d, k) <==> Shl(block, d) <= k < Shl(block + 1, d)
  {
  }

  lemma {:induction false} BelowSelf(block: nat, k: nat)
    ensures Below(block, 0, k) <==> k == block
  {
  }

  lemma {:induction false} DoubleLast(n: nat)
    requires n > 0
    ensures Shl(1, n) == 2 * Shl(1, n - 1)
  {
    ShlTwice(1, n - 1, 1);
  }

  lemma {:induction false} ShlStrict(b: nat, n: nat)
    ensures Shl(b, n) < Shl(b + 1, n)
    decreases n
  {
    if n > 0 {
      ShlStrict(2 * b, n - 1);
      ShlStrict(2 * b + 1, n - 1);
    }
  }

  lemma {:induction false} ShlZero(n: nat)
    ensures Shl(0, n) == 0
  {
    if n > 0 {
      ShlZero(n - 1);
    }
  }

  /** k >> d. */
  function Above(k: nat, d: nat): nat {
    if d == 0 then k else Above(k / 2, d - 1)
  }

  lemma {:induction false} AboveBelow(k: nat, d: nat)
    ensures Below(Above(k, d), d, k)
    decreases d
  {
    if d > 0 {
      AboveBelow(k / 2, d - 1);
      BelowHalf(Above(k, d), d, k);
    }
  }

  lemma {:induction false} BelowHalf(block: nat, d: nat, k: nat)
    requires d > 0 && Below(block, d - 1, k / 2)
    ensures Below(block, d, k)
  {
    ShlTwice(block, d - 1, 1);
    ShlTwice(block + 1, d - 1, 1);
  }

  lemma {:induction false} ShlSum(a: nat, b: nat, n: nat)
    ensures Shl(a + b, n) == Shl(a, n) + Shl(b, n)
    decreases n
  {
    if n > 0 {
      ShlSum(2 * a, 2 * b, n - 1);
    }
  }

  lemma {:induction false} ShlProduct(a: nat, b: nat, n: nat)
    ensures Shl(a, n) * b == a * Shl(b, n)
    decreases n
  {
    if n > 0 {
      ShlProduct(2 * a, b, n - 1);
      ShlTwice(b, n - 1, 1);
      assert 2 * a * Shl(b, n - 1) == a * (2 * Shl(b, n - 1));
    }
  }

  lemma {:induction false} AboveIs(block: nat, d: nat, k: nat)
    requires Below(block, d, k)
    ensures Above(k, d) == block
  {
    AboveBelow(k, d);
    var a := Above(k, d);
    hide Shl;
    if a < block {
      ShlGrows(a + 1, block, d);
    }
    if block < a {
      ShlGrows(block + 1, a, d);
    }
  }

  lemma {:induction false} MoreShift(m: nat, n: nat)
    requires m <= n
    ensures Shl(1, m) <= Shl(1, n)
    decreases n
  {
    if m < n {
      MoreShift(m, n - 1);
      DoubleLast(n);
    }
  }

  lemma {:induction false} ThirtyTwo()
    ensures Shl(1, 32) == 0x1_0000_0000
  {
    assert Shl(1, 4) == 0x10 && Shl(0x10, 4) == 0x100;
    ShlTwice(1, 4, 4);
    assert Shl(0x100, 4) == 0x1000 && Shl(0x1000, 4) == 0x1_0000;
    ShlTwice(0x100, 4, 4);
    ShlTwice(1, 8, 8);
    assert Shl(0x1_0000, 4) == 0x10_0000 && Shl(0x10_0000, 4) == 0x100_0000;
    ShlTwice(0x1_0000, 4, 4);
    ShlTwice(1, 16, 8);
    assert Shl(0x100_0000, 4) == 0x1000_0000 && Shl(0x1000_0000, 4) == 0x1_0000_0000;
    ShlTwice(0x100_0000, 4, 4);
    ShlTwice(1, 24, 8);
  }

  lemma {:induction false} ShlLess(a: nat, b: nat, n: nat)
    requires a < b
    ensures Shl(a, n) < Shl(b, n)
  {
    ShlStrict(a, n);
    ShlGrows(a + 1, b, n);
  }
}
