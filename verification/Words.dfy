/** Machine words and the base-128 arithmetic that indexes the block tree. */
module Words {
  datatype Option<+T> = None | Some(value: T)

  const WORD: nat := 0x1_0000_0000

  /** An `unsigned int` of the 32-bit target. */
  type Word = x: int | 0 <= x < WORD

  /** The value a 32-bit word has once it is returned through an `int`. */
  function AsInt(x: Word): (r: int)
    ensures -0x8000_0000 <= r < 0x8000_0000
    ensures (r - x) % WORD == 0
  {
    if x < 0x8000_0000 then x else x - WORD
  }

  /** A function with one value replaced. */
  function At<T>(f: int -> T, k: int, v: T): (f': int -> T)
    ensures f'(k) == v && forall q: int :: q != k ==> f'(q) == f(q)
  {
    (q: int) => if q == k then v else f(q)
  }

  lemma DivModUnique(a: nat, b: nat, q: nat, r: nat)
    requires r < b && a == b * q + r
    ensures a / b == q && a % b == r
  {
    var q', r' := a / b, a % b;
    assert a == b * q' + r';
    if q' < q {
      MulMonotone(b, q' + 1, q);
    } else if q < q' {
      MulMonotone(b, q + 1, q');
    }
  }

  lemma MulMonotone(a: nat, x: nat, y: nat)
    requires x <= y
    ensures a * x <= a * y
  {
  }
}

/** Sizes and addresses of the memory layout that several parts share. */
module Layout {
  import opened Words

  const PAGE_SIZE: nat := 4096
  const APPS_ENTRY: Word := 0x0800_5000
  const APPS_ARG: Word := 0x8000_0000
  const SYSCALL_ARG: Word := 0x8000_0400
  const CMD_NARGS: nat := 16
  const CMD_ARG_LEN: nat := 32
}

/** Positions in a tree whose indirect blocks hold R references: an offset is a base-R numeral. */
module Radix {
  import opened Words

  /** REFS_PER_BLOCK: 512-byte blocks of 4-byte block numbers. */
  const R: nat := 128

  function Pow(k: nat): (p: nat)
    ensures p > 0
  {
    if k == 0 then 1 else R * Pow(k - 1)
  }

  function Pow2(n: nat): (p: nat)
    ensures p > 0
  {
    if n == 0 then 1 else 2 * Pow2(n - 1)
  }

  /** The reference index of `x` in an indirect block at height `j + 1`. */
  function Digit(x: nat, j: nat): (i: nat)
    ensures i < R
  {
    (x / Pow(j)) % R
  }

  lemma {:induction false} PowMonotone(i: nat, j: nat)
    requires i <= j
    ensures Pow(i) <= Pow(j)
  {
    if i < j {
      PowMonotone(i, j - 1);
    }
  }

  /** Splitting off the most significant digit. */
  lemma ModStep(x: nat, k: nat)
    ensures x % Pow(k + 1) == Digit(x, k) * Pow(k) + x % Pow(k)
  {
    var p := Pow(k);
    var q, r := x / p, x % p;
    var q1, e := q / R, q % R;
    assert e * p + r < R * p by {
      MulMonotone(p, e + 1, R);
      assert p * (e + 1) == e * p + p;
    }
    assert x == (R * p) * q1 + (e * p + r) by {
      assert x == p * q + r;
      assert p * q == p * (R * q1 + e) == (R * p) * q1 + e * p;
    }
    DivModUnique(x, R * p, q1, e * p + r);
  }

  lemma SameDigits(x: nat, y: nat, k: nat)
    ensures x % Pow(k + 1) == y % Pow(k + 1) <==> Digit(x, k) == Digit(y, k) && x % Pow(k) == y % Pow(k)
  {
    var p := Pow(k);
    ModStep(x, k);
    ModStep(y, k);
    assert Digit(x, k) * p == p * Digit(x, k) && Digit(y, k) * p == p * Digit(y, k);
    DivModUnique(p * Digit(x, k) + x % p, p, Digit(x, k), x % p);
    DivModUnique(p * Digit(y, k) + y % p, p, Digit(y, k), y % p);
  }

  lemma DigitOfSmall(x: nat, k: nat)
    requires x < Pow(k)
    ensures Digit(x, k) == 0
  {
    DivModUnique(x, Pow(k), 0, x);
  }

  /** The top digit of a numeral that needs all its k + 1 digits is not zero. */
  lemma DigitOfLarge(x: nat, k: nat)
    requires Pow(k) <= x < Pow(k + 1)
    ensures Digit(x, k) != 0
  {
    ModStep(x, k);
    DivModUnique(x, Pow(k + 1), 0, x);
  }

  /** The number of base-R digits of `x`: how many tree levels lie above block `x` of a file. */
  function Levels(x: nat): (k: nat)
    ensures x < Pow(k)
    ensures k > 0 ==> Pow(k - 1) <= x
  {
    if x == 0 then 0 else
      var k := 1 + Levels(x / R);
      assert x / R < Pow(k - 1);
      assert k > 1 ==> Pow(k - 1) == R * Pow(k - 2);
      k
  }

  lemma LevelsLeast(x: nat, k: nat)
    ensures x < Pow(k) <==> Levels(x) <= k
  {
  }

  lemma LevelsMonotone(x: nat, y: nat)
    requires x <= y
    ensures Levels(x) <= Levels(y)
  {
  }

  /** No 32-bit offset needs a sixth level: 128^5 is 2^35. */
  lemma WordLevels(x: Word)
    ensures Levels(x) <= 5
  {
  }
}
