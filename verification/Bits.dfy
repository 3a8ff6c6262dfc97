/** Powers of two, alignment, and the bitwise operators the allocator applies to page numbers. */
module Bits {
  import opened Basics

  function Pow2(n: nat): (r: nat)
    ensures r > 0
  {
    if n == 0 then 1 else 2 * Pow2(n - 1)
  }

  /** The n lowest bits of a are zero; AlignedIsMultiple says what that means in arithmetic. */
  predicate Aligned(a: nat, n: nat)
    decreases n
  {
    n == 0 || (a % 2 == 0 && Aligned(a / 2, n - 1))
  }

  /** Exclusive or of two natural numbers, bit by bit. */
  function Xor(a: nat, b: nat): nat
    decreases a + b
  {
    if a == 0 && b == 0 then 0
    else (if a % 2 != b % 2 then 1 else 0) + 2 * Xor(a / 2, b / 2)
  }

  /** Conjunction of two natural numbers, bit by bit. */
  function And(a: nat, b: nat): nat
    decreases a
  {
    if a == 0 then 0
    else (if a % 2 == 1 && b % 2 == 1 then 1 else 0) + 2 * And(a / 2, b / 2)
  }

  /** The start of the other half of the order n+1 block that holds the order n block at a. */
  function Buddy(a: nat, n: nat): (b: nat)
    requires Aligned(a, n)
  {
    if Aligned(a, n + 1) then a + Pow2(n) else AlignedAtLeast(a, n); a - Pow2(n)
  }

  lemma {:induction false} AlignedAtLeast(a: nat, n: nat)
    requires Aligned(a, n) && !Aligned(a, n + 1)
    ensures a >= Pow2(n)
  {
    if n > 0 { AlignedAtLeast(a / 2, n - 1); }
  }

  /** Alignment in the usual sense: being a multiple of the power of two. */
  lemma {:induction false} AlignedIsMultiple(a: nat, n: nat)
    ensures Aligned(a, n) <==> a % Pow2(n) == 0
  {
    if n > 0 {
      AlignedIsMultiple(a / 2, n - 1);
      HalfMod(a, Pow2(n - 1));
    }
  }

  lemma HalfMod(a: nat, m: nat)
    requires m > 0
    ensures a % (2 * m) == 0 <==> a % 2 == 0 && (a / 2) % m == 0
  {
    if a % (2 * m) == 0 {
      var q := a / (2 * m);
      assert a == 2 * (m * q);
      MulMod(m, q);
    }
    if a % 2 == 0 && (a / 2) % m == 0 {
      var q := (a / 2) / m;
      assert a == (2 * m) * q;
      MulMod(2 * m, q);
    }
  }

  lemma MulMod(m: nat, q: int)
    requires m > 0
    ensures (m * q) % m == 0
  {
    var d := (m * q) / m;
    assert m * q == m * d + (m * q) % m;
    if q < d { MulGrows(m, q, d); }
    if d < q { MulGrows(m, d, q); }
  }

  lemma HalfOfDouble(h: nat)
    ensures 2 * h / 2 == h && 2 * h % 2 == 0
  {
  }

  lemma {:induction false} Pow2Aligned(i: nat, j: nat)
    requires i <= j
    ensures Aligned(Pow2(j), i) && Pow2(i) <= Pow2(j)
  {
    if i > 0 {
      Pow2Aligned(i - 1, j - 1);
      var h := Pow2(j - 1);
      assert Pow2(j) == 2 * h && Pow2(i) == 2 * Pow2(i - 1);
      HalfOfDouble(h);
    }
  }

  lemma {:induction false} ZeroAligned(n: nat)
    ensures Aligned(0, n)
  {
    if n > 0 { ZeroAligned(n - 1); }
  }

  /** Alignment to a power of two is alignment to every smaller one. */
  lemma {:induction false} AlignedDown(a: nat, i: nat, j: nat)
    requires i <= j && Aligned(a, j)
    ensures Aligned(a, i)
    decreases i
  {
    if i > 0 { AlignedDown(a / 2, i - 1, j - 1); }
  }

  /** Distinct aligned numbers are at least one power of two apart. */
  lemma {:induction false} AlignedApart(a: nat, b: nat, n: nat)
    requires Aligned(a, n) && Aligned(b, n) && a < b
    ensures a + Pow2(n) <= b
    decreases n
  {
    if n > 0 { AlignedApart(a / 2, b / 2, n - 1); }
  }

  lemma {:induction false} AlignedSum(a: nat, b: nat, n: nat)
    requires Aligned(a, n) && Aligned(b, n)
    ensures Aligned(a + b, n)
    decreases n
  {
    if n > 0 {
      AlignedSum(a / 2, b / 2, n - 1);
      assert (a + b) / 2 == a / 2 + b / 2;
    }
  }

  /** Rounding down to a multiple. */
  lemma {:induction false} RoundDown(p: nat, n: nat) returns (a: nat)
    ensures Aligned(a, n) && a <= p < a + Pow2(n)
    decreases n
  {
    if n == 0 {
      a := p;
    } else {
      var h := RoundDown(p / 2, n - 1);
      a := 2 * h;
    }
  }

  /** A smaller aligned block that starts inside a larger aligned one ends inside it. */
  lemma Nested(a: nat, i: nat, b: nat, j: nat)
    requires Aligned(a, i) && Aligned(b, j) && i <= j
    requires b <= a < b + Pow2(j)
    ensures a + Pow2(i) <= b + Pow2(j)
  {
    AlignedDown(b, i, j);
    Pow2Aligned(i, j);
    AlignedSum(b, Pow2(j), i);
    AlignedApart(a, b + Pow2(j), i);
  }

  /** The two halves of an aligned block are aligned, and are each other's buddy. */
  lemma {:induction false} BuddyFacts(a: nat, n: nat)
    requires Aligned(a, n)
    ensures var b := Buddy(a, n);
            && Aligned(b, n)
            && Buddy(b, n) == a
            && Aligned(if a < b then a else b, n + 1)
            && (Aligned(a, n + 1) <==> a < b)
            && !Aligned(if a < b then b else a, n + 1)
    decreases n
  {
    if n > 0 {
      BuddyFacts(a / 2, n - 1);
      assert Buddy(a, n) == 2 * Buddy(a / 2, n - 1);
    }
  }

  /** The second half of an aligned block of order n+1. */
  lemma UpperHalf(a: nat, n: nat)
    requires Aligned(a, n + 1)
    ensures Aligned(a, n) && Buddy(a, n) == a + Pow2(n)
    ensures Aligned(a + Pow2(n), n) && Buddy(a + Pow2(n), n) == a
  {
    AlignedDown(a, n, n + 1);
    BuddyFacts(a, n);
  }

  lemma {:induction false} XorZero(a: nat)
    ensures Xor(a, 0) == a
  {
    if a != 0 { XorZero(a / 2); }
  }

  /** The allocator finds the buddy with one exclusive or on the block's page number. */
  lemma {:induction false} XorIsBuddy(a: nat, n: nat)
    requires Aligned(a, n)
    ensures Xor(a, Pow2(n)) == Buddy(a, n)
    decreases n
  {
    if n == 0 {
      XorZero(a / 2);
      assert Pow2(0) == 1 && Aligned(a, 1) == (a % 2 == 0);
    } else {
      XorIsBuddy(a / 2, n - 1);
      assert Pow2(n) / 2 == Pow2(n - 1) && Pow2(n) % 2 == 0;
    }
  }

  lemma {:induction false} AndSelf(a: nat)
    ensures And(a, a) == a
  {
    if a != 0 { AndSelf(a / 2); }
  }

  /** The conjunction of two buddies is the lower one, the head of the merged block. */
  lemma AndOfDoubles(h: nat, c: nat)
    ensures And(2 * h, 2 * c) == 2 * And(h, c)
  {
    HalfOfDouble(h);
    HalfOfDouble(c);
  }

  lemma {:induction false} AndOfBuddies(a: nat, n: nat)
    requires Aligned(a, n)
    ensures And(a, Buddy(a, n)) == if a < Buddy(a, n) then a else Buddy(a, n)
    decreases n
  {
    var b := Buddy(a, n);
    if n == 0 {
      assert Pow2(0) == 1 && Aligned(a, 1) == (a % 2 == 0);
      assert a / 2 == b / 2;
      AndSelf(a / 2);
    } else {
      AndOfBuddies(a / 2, n - 1);
      var h, c := a / 2, Buddy(a / 2, n - 1);
      assert b == 2 * c;
      HalfOfDouble(h);
      HalfOfDouble(c);
      AndOfDoubles(h, c);
    }
  }

  /** k copies of w added up. */
  function Times(k: nat, w: nat): nat {
    if k == 0 then 0 else Times(k - 1, w) + w
  }

  lemma TimesMore(k: nat, w: nat)
    ensures Times(k + 1, w) == Times(k, w) + w && Times(0, w) == 0
  {
  }

  lemma {:induction false} TimesMonotone(j: nat, k: nat, w: nat)
    requires j <= k
    ensures Times(j, w) <= Times(k, w)
  {
    if j < k { TimesMonotone(j, k - 1, w); }
  }

  lemma {:induction false} TimesIsProduct(k: nat, w: nat)
    ensures Times(k, w) == k * w
  {
    if k > 0 {
      TimesIsProduct(k - 1, w);
      assert (k - 1) * w + w == k * w;
    }
  }
}
