/** Machine integers, bit masks and the division facts the address computations rest on. */
module Arithmetic {

  type Byte = x: int | 0 <= x < 256
  type Word = x: int | 0 <= x < 0x1_0000
  type Dword = x: int | 0 <= x < 0x1_0000_0000
  type Int32 = x: int | -0x8000_0000 <= x < 0x8000_0000

  function Min(a: nat, b: nat): nat { if a < b then a else b }

  /** A value stored into a DWORD: the carry out of bit 31 is lost. */
  function W32(x: nat): (r: Dword)
    ensures r <= x
  {
    if x < 0x1_0000_0000 then x else W32(x - 0x1_0000_0000)
  }

  /** x - 1 on DWORD, written as an addition. */
  lemma Decrement(x: Dword)
    ensures W32(x + 0xFFFF_FFFF) == if x == 0 then 0xFFFF_FFFF else x - 1
  {}

  function Quotient(x: nat, c: nat): nat
    requires c > 0
  {
    x / c
  }

  function Remainder(x: nat, c: nat): (r: nat)
    requires c > 0
    ensures r < c
  {
    x % c
  }

  lemma QuotientRemainder(x: nat, c: nat)
    requires c > 0
    ensures x == Quotient(x, c) * c + Remainder(x, c)
  {}

  lemma CompareTimes(a: int, b: int, c: int)
    requires c > 0
    ensures a < b ==> a * c + c <= b * c
    ensures a == b <==> a * c == b * c
    ensures a > b ==> a * c >= b * c + c
  {
    assert a * c - b * c == (a - b) * c == -((b - a) * c);
    if a < b {
      AtLeastOne(b - a, c);
    } else if a > b {
      AtLeastOne(a - b, c);
    }
  }

  lemma QuotientLess(x: nat, n: nat, c: nat)
    requires c > 0 && x < n * c
    ensures Quotient(x, c) < n
  {
    var q := Quotient(x, c);
    QuotientRemainder(x, c);
    assert q * c == n * c + (q - n) * c;
  }

  lemma QuotientMonotone(x: nat, y: nat, c: nat)
    requires c > 0 && x <= y
    ensures Quotient(x, c) <= Quotient(y, c)
  {
    QuotientRemainder(x, c);
    QuotientRemainder(y, c);
    CompareTimes(Quotient(y, c), Quotient(x, c), c);
  }

  /** The quotients on both sides of a multiple of c. */
  lemma AtMultiple(i: nat, c: nat, n: nat)
    requires c > 0 && i > 0 && Remainder(i, c) == 0 && i <= n * c
    ensures var q := Quotient(i, c);
            0 < q <= n && Quotient(i - 1, c) == q - 1 && (q == n <==> i == n * c) && (q < n <==> i < n * c)
  {
    var q := Quotient(i, c);
    QuotientRemainder(i, c);
    DivMod(i - 1, c, q - 1, c - 1);
    CompareTimes(q, n, c);
  }

  /** The quotients on both sides of a number that is not a multiple of c. */
  lemma OffMultiple(i: nat, c: nat, n: nat)
    requires c > 0 && Remainder(i, c) != 0 && i <= n * c
    ensures i > 0 && Quotient(i - 1, c) == Quotient(i, c) && i < n * c
  {
    QuotientRemainder(i, c);
    DivMod(i - 1, c, Quotient(i, c), Remainder(i, c) - 1);
    if i == n * c {
      DivMod(i, c, n, 0);
    }
  }

  lemma QuotientBound(x: nat, c: nat)
    requires c > 0
    ensures Quotient(x, c) <= Quotient(x, c) * c <= x
  {
    var q := x / c;
    assert x == q * c + x % c;
    if q > 0 {
      AtLeastOne(c, q);
    }
  }

  /** Quotient and remainder are unique. */
  lemma DivMod(x: int, m: int, q: int, r: int)
    requires m > 0 && 0 <= r < m && x == q * m + r
    ensures x / m == q && x % m == r
  {
    var q' := x / m;
    assert x == q' * m + x % m;
    assert (q - q') * m == q * m - q' * m == -((q' - q) * m);
    if q' < q {
      AtLeastOne(q - q', m);
    } else if q < q' {
      AtLeastOne(q' - q, m);
    }
  }

  lemma AtLeastOne(a: int, m: int)
    requires a >= 1 && m > 0
    ensures a * m >= m
  {}

  /** Bitwise and. */
  function And(a: nat, b: nat): (r: nat)
  {
    if a == 0 || b == 0 then 0 else (a % 2) * (b % 2) + 2 * And(a / 2, b / 2)
  }

  /** Bitwise or. */
  function Or(a: nat, b: nat): (r: nat)
    ensures a == 0 ==> r == b
  {
    if a == 0 then b
    else if b == 0 then a
    else (if a % 2 == 1 || b % 2 == 1 then 1 else 0) + 2 * Or(a / 2, b / 2)
  }

  lemma {:induction false} OrBelow(a: nat, b: nat, m: nat)
    requires PowerOf2(m) && a < m && b < m
    ensures Or(a, b) < m
  {
    if a != 0 && b != 0 {
      OrBelow(a / 2, b / 2, m / 2);
    }
  }

  predicate PowerOf2(m: nat): (r: bool)
    ensures r ==> m > 0
  {
    m == 1 || (m > 0 && m % 2 == 0 && PowerOf2(m / 2))
  }

  /** The cluster sizes there can be, in sectors. */
  predicate ClusterSize(m: nat) {
    m == 1 || m == 2 || m == 4 || m == 8 || m == 16 || m == 32 || m == 64 || m == 128
  }

  /** They are the powers of two that fit in a byte. */
  lemma {:induction false} ClusterSizes(m: Byte)
    ensures ClusterSize(m) <==> PowerOf2(m)
  {
    if m > 1 && m % 2 == 0 {
      ClusterSizes(m / 2);
    }
  }

  lemma {:induction false} AndSelf(a: nat)
    ensures And(a, a) == a
  {
    if a != 0 {
      AndSelf(a / 2);
    }
  }

  /** x & (x - 1) is zero for powers of two only. */
  lemma {:induction false} ClearLowestBit(x: nat)
    requires x != 0
    ensures And(x, x - 1) == 0 <==> PowerOf2(x)
  {
    if x % 2 == 1 {
      AndSelf(x / 2);
    } else {
      ClearLowestBit(x / 2);
    }
  }

  lemma AndOdd(x: nat, k: nat)
    requires k > 0
    ensures And(x, 2 * k - 1) == x % 2 + 2 * And(x / 2, k - 1)
  {
    assert (2 * k - 1) / 2 == k - 1 && (2 * k - 1) % 2 == 1;
  }

  /** x & (m - 1) is the remainder by m, for a power of two m. */
  lemma {:induction false} AndMask(x: nat, m: nat)
    requires PowerOf2(m)
    ensures And(x, m - 1) == x % m
  {
    hide And;
    if m == 1 {
      AndZero(x);
    } else {
      AndMask(x / 2, m / 2);
      HalfRemainder(x, m / 2);
      AndOdd(x, m / 2);
      assert m == 2 * (m / 2);
    }
  }

  lemma AndZero(x: nat)
    ensures And(x, 0) == 0
  {}

  lemma HalfRemainder(x: nat, k: nat)
    requires k > 0
    ensures x % (2 * k) == x % 2 + 2 * (x / 2 % k)
  {
    var h := x / 2;
    var q, r := h / k, h % k;
    assert h == q * k + r;
    DivMod(x, 2 * k, q, 2 * r + x % 2);
  }

  lemma DoublePower(m: nat)
    requires PowerOf2(m)
    ensures PowerOf2(2 * m)
  {
    assert 2 * m / 2 == m;
  }

  /** A cluster of c sectors has 512 c bytes, again a power of two. */
  lemma ClusterBytes(c: nat)
    requires PowerOf2(c)
    ensures PowerOf2(512 * c)
  {
    hide PowerOf2;
    DoublePower(c);
    DoublePower(2 * c);
    DoublePower(4 * c);
    DoublePower(8 * c);
    DoublePower(16 * c);
    DoublePower(32 * c);
    DoublePower(64 * c);
    DoublePower(128 * c);
    DoublePower(256 * c);
  }

  /** Dividing by 512 and then by c is dividing by 512 c. */
  lemma DivideTwice(x: nat, c: nat)
    requires c > 0
    ensures x / (512 * c) == Quotient(x / 512, c)
    ensures x - x % (512 * c) == Quotient(x / 512, c) * c * 512
  {
    var i := x / 512;
    var q, r := Quotient(i, c), Remainder(i, c);
    QuotientRemainder(i, c);
    assert x == q * (512 * c) + (512 * r + x % 512);
    DivMod(x, 512 * c, q, 512 * r + x % 512);
  }

  /** A number at least as far as another, in blocks of b, is not before that block starts. */
  lemma SameClusterStart(x: nat, y: nat, b: nat)
    requires b > 0 && x / b >= y / b
    ensures 0 <= y % b <= y && y - y % b <= x
  {
    assert y == (y / b) * b + y % b;
    assert x == (x / b) * b + x % b;
    CompareTimes(y / b, x / b, b);
  }
}
