/** Unsigned machine words of an arbitrary width w as naturals below Pow2(w),
    with the bitwise operators defined from the least significant bit up. */
module Bits {

  function Pow2(n: nat): (p: nat)
    ensures p > 0
  {
    if n == 0 then 1 else 2 * Pow2(n - 1)
  }

  datatype BinOp = AND | OR | XOR

  function Bit(op: BinOp, i: nat, j: nat): nat {
    match op
    case AND => if i == 1 && j == 1 then 1 else 0
    case OR => if i == 1 || j == 1 then 1 else 0
    case XOR => if i != j then 1 else 0
  }

  function Bitwise(op: BinOp, x: nat, y: nat): nat {
    if x == 0 && y == 0 then 0 else Bit(op, x % 2, y % 2) + 2 * Bitwise(op, x / 2, y / 2)
  }

  function And(x: nat, y: nat): nat { Bitwise(AND, x, y) }
  function Or(x: nat, y: nat): nat { Bitwise(OR, x, y) }
  function Xor(x: nat, y: nat): nat { Bitwise(XOR, x, y) }

  /** x & ~y */
  function AndNot(x: nat, y: nat): nat {
    if x == 0 then 0 else (if x % 2 == 1 && y % 2 == 0 then 1 else 0) + 2 * AndNot(x / 2, y / 2)
  }

  /** ~x at width w */
  function Not(w: nat, x: nat): nat
    requires x < Pow2(w)
  {
    Pow2(w) - 1 - x
  }

  lemma DivModUnique(n: int, d: int, q: int, r: int)
    requires n == d * q + r && 0 <= r < d
    ensures n % d == r && n / d == q
  {
    var e := q - n / d;
    assert d * (n / d) + n % d == n;
    assert d * e == n % d - r by {
      assert d * e == d * q - d * (n / d);
    }
    assert e >= 1 ==> d * e >= d;
    assert e <= -1 ==> d * e <= -d;
  }

  /** The low w bits. */
  function Trunc(w: nat, n: int): (t: nat)
    ensures t < Pow2(w)
  {
    n % Pow2(w)
  }

  /** Truncation splits off the least significant bit. */
  lemma TruncStep(w: nat, n: nat)
    ensures w == 0 ==> Trunc(w, n) == 0
    ensures w > 0 ==> Trunc(w, n) % 2 == n % 2 && Trunc(w, n) / 2 == Trunc(w - 1, n / 2)
  {
    if w == 0 {
      DivModUnique(n, 1, n, 0);
    } else {
      var p := Pow2(w - 1);
      var q, r := (n / 2) / p, (n / 2) % p;
      assert n == (2 * p) * q + (n % 2 + 2 * r) by {
        assert n / 2 == p * q + r;
        assert 2 * (p * q) == (2 * p) * q;
      }
      DivModUnique(n, 2 * p, q, n % 2 + 2 * r);
    }
  }

  lemma ModAdd(x: int, y: int, p: int)
    requires p > 0
    ensures (x % p + y) % p == (x + y) % p
  {
    var q := x / p;
    var s := x % p + y;
    assert x + y == p * (q + s / p) + s % p by {
      assert p * (q + s / p) == p * q + p * (s / p);
    }
    DivModUnique(x + y, p, q + s / p, s % p);
  }

  lemma ModAdd2(x: int, y: int, p: int)
    requires p > 0
    ensures (x % p + y % p) % p == (x + y) % p
  {
    ModAdd(x, y % p, p);
    ModAdd(y, x, p);
  }

  lemma ModMultiple(x: int, k: int, p: int)
    requires p > 0
    ensures (x + k * p) % p == x % p
  {
    assert x + k * p == p * (x / p + k) + x % p by {
      assert p * (x / p + k) == p * (x / p) + p * k;
    }
    DivModUnique(x + k * p, p, x / p + k, x % p);
  }

  lemma ModWrap(n: nat, p: nat)
    requires n < p
    ensures (n + 1) % p == 0 <==> n == p - 1
  {
    if n == p - 1 {
      DivModUnique(n + 1, p, 1, 0);
    } else {
      DivModUnique(n + 1, p, 0, n + 1);
    }
  }

  lemma SumStep(x: nat, y: nat, c: nat)
    ensures (x + y + c) % 2 == (x % 2 + y % 2 + c) % 2
    ensures (x + y + c) / 2 == x / 2 + y / 2 + (x % 2 + y % 2 + c) / 2
  {
  }

  /** Words that differ by a multiple of 2^w truncate alike. */
  lemma TruncEqual(w: nat, x: int, y: int, k: int)
    requires x == y + k * Pow2(w)
    ensures Trunc(w, x) == Trunc(w, y)
  {
    ModMultiple(y, k, Pow2(w));
  }

  lemma TruncSmall(w: nat, x: nat)
    requires x < Pow2(w)
    ensures Trunc(w, x) == x
  {
    DivModUnique(x, Pow2(w), 0, x);
  }

  /** What truncation removes. */
  lemma TruncSplit(w: nat, x: int) returns (k: int)
    ensures x == Trunc(w, x) + k * Pow2(w)
  {
    k := x / Pow2(w);
  }

  lemma Pow2Add(m: nat, n: nat)
    ensures Pow2(m + n) == Pow2(m) * Pow2(n)
  {
    if m > 0 {
      Pow2Add(m - 1, n);
      assert Pow2(m + n) == 2 * (Pow2(m - 1) * Pow2(n));
    }
  }

  lemma {:induction false} AndMask(k: nat, y: nat)
    ensures And(y, Pow2(k) - 1) == Trunc(k, y)
  {
    hide Trunc;
    TruncStep(k, y);
    if k > 0 {
      AndMask(k - 1, y / 2);
      assert (Pow2(k) - 1) / 2 == Pow2(k - 1) - 1 && (Pow2(k) - 1) % 2 == 1;
    } else {
      AndZero(y);
    }
  }

  lemma AndZero(y: nat)
    ensures And(y, 0) == 0
  {
    if y > 0 {
      AndZero(y / 2);
    }
  }

  /** The complement splits off its least significant bit. */
  lemma TopStep(w: nat, y: nat)
    requires w > 0 && y < Pow2(w)
    ensures (Pow2(w) - 1 - y) / 2 == Pow2(w - 1) - 1 - y / 2 && (Pow2(w) - 1 - y) % 2 == 1 - y % 2
  {
  }
}
