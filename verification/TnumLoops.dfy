/** tnum_mul, tnum_shl and tnum_lshr: loops over the bits of one operand. */
module TristateLoops {
  import opened Bits
  import opened Tristate
  import opened TristateOps

  function LShift(w: nat, t: Tnum, s: nat): Tnum {
    Tnum(Trunc(w, t.value * Pow2(s)), Trunc(w, t.mask * Pow2(s)))
  }

  lemma QuotientNat(x: nat, d: int)
    requires d > 0
    ensures x / d >= 0
  {
  }

  /** x >> s */
  function Down(x: nat, s: nat): nat {
    QuotientNat(x, Pow2(s));
    x / Pow2(s)
  }

  function RShift(t: Tnum, s: nat): Tnum {
    Tnum(Down(t.value, s), Down(t.mask, s))
  }

  // ----- fixed shifts -----

  lemma {:induction false} TruncHas(w: nat, t: Tnum, x: nat)
    requires t.Valid() && t.Has(x)
    ensures var r := Tnum(Trunc(w, t.value), Trunc(w, t.mask));
            r.Valid() && r.Fits(w) && r.Has(Trunc(w, x))
  {
    hide Bitwise, AndNot, Tnum.Has, Tnum.Valid, Trunc;
    var r := Tnum(Trunc(w, t.value), Trunc(w, t.mask));
    TruncStep(w, t.value);
    TruncStep(w, t.mask);
    TruncStep(w, x);
    if w == 0 {
      ZeroHas();
    } else {
      ValidDigits(t);
      ValidByDigits(t);
      HasStep(t, x);
      TruncHas(w - 1, t.Half(), x / 2);
      ValidByDigits(r);
      HasStep(r, Trunc(w, x));
    }
  }

  lemma {:induction false} ScaleHas(t: Tnum, x: nat, s: nat)
    requires t.Valid() && t.Has(x)
    ensures var r := Tnum(t.value * Pow2(s), t.mask * Pow2(s)); r.Valid() && r.Has(x * Pow2(s))
  {
    hide Bitwise, AndNot, Tnum.Has, Tnum.Valid;
    if s > 0 {
      var r := Tnum(t.value * Pow2(s), t.mask * Pow2(s));
      ScaleHas(t, x, s - 1);
      ScaleStep(t.value, s);
      ScaleStep(t.mask, s);
      ScaleStep(x, s);
      ValidByDigits(r);
      HasStep(r, x * Pow2(s));
    }
  }

  lemma ScaleStep(x: nat, s: nat)
    requires s > 0
    ensures x * Pow2(s) % 2 == 0 && x * Pow2(s) / 2 == x * Pow2(s - 1)
  {
    assert x * Pow2(s) == 2 * (x * Pow2(s - 1));
  }

  lemma LShiftHas(w: nat, t: Tnum, x: nat, s: nat)
    requires t.Valid() && t.Has(x)
    ensures LShift(w, t, s).Valid() && LShift(w, t, s).Fits(w) && LShift(w, t, s).Has(Trunc(w, x * Pow2(s)))
  {
    ScaleHas(t, x, s);
    TruncHas(w, Tnum(t.value * Pow2(s), t.mask * Pow2(s)), x * Pow2(s));
  }

  lemma DivStep(x: nat, s: nat)
    requires s > 0
    ensures x / Pow2(s) == x / 2 / Pow2(s - 1)
  {
    var p := Pow2(s - 1);
    var q, r := x / 2 / p, x / 2 % p;
    assert x == (2 * p) * q + (2 * r + x % 2) by {
      assert x / 2 == p * q + r;
      assert 2 * (p * q) == (2 * p) * q;
    }
    DivModUnique(x, 2 * p, q, 2 * r + x % 2);
  }

  lemma {:induction false} RShiftHas(w: nat, t: Tnum, x: nat, s: nat)
    requires t.Valid() && t.Fits(w) && t.Has(x)
    ensures RShift(t, s).Valid() && RShift(t, s).Fits(w) && RShift(t, s).Has(x / Pow2(s))
    decreases s
  {
    hide Bitwise, AndNot, Tnum.Has, Tnum.Valid;
    if s > 0 {
      ValidDigits(t);
      HasStep(t, x);
      RShiftHas(w, t.Half(), x / 2, s - 1);
      DivStep(t.value, s);
      DivStep(t.mask, s);
      DivStep(x, s);
    }
  }

  // ----- multiplication -----

  lemma AddHas(w: nat, a: Tnum, b: Tnum, x: nat, y: nat)
    requires a.Valid() && b.Valid() && a.Fits(w) && b.Fits(w) && a.Has(x) && b.Has(y)
    ensures Add(w, a, b).Valid() && Add(w, a, b).Fits(w) && Add(w, a, b).Has(Trunc(w, x + y))
  {
    hide *;
    AddIsRipple(w, a, b);
    RippleFits(w, a, b, 0, 0);
    RippleSound(w, a, b, 0, 0, x, y, 0);
  }

  /** The partial product mask for the current least significant bit of a. */
  function Partial(w: nat, a: Tnum, b: Tnum, acc: Tnum): Tnum {
    if a.value % 2 == 1 then Add(w, acc, Tnum(0, b.mask))
    else if a.mask % 2 == 1 then Add(w, acc, Tnum(0, Or(b.value, b.mask)))
    else acc
  }

  lemma HalfShrinks(a: Tnum)
    requires a.value != 0 || a.mask != 0
    ensures RShift(a, 1) == a.Half() && a.value / 2 + a.mask / 2 < a.value + a.mask
  {
    DivStep(a.value, 1);
    DivStep(a.mask, 1);
    assert Pow2(1) == 2;
  }

  function MulLoop(w: nat, a: Tnum, b: Tnum, acc: Tnum): Tnum
    decreases a.value + a.mask
  {
    if a.value == 0 && a.mask == 0 then acc
    else
      HalfShrinks(a);
      MulLoop(w, RShift(a, 1), LShift(w, b, 1), Partial(w, a, b, acc))
  }

  function Mul(w: nat, a: Tnum, b: Tnum): Tnum {
    Add(w, Tnum(Trunc(w, a.value * b.value), 0), MulLoop(w, a, b, Tnum(0, 0)))
  }

  /** tnum_mul */
  method MulMethod(w: nat, a0: Tnum, b0: Tnum) returns (r: Tnum)
    ensures r == Mul(w, a0, b0)
  {
    var a, b := a0, b0;
    var accV := Trunc(w, a.value * b.value);
    var accM := Tnum(0, 0);
    while a.value != 0 || a.mask != 0
      invariant MulLoop(w, a0, b0, Tnum(0, 0)) == MulLoop(w, a, b, accM)
      decreases a.value + a.mask
    {
      HalfShrinks(a);
      var acc := accM;
      if a.value % 2 == 1 {
        acc := Add(w, accM, Tnum(0, b.mask));
      } else if a.mask % 2 == 1 {
        acc := Add(w, accM, Tnum(0, Or(b.value, b.mask)));
      }
      assert acc == Partial(w, a, b, accM);
      a, b, accM := RShift(a, 1), LShift(w, b, 1), acc;
    }
    r := Add(w, Tnum(accV, 0), accM);
  }

  /** The unknown part of a member is a member of the mask. */
  lemma {:induction false} MaskHas(t: Tnum, x: nat)
    requires t.Valid() && t.Has(x)
    ensures t.value <= x && Tnum(0, t.mask).Valid() && Tnum(0, t.mask).Has(x - t.value)
    decreases t.value + t.mask
  {
    hide AndNot, Tnum.Has, Tnum.Valid;
    ZeroHas();
    if t.value + t.mask != 0 {
      ValidDigits(t);
      HasStep(t, x);
      MaskHas(t.Half(), x / 2);
      assert (x - t.value) / 2 == x / 2 - t.value / 2 && (x - t.value) % 2 == x % 2 - t.value % 2;
      HasStep(Tnum(0, t.mask), x - t.value);
      ValidByDigits(Tnum(0, t.mask));
    }
  }

  /** With every bit of value and mask unknown, zero and any member belong. */
  lemma {:induction false} AllUnknownHas(t: Tnum, x: nat)
    requires t.Valid() && t.Has(x)
    ensures var u := Tnum(0, Or(t.value, t.mask)); u.Valid() && u.Has(x) && u.Has(0)
    decreases t.value + t.mask
  {
    hide AndNot, Tnum.Has, Tnum.Valid, Bitwise;
    var u := Tnum(0, Or(t.value, t.mask));
    ZeroHas();
    BitwiseZero(OR);
    if t.value + t.mask != 0 {
      ValidDigits(t);
      HasStep(t, x);
      AllUnknownHas(t.Half(), x / 2);
      BitwiseStep(OR, t.value, t.mask);
      HasStep(u, x);
      HasStep(u, 0);
      ValidByDigits(u);
    }
  }

  /** What the current bit of x adds beyond the known product. */
  function Excess(a: Tnum, b: Tnum, x: nat, y: nat): int {
    (x % 2) * y - (a.value % 2) * b.value
  }

  lemma PartialHas(w: nat, a: Tnum, b: Tnum, acc: Tnum, x: nat, y: nat, e: int)
    requires a.Valid() && b.Valid() && acc.Valid() && b.Fits(w) && acc.Fits(w)
    requires a.Has(x) && b.Has(y) && acc.Has(Trunc(w, e))
    ensures var r := Partial(w, a, b, acc);
            r.Valid() && r.Fits(w) && r.Has(Trunc(w, e + Excess(a, b, x, y)))
  {
    hide AndNot, Tnum.Has, Tnum.Valid, Bitwise, Add;
    ValidDigits(a);
    HasStep(a, x);
    MaskHas(b, y);
    AllUnknownHas(b, y);
    OrFits(w, b);
    var k := TruncSplit(w, e);
    if a.value % 2 == 1 {
      AddHas(w, acc, Tnum(0, b.mask), Trunc(w, e), y - b.value);
      TruncEqual(w, e + (y - b.value), Trunc(w, e) + (y - b.value), k);
    } else if a.mask % 2 == 1 {
      var part := (x % 2) * y;
      assert part == 0 || part == y;
      AddHas(w, acc, Tnum(0, Or(b.value, b.mask)), Trunc(w, e), part);
      TruncEqual(w, e + part, Trunc(w, e) + part, k);
    }
  }

  lemma OrFits(w: nat, b: Tnum)
    requires b.Fits(w)
    ensures Tnum(0, Or(b.value, b.mask)).Fits(w) && Tnum(0, b.mask).Fits(w)
  {
    BitwiseBound(OR, w, b.value, b.mask);
  }

  lemma TruncProduct(w: nat, x: nat, n: nat) returns (q: int)
    ensures x * Trunc(w, n) == x * n - q * Pow2(w)
  {
    hide Trunc;
    var k := TruncSplit(w, n);
    q := x * k;
    calc {
      x * Trunc(w, n);
      x * (n - k * Pow2(w));
      x * n - x * (k * Pow2(w));
      x * n - q * Pow2(w);
    }
  }

  /** Shifting b left and a right trades a bit of x for a doubling of y. */
  lemma ProductStep(w: nat, x: nat, y: nat, av: nat, bv: nat, e: int)
    ensures Trunc(w, e + (x * y - av * bv)) ==
            Trunc(w, (e + ((x % 2) * y - (av % 2) * bv)) +
                     ((x / 2) * Trunc(w, y * 2) - (av / 2) * Trunc(w, bv * 2)))
  {
    hide Trunc, Pow2;
    HalfProduct(x, y);
    HalfProduct(av, bv);
    var i := TruncProduct(w, x / 2, y * 2);
    var j := TruncProduct(w, av / 2, bv * 2);
    var p := Pow2(w);
    assert (i - j) * p == i * p - j * p;
    var s, t := (x / 2) * Trunc(w, y * 2), (av / 2) * Trunc(w, bv * 2);
    TruncEqual(w, e + (x * y - av * bv), (e + ((x % 2) * y - (av % 2) * bv)) + (s - t), i - j);
  }

  lemma HalfProduct(x: nat, y: nat)
    ensures x * y == (x / 2) * (y * 2) + (x % 2) * y
  {
    assert x == 2 * (x / 2) + x % 2;
    assert (2 * (x / 2) + x % 2) * y == (2 * (x / 2)) * y + (x % 2) * y;
    assert (2 * (x / 2)) * y == (x / 2) * (y * 2);
  }

  /** The accumulated mask keeps containing the distance to the known product. */
  lemma {:induction false} MulLoopSound(w: nat, a: Tnum, b: Tnum, acc: Tnum, x: nat, y: nat, e: int)
    requires a.Valid() && b.Valid() && acc.Valid() && b.Fits(w) && acc.Fits(w)
    requires a.Has(x) && b.Has(y) && acc.Has(Trunc(w, e))
    ensures var r := MulLoop(w, a, b, acc);
            r.Valid() && r.Fits(w) && r.Has(Trunc(w, e + (x * y - a.value * b.value)))
    decreases a.value + a.mask
  {
    hide AndNot, Tnum.Has, Tnum.Valid, Trunc, Partial, Tnum.Fits;
    if a.value == 0 && a.mask == 0 {
      ZeroHas();
    } else {
      HalfShrinks(a);
      ValidDigits(a);
      HasStep(a, x);
      PartialHas(w, a, b, acc, x, y, e);
      LShiftHas(w, b, y, 1);
      assert Pow2(1) == 2;
      MulLoopSound(w, a.Half(), LShift(w, b, 1), Partial(w, a, b, acc), x / 2, Trunc(w, y * 2),
                   e + Excess(a, b, x, y));
      ProductStep(w, x, y, a.value, b.value, e);
    }
  }

  /** tnum_mul contains every product modulo 2^w. */
  lemma MulSound(w: nat, a: Tnum, b: Tnum, x: nat, y: nat)
    requires a.Valid() && b.Valid() && a.Fits(w) && b.Fits(w) && a.Has(x) && b.Has(y)
    ensures Mul(w, a, b).Valid() && Mul(w, a, b).Fits(w) && Mul(w, a, b).Has(Trunc(w, x * y))
  {
    hide AndNot, Tnum.Has, Tnum.Valid, Trunc, MulLoop, Bitwise, Add;
    ZeroHas();
    TruncSmall(w, 0);
    MulLoopSound(w, a, b, Tnum(0, 0), x, y, 0);
    var known, rest := a.value * b.value, x * y - a.value * b.value;
    ConstHas(Trunc(w, known));
    AddHas(w, Tnum(Trunc(w, known), 0), MulLoop(w, a, b, Tnum(0, 0)), Trunc(w, known), Trunc(w, rest));
    var i := TruncSplit(w, known);
    var j := TruncSplit(w, rest);
    assert (i + j) * Pow2(w) == i * Pow2(w) + j * Pow2(w);
    TruncEqual(w, x * y, Trunc(w, known) + Trunc(w, rest), i + j);
  }

  lemma ConstHas(v: nat)
    ensures Tnum(v, 0).Valid() && Tnum(v, 0).Has(v)
  {
    ZeroMask(v);
    AndZero(v);
  }

  // ----- variable shifts -----

  /** The six iterations of tnum_shl; amt doubles while b moves right. */
  function ShlLoop(w: nat, n: nat, a: Tnum, b: Tnum, amt: nat): Tnum
    decreases n
  {
    if n == 0 then a
    else
      var a1 := if b.mask % 2 == 1 then Union(a, LShift(w, a, amt)) else a;
      var a2 := if b.value % 2 == 1 then LShift(w, a1, amt) else a1;
      ShlLoop(w, n - 1, a2, RShift(b, 1), 2 * amt)
  }

  function LshrLoop(n: nat, a: Tnum, b: Tnum, amt: nat): Tnum
    decreases n
  {
    if n == 0 then a
    else
      var a1 := if b.mask % 2 == 1 then Union(a, RShift(a, amt)) else a;
      var a2 := if b.value % 2 == 1 then RShift(a1, amt) else a1;
      LshrLoop(n - 1, a2, RShift(b, 1), 2 * amt)
  }

  function Shl(w: nat, a: Tnum, b: Tnum, bitness: nat): Tnum
    requires bitness > 0
  {
    ShlLoop(w, 6, a, AndT(b, Tnum(bitness - 1, 0)), 1)
  }

  function Lshr(a: Tnum, b: Tnum, bitness: nat): Tnum
    requires bitness > 0
  {
    LshrLoop(6, a, AndT(b, Tnum(bitness - 1, 0)), 1)
  }

  /** tnum_shl */
  method ShlMethod(w: nat, a0: Tnum, b0: Tnum, bitness: nat) returns (a: Tnum)
    requires bitness > 0
    ensures a == Shl(w, a0, b0, bitness)
  {
    hide AndT, Union, LShift, RShift;
    var amt: nat, b := 1, AndT(b0, Tnum(bitness - 1, 0));
    a := a0;
    for i := 0 to 6
      invariant Shl(w, a0, b0, bitness) == ShlLoop(w, 6 - i, a, b, amt)
    {
      if b.mask % 2 == 1 {
        a := Union(a, LShift(w, a, amt));
      }
      if b.value % 2 == 1 {
        a := LShift(w, a, amt);
      }
      amt := 2 * amt;
      b := RShift(b, 1);
    }
  }

  /** tnum_lshr */
  method LshrMethod(a0: Tnum, b0: Tnum, bitness: nat) returns (a: Tnum)
    requires bitness > 0
    ensures a == Lshr(a0, b0, bitness)
  {
    hide AndT, Union, LShift, RShift;
    var amt: nat, b := 1, AndT(b0, Tnum(bitness - 1, 0));
    a := a0;
    for i := 0 to 6
      invariant Lshr(a0, b0, bitness) == LshrLoop(6 - i, a, b, amt)
    {
      if b.mask % 2 == 1 {
        a := Union(a, RShift(a, amt));
      }
      if b.value % 2 == 1 {
        a := RShift(a, amt);
      }
      amt := 2 * amt;
      b := RShift(b, 1);
    }
  }

  lemma {:induction false} UnionFits(w: nat, a: Tnum, b: Tnum)
    requires a.Fits(w) && b.Fits(w)
    ensures Union(a, b).Fits(w)
  {
    BitwiseBound(OR, w, a.value, b.value);
    BitwiseBound(XOR, w, a.value, b.value);
    BitwiseBound(OR, w, a.mask, b.mask);
    BitwiseBound(OR, w, Or(a.mask, b.mask), Xor(a.value, b.value));
    AndNotAtMost(Or(a.value, b.value), Or(Or(a.mask, b.mask), Xor(a.value, b.value)));
  }

  /** One iteration: the bit of y decides whether x moved. */
  lemma ShlStepHas(w: nat, a: Tnum, b: Tnum, amt: nat, x: nat, y: nat)
    requires a.Valid() && a.Fits(w) && b.Valid() && a.Has(x) && b.Has(y) && x < Pow2(w)
    ensures var a1 := if b.mask % 2 == 1 then Union(a, LShift(w, a, amt)) else a;
            var a2 := if b.value % 2 == 1 then LShift(w, a1, amt) else a1;
            a2.Valid() && a2.Fits(w) && a2.Has(Trunc(w, x * Pow2(amt * (y % 2))))
  {
    hide AndNot, Bitwise, Tnum.Has, Tnum.Valid, Trunc, Union, LShift, Tnum.Fits;
    HasStep(b, y);
    ValidDigits(b);
    var s := LShift(w, a, amt);
    var z := Trunc(w, x * Pow2(amt));
    LShiftHas(w, a, x, amt);
    UnionJoin(a, s, a, x);
    UnionJoin(a, s, a, z);
    UnionFits(w, a, s);
    TruncSmall(w, x);
    assert Pow2(0) == 1;
    assert y % 2 == 0 ==> amt * (y % 2) == 0 && x * Pow2(0) == x;
    assert y % 2 == 1 ==> amt * (y % 2) == amt;
  }

  lemma LshrStepHas(w: nat, a: Tnum, b: Tnum, amt: nat, x: nat, y: nat)
    requires a.Valid() && a.Fits(w) && b.Valid() && a.Has(x) && b.Has(y)
    ensures var a1 := if b.mask % 2 == 1 then Union(a, RShift(a, amt)) else a;
            var a2 := if b.value % 2 == 1 then RShift(a1, amt) else a1;
            a2.Valid() && a2.Fits(w) && a2.Has(Down(x, amt * (y % 2)))
  {
    RShiftHas(w, a, x, amt);
    assert Down(x, 0) == x by {
      assert Pow2(0) == 1;
    }
    hide AndNot, Bitwise, Tnum.Has, Tnum.Valid, Union, RShift, Tnum.Fits, Pow2;
    HasStep(b, y);
    ValidDigits(b);
    var s := RShift(a, amt);
    UnionJoin(a, s, a, x);
    UnionJoin(a, s, a, Down(x, amt));
    UnionFits(w, a, s);
    assert y % 2 == 0 ==> amt * (y % 2) == 0;
    assert y % 2 == 1 ==> amt * (y % 2) == amt;
  }

  /** The low n bits of y, least significant first. */
  lemma LowBits(amt: nat, y: nat, n: nat)
    requires n > 0
    ensures amt * Trunc(n, y) == amt * (y % 2) + (2 * amt) * Trunc(n - 1, y / 2)
  {
    TruncStep(n, y);
    var t := Trunc(n, y);
    assert t == y % 2 + 2 * Trunc(n - 1, y / 2);
    assert amt * (y % 2 + 2 * Trunc(n - 1, y / 2)) == amt * (y % 2) + amt * (2 * Trunc(n - 1, y / 2));
  }

  lemma TruncShift(w: nat, x: nat, m: nat, n: nat)
    ensures Trunc(w, Trunc(w, x * Pow2(m)) * Pow2(n)) == Trunc(w, x * Pow2(m + n))
  {
    hide Trunc, Pow2;
    var q := TruncProduct(w, Pow2(n), x * Pow2(m));
    Pow2Add(m, n);
    assert Pow2(n) * (x * Pow2(m)) == x * (Pow2(m) * Pow2(n));
    TruncEqual(w, x * Pow2(m + n), Trunc(w, x * Pow2(m)) * Pow2(n), q);
  }

  lemma DivDiv(x: nat, m: nat, n: nat)
    ensures Down(Down(x, m), n) == Down(x, m + n)
    decreases m
  {
    if m > 0 {
      DivStep(x, m);
      DivDiv(x / 2, m - 1, n);
      DivStep(x, m + n);
    }
  }

  lemma {:induction false} ShlLoopSound(w: nat, n: nat, a: Tnum, b: Tnum, amt: nat, x: nat, y: nat)
    requires a.Valid() && a.Fits(w) && b.Valid() && a.Has(x) && b.Has(y)
    ensures var r := ShlLoop(w, n, a, b, amt);
            r.Valid() && r.Fits(w) && r.Has(Trunc(w, x * Pow2(amt * Trunc(n, y))))
    decreases n
  {
    hide AndNot, Bitwise, Tnum.Has, Tnum.Valid, Trunc, Union, LShift, Tnum.Fits;
    HasFits(w, a, x);
    if n == 0 {
      TruncStep(0, y);
      TruncSmall(w, x);
      assert amt * 0 == 0 && Pow2(0) == 1 && x * 1 == x;
    } else {
      ShlStepHas(w, a, b, amt, x, y);
      var a1 := if b.mask % 2 == 1 then Union(a, LShift(w, a, amt)) else a;
      var a2 := if b.value % 2 == 1 then LShift(w, a1, amt) else a1;
      HasStep(b, y);
      ValidDigits(b);
      HalfIsShift(b);
      var m, r := amt * (y % 2), (2 * amt) * Trunc(n - 1, y / 2);
      ShlLoopSound(w, n - 1, a2, b.Half(), 2 * amt, Trunc(w, x * Pow2(m)), y / 2);
      LowBits(amt, y, n);
      TruncShift(w, x, m, r);
    }
  }

  lemma HalfIsShift(b: Tnum)
    ensures RShift(b, 1) == b.Half()
  {
    DivStep(b.value, 1);
    DivStep(b.mask, 1);
    assert Pow2(1) == 2;
  }

  lemma LshrUnfold(n: nat, a: Tnum, b: Tnum, amt: nat)
    requires n > 0
    ensures var a1 := if b.mask % 2 == 1 then Union(a, RShift(a, amt)) else a;
            var a2 := if b.value % 2 == 1 then RShift(a1, amt) else a1;
            LshrLoop(n, a, b, amt) == LshrLoop(n - 1, a2, b.Half(), 2 * amt)
  {
    HalfIsShift(b);
    hide Union, RShift;
  }

  /** x moved right by amt times the low n bits of y. */
  function Lowered(x: nat, amt: nat, y: nat, n: nat): nat {
    Down(x, amt * Trunc(n, y))
  }

  lemma LoweredStep(x: nat, amt: nat, y: nat, n: nat)
    ensures n == 0 ==> Lowered(x, amt, y, n) == x
    ensures n > 0 ==> Lowered(x, amt, y, n) == Lowered(Down(x, amt * (y % 2)), 2 * amt, y / 2, n - 1)
  {
    TruncStep(n, y);
    if n == 0 {
      assert amt * 0 == 0 && Pow2(0) == 1;
    } else {
      hide Trunc, Down;
      LowBits(amt, y, n);
      DivDiv(x, amt * (y % 2), (2 * amt) * Trunc(n - 1, y / 2));
    }
  }

  lemma {:induction false} LshrLoopSound(w: nat, n: nat, a: Tnum, b: Tnum, amt: nat, x: nat, y: nat)
    requires a.Valid() && a.Fits(w) && b.Valid() && a.Has(x) && b.Has(y)
    ensures var r := LshrLoop(n, a, b, amt); r.Valid() && r.Fits(w) && r.Has(Lowered(x, amt, y, n))
    decreases n
  {
    hide AndNot, Bitwise, Tnum.Has, Tnum.Valid, Lowered, Union, RShift, Tnum.Fits, Down;
    LoweredStep(x, amt, y, n);
    if n > 0 {
      LshrUnfold(n, a, b, amt);
      hide LshrLoop;
      LshrStepHas(w, a, b, amt, x, y);
      var a1 := if b.mask % 2 == 1 then Union(a, RShift(a, amt)) else a;
      var a2 := if b.value % 2 == 1 then RShift(a1, amt) else a1;
      HasStep(b, y);
      ValidDigits(b);
      LshrLoopSound(w, n - 1, a2, b.Half(), 2 * amt, Down(x, amt * (y % 2)), y / 2);
    }
  }

  lemma SixBits(y: nat, k: nat)
    requires k <= 6
    ensures Trunc(6, y % Pow2(k)) == y % Pow2(k)
  {
    hide Trunc, Pow2;
    Pow2Add(k, 6 - k);
    assert Pow2(k) * 1 <= Pow2(k) * Pow2(6 - k);
    TruncSmall(6, y % Pow2(k));
  }

  lemma AndConst(b: Tnum, y: nat, c: nat)
    requires b.Valid() && b.Has(y)
    ensures AndT(b, Tnum(c, 0)).Valid() && AndT(b, Tnum(c, 0)).Has(And(y, c))
  {
    hide AndNot, Bitwise, Tnum.Has, Tnum.Valid, AndT;
    ConstHas(c);
    OpSound(AND, b, Tnum(c, 0), y, c);
  }

  lemma MaskedAmount(y: nat, k: nat)
    ensures And(y, Pow2(k) - 1) == y % Pow2(k)
  {
    AndMask(k, y);
  }

  /** The masked shift amount of a member. */
  lemma ShiftAmount(b: Tnum, y: nat, k: nat)
    requires b.Valid() && b.Has(y) && k <= 6
    ensures var m := AndT(b, Tnum(Pow2(k) - 1, 0));
            m.Valid() && m.Has(y % Pow2(k)) && Trunc(6, y % Pow2(k)) == y % Pow2(k)
  {
    hide *;
    SixBits(y, k);
    MaskedAmount(y, k);
    AndConst(b, y, Pow2(k) - 1);
  }

  /** tnum_shl contains every shift by y mod the instruction width 2^k <= 64. */
  lemma ShlSound(w: nat, a: Tnum, b: Tnum, k: nat, x: nat, y: nat)
    requires a.Valid() && b.Valid() && a.Fits(w) && a.Has(x) && b.Has(y) && k <= 6
    ensures var r := Shl(w, a, b, Pow2(k));
            r.Valid() && r.Fits(w) && r.Has(Trunc(w, x * Pow2(y % Pow2(k))))
  {
    hide AndNot, Bitwise, Tnum.Has, Tnum.Valid, Trunc, AndT, ShlLoop, Pow2, Tnum.Fits;
    ShiftAmount(b, y, k);
    var s := y % Pow2(k);
    ShlLoopSound(w, 6, a, AndT(b, Tnum(Pow2(k) - 1, 0)), 1, x, s);
    assert 1 * Trunc(6, s) == s;
  }

  /** tnum_lshr likewise, for shifts to the right. */
  lemma LshrSound(w: nat, a: Tnum, b: Tnum, k: nat, x: nat, y: nat)
    requires a.Valid() && b.Valid() && a.Fits(w) && a.Has(x) && b.Has(y) && k <= 6
    ensures var r := Lshr(a, b, Pow2(k));
            r.Valid() && r.Fits(w) && r.Has(Down(x, y % Pow2(k)))
  {
    hide AndNot, Bitwise, Tnum.Has, Tnum.Valid, Trunc, AndT, LshrLoop, Pow2, Tnum.Fits, Down;
    ShiftAmount(b, y, k);
    var s := y % Pow2(k);
    LshrLoopSound(w, 6, a, AndT(b, Tnum(Pow2(k) - 1, 0)), 1, x, s);
    assert 1 * Trunc(6, s) == s;
  }
}
