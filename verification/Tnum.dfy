/** Tristate numbers: the BPF verifier's abstract domain of partly known words.
    The source fixes the width at 64; every statement here is for any width w. */
module Tristate {
  import opened Bits

  datatype Tnum = Tnum(value: nat, mask: nat) {
    /** Both fields are words of width w. */
    predicate Fits(w: nat) {
      value < Pow2(w) && mask < Pow2(w)
    }

    predicate Valid() {
      And(value, mask) == 0
    }

    function Half(): Tnum {
      Tnum(value / 2, mask / 2)
    }

    /** x agrees with the value on every known bit. */
    predicate Has(x: nat) {
      AndNot(x, mask) == value
    }
  }

  /** tnum_contains, in the source's arithmetic. */
  predicate Contains(w: nat, a: Tnum, x: nat)
    requires a.Fits(w) && x < Pow2(w) && Xor(a.value, x) < Pow2(w)
  {
    Trunc(w, Or(a.mask, Not(w, Xor(a.value, x))) + 1) == 0
  }

  function Add(w: nat, a: Tnum, b: Tnum): Tnum {
    var sm := Trunc(w, a.mask + b.mask);
    var sv := Trunc(w, a.value + b.value);
    var sigma := Trunc(w, sm + sv);
    var chi := Xor(sigma, sv);
    var mu := Or(Or(chi, a.mask), b.mask);
    Tnum(AndNot(sv, mu), mu)
  }

  function Sub(w: nat, a: Tnum, b: Tnum): Tnum {
    var dv := Trunc(w, a.value - b.value);
    var alpha := Trunc(w, dv + a.mask);
    var beta := Trunc(w, dv - b.mask);
    var chi := Xor(alpha, beta);
    var mu := Or(Or(chi, a.mask), b.mask);
    Tnum(AndNot(dv, mu), mu)
  }

  // ----- membership, bit by bit -----

  lemma HasStep(t: Tnum, x: nat)
    ensures t.Has(x) <==>
            (if t.mask % 2 == 1 then t.value % 2 == 0 else t.value % 2 == x % 2) && t.Half().Has(x / 2)
  {
  }

  /** A tnum is valid exactly when it contains its own value. */
  lemma {:induction false} ValidIsHas(t: Tnum)
    ensures t.Valid() <==> t.Has(t.value)
    decreases t.value + t.mask
  {
    if t.value + t.mask != 0 {
      ValidIsHas(t.Half());
      HasStep(t, t.value);
    }
  }

  lemma {:induction false} BitwiseBound(op: BinOp, w: nat, x: nat, y: nat)
    requires x < Pow2(w) && y < Pow2(w)
    ensures Bitwise(op, x, y) < Pow2(w)
  {
    if w > 0 {
      BitwiseBound(op, w - 1, x / 2, y / 2);
    }
  }

  lemma {:induction false} AllOnes(w: nat, m: nat, u: nat)
    requires m < Pow2(w) && u < Pow2(w)
    ensures Or(m, Not(w, u)) == Pow2(w) - 1 <==> AndNot(u, m) == 0
  {
    if w > 0 {
      assert Not(w, u) / 2 == Not(w - 1, u / 2) && Not(w, u) % 2 == 1 - u % 2;
      BitwiseBound(OR, w - 1, m / 2, Not(w - 1, u / 2));
      AllOnes(w - 1, m / 2, u / 2);
    }
  }

  lemma {:induction false} KnownBitsAgree(a: Tnum, x: nat)
    requires a.Valid()
    ensures AndNot(Xor(a.value, x), a.mask) == 0 <==> a.Has(x)
    decreases a.value + a.mask + x
  {
    if a.value + a.mask + x != 0 {
      assert Xor(a.value, x) / 2 == Xor(a.value / 2, x / 2);
      KnownBitsAgree(a.Half(), x / 2);
    }
  }

  /** The source's membership test is agreement on the known bits. */
  lemma ContainsIsHas(w: nat, a: Tnum, x: nat)
    requires a.Fits(w) && a.Valid() && x < Pow2(w)
    ensures Xor(a.value, x) < Pow2(w)
    ensures Contains(w, a, x) <==> a.Has(x)
  {
    hide Bitwise, AndNot, Pow2;
    BitwiseBound(XOR, w, a.value, x);
    var u := Xor(a.value, x);
    BitwiseBound(OR, w, a.mask, Not(w, u));
    AllOnes(w, a.mask, u);
    ModWrap(Or(a.mask, Not(w, u)), Pow2(w));
    KnownBitsAgree(a, x);
  }

  // ----- addition and subtraction as one ripple of carries -----

  function Least(a: Tnum, b: Tnum, lo: nat): nat {
    a.value % 2 + b.value % 2 + lo
  }

  function Most(a: Tnum, b: Tnum, hi: nat): nat {
    (a.value % 2 + a.mask % 2) + (b.value % 2 + b.mask % 2) + hi
  }

  /** Is the least significant bit of the sum unknown? */
  predicate Open(a: Tnum, b: Tnum, lo: nat, hi: nat) {
    Least(a, b, lo) % 2 != Most(a, b, hi) % 2 || a.mask % 2 == 1 || b.mask % 2 == 1
  }

  /** Add from the least significant bit, where lo and hi are the least and the
      greatest carry into it: a bit of the sum is known when the operand bits are
      and both carries agree. */
  function Ripple(w: nat, a: Tnum, b: Tnum, lo: nat, hi: nat): Tnum {
    if w == 0 then Tnum(0, 0)
    else
      var rest := Ripple(w - 1, a.Half(), b.Half(), Least(a, b, lo) / 2, Most(a, b, hi) / 2);
      if Open(a, b, lo, hi) then Tnum(2 * rest.value, 1 + 2 * rest.mask)
      else Tnum(Least(a, b, lo) % 2 + 2 * rest.value, 2 * rest.mask)
  }

  /** The source's formula with carries into the least significant bit. */
  function Word(w: nat, a: Tnum, b: Tnum, lo: nat, hi: nat): Tnum {
    Masked(Trunc(w, a.value + b.value + lo), Trunc(w, (a.value + a.mask) + (b.value + b.mask) + hi), a.mask, b.mask)
  }

  function Masked(sv: nat, sigma: nat, am: nat, bm: nat): Tnum {
    var mu := Or(Or(Xor(sigma, sv), am), bm);
    Tnum(AndNot(sv, mu), mu)
  }

  lemma ValidDigits(a: Tnum)
    requires a.Valid()
    ensures a.Half().Valid() && a.value % 2 + a.mask % 2 <= 1
  {
  }

  lemma CarryRange(a: Tnum, b: Tnum, lo: nat, hi: nat)
    requires a.Valid() && b.Valid() && lo <= hi <= 1
    ensures a.Half().Valid() && b.Half().Valid()
    ensures Least(a, b, lo) <= Most(a, b, hi) && Least(a, b, lo) / 2 <= Most(a, b, hi) / 2 <= 1
  {
    ValidDigits(a);
    ValidDigits(b);
  }

  lemma RippleStep(w: nat, a: Tnum, b: Tnum, lo: nat, hi: nat)
    requires w > 0
    ensures var r := Ripple(w, a, b, lo, hi);
            r.Half() == Ripple(w - 1, a.Half(), b.Half(), Least(a, b, lo) / 2, Most(a, b, hi) / 2) &&
            (if Open(a, b, lo, hi) then r.value % 2 == 0 && r.mask % 2 == 1
             else r.value % 2 == Least(a, b, lo) % 2 && r.mask % 2 == 0)
  {
  }

  lemma {:induction false} ValidSum(w: nat, a: Tnum)
    requires a.Valid() && a.Fits(w)
    ensures a.value + a.mask < Pow2(w)
  {
    if w > 0 {
      ValidDigits(a);
      ValidSum(w - 1, a.Half());
    }
  }

  lemma MaskedStep(sv: nat, sigma: nat, am: nat, bm: nat)
    ensures var t := Masked(sv, sigma, am, bm);
            t.Half() == Masked(sv / 2, sigma / 2, am / 2, bm / 2) &&
            (if sigma % 2 != sv % 2 || am % 2 == 1 || bm % 2 == 1 then t.value % 2 == 0 && t.mask % 2 == 1
             else t.value % 2 == sv % 2 && t.mask % 2 == 0)
  {
  }

  lemma LeastStep(a: Tnum, b: Tnum, lo: nat)
    ensures var n := a.value + b.value + lo;
            n % 2 == Least(a, b, lo) % 2 && n / 2 == a.value / 2 + b.value / 2 + Least(a, b, lo) / 2
  {
    SumStep(a.value, b.value, lo);
  }

  lemma MostStep(a: Tnum, b: Tnum, hi: nat)
    requires a.Valid() && b.Valid()
    ensures var n := (a.value + a.mask) + (b.value + b.mask) + hi;
            n % 2 == Most(a, b, hi) % 2 &&
            n / 2 == (a.value / 2 + a.mask / 2) + (b.value / 2 + b.mask / 2) + Most(a, b, hi) / 2
  {
    ValidDigits(a);
    ValidDigits(b);
    SumStep(a.value + a.mask, b.value + b.mask, hi);
    SumStep(a.value, a.mask, 0);
    SumStep(b.value, b.mask, 0);
  }

  lemma SameTnum(s: Tnum, t: Tnum)
    requires s.Half() == t.Half() && s.value % 2 == t.value % 2 && s.mask % 2 == t.mask % 2
    ensures s == t
  {
  }

  lemma WordZero(a: Tnum, b: Tnum, lo: nat, hi: nat)
    requires a.Fits(0) && b.Fits(0)
    ensures Word(0, a, b, lo, hi) == Ripple(0, a, b, lo, hi)
  {
    TruncStep(0, a.value + b.value + lo);
    TruncStep(0, (a.value + a.mask) + (b.value + b.mask) + hi);
  }

  lemma {:induction false} WordIsRipple(w: nat, a: Tnum, b: Tnum, lo: nat, hi: nat)
    requires a.Valid() && b.Valid() && a.Fits(w) && b.Fits(w) && lo <= hi <= 1
    ensures Word(w, a, b, lo, hi) == Ripple(w, a, b, lo, hi)
  {
    hide Trunc, Tnum.Valid, Masked, Ripple, Least, Most;
    if w == 0 {
      WordZero(a, b, lo, hi);
    } else {
      var n, m := a.value + b.value + lo, (a.value + a.mask) + (b.value + b.mask) + hi;
      TruncStep(w, n);
      TruncStep(w, m);
      LeastStep(a, b, lo);
      MostStep(a, b, hi);
      CarryRange(a, b, lo, hi);
      WordIsRipple(w - 1, a.Half(), b.Half(), Least(a, b, lo) / 2, Most(a, b, hi) / 2);
      MaskedStep(Trunc(w, n), Trunc(w, m), a.mask, b.mask);
      RippleStep(w, a, b, lo, hi);
      SameTnum(Word(w, a, b, lo, hi), Ripple(w, a, b, lo, hi));
    }
  }

  /** Digits of members stay between the least and the greatest digit sum. */
  lemma DigitRange(a: Tnum, b: Tnum, lo: nat, hi: nat, x: nat, y: nat, c: nat)
    requires a.Valid() && b.Valid() && lo <= c <= hi <= 1 && a.Has(x) && b.Has(y)
    ensures a.Half().Has(x / 2) && b.Half().Has(y / 2)
    ensures Least(a, b, lo) <= x % 2 + y % 2 + c <= Most(a, b, hi)
    ensures !Open(a, b, lo, hi) ==> (x % 2 + y % 2 + c) % 2 == Least(a, b, lo) % 2
  {
    hide AndNot, Tnum.Valid;
    ValidDigits(a);
    ValidDigits(b);
    HasStep(a, x);
    HasStep(b, y);
  }

  /** Every sum of members, with any carry in range, is in the ripple sum. */
  lemma {:induction false} RippleSound(w: nat, a: Tnum, b: Tnum, lo: nat, hi: nat, x: nat, y: nat, c: nat)
    requires a.Valid() && b.Valid() && lo <= c <= hi <= 1 && a.Has(x) && b.Has(y)
    ensures Ripple(w, a, b, lo, hi).Has(Trunc(w, x + y + c))
  {
    hide Trunc, AndNot, Tnum.Valid, Least, Most, Open;
    var n := x + y + c;
    TruncStep(w, n);
    if w == 0 {
      HasStep(Tnum(0, 0), 0);
      ZeroHas();
    } else {
      hide Ripple, Tnum.Has;
      var digit := x % 2 + y % 2 + c;
      DigitRange(a, b, lo, hi, x, y, c);
      CarryRange(a, b, lo, hi);
      SumStep(x, y, c);
      HalfMonotone(Least(a, b, lo), digit, Most(a, b, hi));
      RippleSound(w - 1, a.Half(), b.Half(), Least(a, b, lo) / 2, Most(a, b, hi) / 2, x / 2, y / 2, digit / 2);
      RippleStep(w, a, b, lo, hi);
      HasStep(Ripple(w, a, b, lo, hi), Trunc(w, n));
    }
  }

  lemma ZeroHas()
    ensures Tnum(0, 0).Valid() && Tnum(0, 0).Has(0) && forall z: nat :: Tnum(0, 0).Has(z) ==> z == 0
  {
    forall z: nat | Tnum(0, 0).Has(z) ensures z == 0 {
      ZeroMask(z);
    }
  }

  lemma {:induction false} ZeroMask(z: nat)
    ensures AndNot(z, 0) == z
  {
    if z > 0 {
      ZeroMask(z / 2);
    }
  }

  lemma HalfMonotone(x: nat, y: nat, z: nat)
    requires x <= y <= z
    ensures x / 2 <= y / 2 <= z / 2
  {
  }

  ghost predicate Carry(lo: nat, c: nat, hi: nat) {
    lo <= c <= hi
  }

  /** d contains every sum of members with a carry in range. */
  ghost predicate Covers(w: nat, a: Tnum, b: Tnum, lo: nat, hi: nat, d: Tnum) {
    forall x: nat, y: nat, c: nat :: a.Has(x) && b.Has(y) && Carry(lo, c, hi) ==> d.Has(Trunc(w, x + y + c))
  }

  /** A member of Half() extended by a least significant bit the tnum admits. */
  lemma Extend(a: Tnum, x: nat, bit: nat)
    requires a.Half().Has(x) && bit <= 1 && a.Valid()
    requires a.mask % 2 == 1 || bit == a.value % 2
    ensures a.Has(2 * x + bit)
  {
    hide AndNot, Tnum.Valid;
    ValidDigits(a);
    HasStep(a, 2 * x + bit);
  }

  /** A carry of least or greatest digits is reached by some choice of digits. */
  lemma ReachCarry(a: Tnum, b: Tnum, lo: nat, hi: nat, c: nat) returns (i: nat, j: nat, k: nat)
    requires a.Valid() && b.Valid() && lo <= hi <= 1
    requires Least(a, b, lo) / 2 <= c <= Most(a, b, hi) / 2
    ensures i <= 1 && j <= 1 && lo <= k <= hi && (i + j + k) / 2 == c
    ensures a.mask % 2 == 1 || i == a.value % 2
    ensures b.mask % 2 == 1 || j == b.value % 2
  {
    ValidDigits(a);
    ValidDigits(b);
    CarryRange(a, b, lo, hi);
    i, j, k := a.value % 2, b.value % 2, lo;
    if c != Least(a, b, lo) / 2 {
      i, j, k := i + a.mask % 2, j + b.mask % 2, hi;
    }
  }

  lemma CoversHalf(w: nat, a: Tnum, b: Tnum, lo: nat, hi: nat, d: Tnum)
    requires w > 0 && a.Valid() && b.Valid() && lo <= hi <= 1 && Covers(w, a, b, lo, hi, d)
    ensures Covers(w - 1, a.Half(), b.Half(), Least(a, b, lo) / 2, Most(a, b, hi) / 2, d.Half())
  {
    hide Trunc, AndNot, Tnum.Has, Tnum.Valid, Least, Most;
    forall x: nat, y: nat, c: nat |
      a.Half().Has(x) && b.Half().Has(y) && Carry(Least(a, b, lo) / 2, c, Most(a, b, hi) / 2)
      ensures d.Half().Has(Trunc(w - 1, x + y + c))
    {
      var i, j, k := ReachCarry(a, b, lo, hi, c);
      Extend(a, x, i);
      Extend(b, y, j);
      var n := (2 * x + i) + (2 * y + j) + k;
      assert Carry(lo, k, hi) && d.Has(Trunc(w, n));
      TruncStep(w, n);
      SumStep(2 * x + i, 2 * y + j, k);
      HasStep(d, Trunc(w, n));
    }
  }

  lemma CoversAt(w: nat, a: Tnum, b: Tnum, lo: nat, hi: nat, d: Tnum, x: nat, y: nat, c: nat)
    requires w > 0 && Covers(w, a, b, lo, hi, d) && a.Has(x) && b.Has(y) && lo <= c <= hi
    ensures d.mask % 2 == 1 || d.value % 2 == (x % 2 + y % 2 + c) % 2
  {
    hide Trunc, AndNot, Tnum.Has;
    assert Carry(lo, c, hi);
    TruncStep(w, x + y + c);
    SumStep(x, y, c);
    HasStep(d, Trunc(w, x + y + c));
  }

  /** A member with either end of the least significant bit's range. */
  lemma MemberWithBit(a: Tnum, high: bool) returns (x: nat)
    requires a.Valid()
    ensures a.Has(x) && x % 2 == if high then a.value % 2 + a.mask % 2 else a.value % 2
  {
    hide AndNot, Tnum.Has, Tnum.Valid;
    ValidDigits(a);
    ValidIsHas(a.Half());
    var bit := if high then a.value % 2 + a.mask % 2 else a.value % 2;
    Extend(a, a.value / 2, bit);
    x := 2 * (a.value / 2) + bit;
  }

  /** The least significant bit of a covering tnum is at least as open as the ripple's. */
  lemma CoversBit(w: nat, a: Tnum, b: Tnum, lo: nat, hi: nat, d: Tnum)
    requires w > 0 && a.Valid() && b.Valid() && lo <= hi <= 1 && Covers(w, a, b, lo, hi, d)
    ensures d.mask % 2 == 1 || (!Open(a, b, lo, hi) && d.value % 2 == Least(a, b, lo) % 2)
  {
    hide Trunc, AndNot, Tnum.Has, Tnum.Valid, Covers;
    ValidDigits(a);
    ValidDigits(b);
    var x0 := MemberWithBit(a, false);
    var x1 := MemberWithBit(a, true);
    var y0 := MemberWithBit(b, false);
    var y1 := MemberWithBit(b, true);
    CoversAt(w, a, b, lo, hi, d, x0, y0, lo);
    CoversAt(w, a, b, lo, hi, d, x1, y0, lo);
    CoversAt(w, a, b, lo, hi, d, x0, y1, lo);
    CoversAt(w, a, b, lo, hi, d, x1, y1, hi);
  }

  /** The ripple sum lies within every valid tnum that contains all sums. */
  lemma {:induction false} RippleBest(w: nat, a: Tnum, b: Tnum, lo: nat, hi: nat, d: Tnum, z: nat)
    requires a.Valid() && b.Valid() && lo <= hi <= 1 && d.Valid() && Covers(w, a, b, lo, hi, d)
    requires Ripple(w, a, b, lo, hi).Has(z)
    ensures d.Has(z)
  {
    hide Trunc, AndNot, Tnum.Has, Tnum.Valid, Least, Most, Open;
    if w == 0 {
      ValidIsHas(a);
      ValidIsHas(b);
      var n := a.value + b.value + lo;
      assert Carry(lo, lo, hi) && d.Has(Trunc(w, n));
      TruncStep(w, n);
      ZeroHas();
    } else {
      hide Ripple, Covers;
      var r := Ripple(w, a, b, lo, hi);
      HasStep(r, z);
      RippleStep(w, a, b, lo, hi);
      CarryRange(a, b, lo, hi);
      CoversHalf(w, a, b, lo, hi, d);
      ValidDigits(d);
      RippleBest(w - 1, a.Half(), b.Half(), Least(a, b, lo) / 2, Most(a, b, hi) / 2, d.Half(), z / 2);
      CoversBit(w, a, b, lo, hi, d);
      HasStep(d, z);
    }
  }

  // ----- tnum_add and tnum_sub are best abstractions -----

  /** t is valid, contains f(x, y) for all members, and lies within every other
      valid tnum that does. */
  ghost predicate Best(w: nat, a: Tnum, b: Tnum, f: (nat, nat) -> nat, t: Tnum) {
    t.Valid() && t.Fits(w) &&
    (forall x: nat, y: nat :: a.Has(x) && b.Has(y) ==> t.Has(f(x, y))) &&
    (forall d: Tnum, z: nat :: d.Valid() && ContainsAll(a, b, f, d) && t.Has(z) ==> d.Has(z))
  }

  ghost predicate ContainsAll(a: Tnum, b: Tnum, f: (nat, nat) -> nat, d: Tnum) {
    forall x: nat, y: nat :: a.Has(x) && b.Has(y) ==> d.Has(f(x, y))
  }

  lemma {:induction false} RippleFits(w: nat, a: Tnum, b: Tnum, lo: nat, hi: nat)
    ensures Ripple(w, a, b, lo, hi).Fits(w) && Ripple(w, a, b, lo, hi).Valid()
  {
    hide Least, Most, Open, AndNot;
    if w > 0 {
      hide Ripple;
      RippleFits(w - 1, a.Half(), b.Half(), Least(a, b, lo) / 2, Most(a, b, hi) / 2);
      RippleStep(w, a, b, lo, hi);
    }
  }

  function PlusMod(w: nat): (nat, nat) -> nat {
    (x: nat, y: nat) => Trunc(w, x + y)
  }

  function MinusMod(w: nat): (nat, nat) -> nat {
    (x: nat, y: nat) => Trunc(w, x - y)
  }

  lemma AddIsRipple(w: nat, a: Tnum, b: Tnum)
    requires a.Valid() && b.Valid() && a.Fits(w) && b.Fits(w)
    ensures Add(w, a, b) == Ripple(w, a, b, 0, 0)
  {
    hide Bitwise, AndNot, Tnum.Valid, Ripple;
    ModAdd2(a.mask + b.mask, a.value + b.value, Pow2(w));
    WordIsRipple(w, a, b, 0, 0);
  }

  /** tnum_add is the best abstraction of addition modulo 2^w. */
  lemma AddBest(w: nat, a: Tnum, b: Tnum)
    requires a.Valid() && b.Valid() && a.Fits(w) && b.Fits(w)
    ensures Best(w, a, b, PlusMod(w), Add(w, a, b))
  {
    hide Bitwise, AndNot, Tnum.Valid, Tnum.Has, Ripple, Trunc;
    AddIsRipple(w, a, b);
    RippleFits(w, a, b, 0, 0);
    var t := Add(w, a, b);
    forall x: nat, y: nat | a.Has(x) && b.Has(y) ensures t.Has(PlusMod(w)(x, y)) {
      RippleSound(w, a, b, 0, 0, x, y, 0);
    }
    forall d: Tnum, z: nat | d.Valid() && ContainsAll(a, b, PlusMod(w), d) && t.Has(z) ensures d.Has(z) {
      forall x: nat, y: nat, c: nat | a.Has(x) && b.Has(y) && Carry(0, c, 0) ensures d.Has(Trunc(w, x + y + c)) {
        assert d.Has(PlusMod(w)(x, y)) && c == 0;
      }
      assert Covers(w, a, b, 0, 0, d);
      RippleBest(w, a, b, 0, 0, d, z);
    }
  }

  /** ~b as a tnum. */
  function Negated(w: nat, b: Tnum): Tnum
    requires b.value + b.mask < Pow2(w)
  {
    Tnum(Pow2(w) - 1 - (b.value + b.mask), b.mask)
  }

  lemma {:induction false} HasFits(w: nat, t: Tnum, x: nat)
    requires t.Fits(w) && t.Has(x)
    ensures x < Pow2(w)
  {
    if w == 0 {
      ZeroMask(x);
    } else {
      HasStep(t, x);
      HasFits(w - 1, t.Half(), x / 2);
    }
  }

  lemma NegatedStep(w: nat, b: Tnum)
    requires w > 0 && b.Valid() && b.Fits(w) && b.value + b.mask < Pow2(w)
    ensures b.value / 2 + b.mask / 2 < Pow2(w - 1)
    ensures Negated(w, b).Half() == Negated(w - 1, b.Half())
    ensures Negated(w, b).value % 2 == 1 - (b.value % 2 + b.mask % 2)
  {
    ValidDigits(b);
    SumStep(b.value, b.mask, 0);
  }

  lemma NegatedMask(w: nat, b: Tnum)
    requires b.value + b.mask < Pow2(w)
    ensures Negated(w, b).mask == b.mask && Negated(w, b).Fits(w)
  {
  }

  lemma NegatedZero(b: Tnum)
    requires b.Fits(0)
    ensures b.value + b.mask < Pow2(0) && Negated(0, b) == b == Tnum(0, 0) && b.Has(0)
  {
    hide AndNot, Bitwise;
    ZeroHas();
  }

  lemma NegatedDigit(w: nat, b: Tnum, y: nat)
    requires w > 0 && b.Valid() && b.Fits(w) && b.value + b.mask < Pow2(w) && y < Pow2(w)
    requires b.value / 2 + b.mask / 2 < Pow2(w - 1)
    requires Negated(w - 1, b.Half()).Valid()
    requires Negated(w - 1, b.Half()).Has(Pow2(w - 1) - 1 - y / 2) <==> b.Half().Has(y / 2)
    ensures Negated(w, b).Valid()
    ensures Negated(w, b).Has(Pow2(w) - 1 - y) <==> b.Has(y)
  {
    hide AndNot, Bitwise, Tnum.Has, Tnum.Valid;
    NegatedMask(w, b);
    NegatedStep(w, b);
    ValidDigits(b);
    TopStep(w, y);
    hide Negated, Tnum.Fits, Pow2;
    HasStep(b, y);
    HasStep(Negated(w, b), Pow2(w) - 1 - y);
    ValidByDigits(Negated(w, b));
  }

  lemma {:induction false} NegatedHas(w: nat, b: Tnum, y: nat)
    requires b.Valid() && b.Fits(w) && b.value + b.mask < Pow2(w) && y < Pow2(w)
    ensures Negated(w, b).Valid() && Negated(w, b).Fits(w)
    ensures Negated(w, b).Has(Pow2(w) - 1 - y) <==> b.Has(y)
  {
    hide AndNot, Bitwise, Tnum.Has, Tnum.Valid, Negated;
    NegatedMask(w, b);
    if w == 0 {
      NegatedZero(b);
    } else {
      NegatedStep(w, b);
      ValidDigits(b);
      FitsHalf(w, b);
      NegatedHas(w - 1, b.Half(), y / 2);
      NegatedDigit(w, b, y);
    }
  }

  lemma FitsHalf(w: nat, t: Tnum)
    requires w > 0 && t.Fits(w)
    ensures t.Half().Fits(w - 1)
  {
  }

  lemma ValidByDigits(t: Tnum)
    ensures t.Valid() <==> t.Half().Valid() && (t.value % 2 == 0 || t.mask % 2 == 0)
  {
  }

  /** Subtraction is addition of the complement with carry one. */
  lemma SubIsRipple(w: nat, a: Tnum, b: Tnum)
    requires a.Valid() && b.Valid() && a.Fits(w) && b.Fits(w)
    ensures b.value + b.mask < Pow2(w) && Negated(w, b).Valid() && Negated(w, b).Fits(w)
    ensures Sub(w, a, b) == Ripple(w, a, Negated(w, b), 1, 1)
  {
    hide Bitwise, AndNot, Tnum.Valid, Tnum.Has, Ripple, Trunc, Masked, Sub, Pow2;
    ValidSum(w, b);
    ValidIsHas(a);
    ValidIsHas(b);
    var nb := Negated(w, b);
    NegatedHas(w, b, b.value);
    var dv := Trunc(w, a.value - b.value);
    var k := TruncSplit(w, a.value - b.value);
    assert (-k - 1) * Pow2(w) == -(k * Pow2(w)) - Pow2(w);
    TruncEqual(w, dv + a.mask, (a.value + a.mask) + (nb.value + nb.mask) + 1, -k - 1);
    TruncEqual(w, dv - b.mask, a.value + nb.value + 1, -k - 1);
    WordIsRipple(w, a, nb, 1, 1);
    RippleSound(w, a, nb, 1, 1, a.value, Pow2(w) - 1 - b.value, 1);
    TruncEqual(w, a.value + (Pow2(w) - 1 - b.value) + 1, a.value - b.value, 1);
    SubMasked(w, a, b, dv);
  }

  lemma SubMasked(w: nat, a: Tnum, b: Tnum, dv: nat)
    requires dv == Trunc(w, a.value - b.value)
    requires var t := Masked(Trunc(w, dv - b.mask), Trunc(w, dv + a.mask), a.mask, b.mask); t.Has(dv)
    ensures Sub(w, a, b) == Masked(Trunc(w, dv - b.mask), Trunc(w, dv + a.mask), a.mask, b.mask)
  {
    hide Bitwise, AndNot, Trunc;
  }

  /** tnum_sub is the best abstraction of subtraction modulo 2^w. */
  lemma SubBest(w: nat, a: Tnum, b: Tnum)
    requires a.Valid() && b.Valid() && a.Fits(w) && b.Fits(w)
    ensures Best(w, a, b, MinusMod(w), Sub(w, a, b))
  {
    hide Bitwise, AndNot, Tnum.Valid, Tnum.Has, Ripple, Trunc;
    SubIsRipple(w, a, b);
    var nb, t, top := Negated(w, b), Sub(w, a, b), Pow2(w) - 1;
    RippleFits(w, a, nb, 1, 1);
    forall x: nat, y: nat | a.Has(x) && b.Has(y) ensures t.Has(MinusMod(w)(x, y)) {
      HasFits(w, b, y);
      NegatedHas(w, b, y);
      RippleSound(w, a, nb, 1, 1, x, top - y, 1);
      TruncEqual(w, x + (top - y) + 1, x - y, 1);
    }
    forall d: Tnum, z: nat | d.Valid() && ContainsAll(a, b, MinusMod(w), d) && t.Has(z) ensures d.Has(z) {
      forall x: nat, y: nat, c: nat | a.Has(x) && nb.Has(y) && Carry(1, c, 1) ensures d.Has(Trunc(w, x + y + c)) {
        HasFits(w, nb, y);
        NegatedHas(w, b, top - y);
        assert d.Has(MinusMod(w)(x, top - y));
        TruncEqual(w, x + y + c, x - (top - y), 1);
      }
      assert Covers(w, a, nb, 1, 1, d);
      RippleBest(w, a, nb, 1, 1, d, z);
    }
  }
}
