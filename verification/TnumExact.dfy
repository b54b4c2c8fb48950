/** How much tnum_mul, tnum_shl and tnum_lshr know: exact results on known operands, and how
    sharp each step of the multiplication is. */
module TristateExact {
  import opened Bits
  import opened Tristate
  import opened TristateOps
  import opened TristateLoops

  // ----- low zero bits -----

  /** The low j bits of x are zero. */
  predicate Zeros(j: nat, x: nat) {
    j == 0 || (x % 2 == 0 && Zeros(j - 1, x / 2))
  }

  lemma {:induction false} ZerosMod(j: nat, x: nat)
    ensures Zeros(j, x) <==> Trunc(j, x) == 0
  {
    TruncStep(j, x);
    if j > 0 {
      hide Trunc;
      ZerosMod(j - 1, x / 2);
    }
  }

  lemma {:induction false} ZerosLess(j: nat, i: nat, x: nat)
    requires Zeros(j, x) && i <= j
    ensures Zeros(i, x)
  {
    if i > 0 {
      ZerosLess(j - 1, i - 1, x / 2);
    }
  }

  lemma {:induction false} ZerosNone(j: nat)
    ensures Zeros(j, 0)
  {
    if j > 0 {
      ZerosNone(j - 1);
    }
  }

  lemma {:induction false} ZerosBitwise(op: BinOp, j: nat, x: nat, y: nat)
    requires Zeros(j, x) && Zeros(j, y)
    ensures Zeros(j, Bitwise(op, x, y))
  {
    if j > 0 {
      ZerosBitwise(op, j - 1, x / 2, y / 2);
      BitwiseStep(op, x, y);
    }
  }

  lemma {:induction false} ZerosTrunc(j: nat, w: nat, x: nat)
    requires Zeros(j, x)
    ensures Zeros(j, Trunc(w, x))
  {
    TruncStep(w, x);
    ZerosNone(j);
    if j > 0 && w > 0 {
      hide Trunc;
      ZerosTrunc(j - 1, w - 1, x / 2);
    }
  }

  lemma {:induction false} ZerosAdd(j: nat, x: nat, y: nat)
    requires Zeros(j, x) && Zeros(j, y)
    ensures Zeros(j, x + y)
  {
    if j > 0 {
      ZerosAdd(j - 1, x / 2, y / 2);
      assert (x + y) / 2 == x / 2 + y / 2;
    }
  }

  lemma ZerosDouble(j: nat, w: nat, x: nat)
    requires Zeros(j, x)
    ensures Zeros(j + 1, Trunc(w, x * Pow2(1)))
  {
    assert Pow2(1) == 2;
    ZerosTrunc(j + 1, w, x * 2);
  }

  /** Adding a number with zero low bits leaves the low bits alone. */
  lemma {:induction false} ZerosXor(j: nat, w: nat, v: nat, m: nat)
    requires Zeros(j, m) && v < Pow2(w)
    ensures Zeros(j, Xor(Trunc(w, v + m), v))
  {
    TruncStep(w, v + m);
    if j > 0 {
      hide Trunc;
      BitwiseStep(XOR, Trunc(w, v + m), v);
      if w > 0 {
        ZerosXor(j - 1, w - 1, v / 2, m / 2);
        assert (v + m) / 2 == v / 2 + m / 2;
      } else {
        ZerosNone(j - 1);
        BitwiseZero(XOR);
      }
    }
  }

  // ----- known low bits of a product -----

  /** A sum of two tnums without known ones. */
  lemma AddMasks(w: nat, m: nat, p: nat)
    requires m < Pow2(w) && p < Pow2(w)
    ensures Add(w, Tnum(0, m), Tnum(0, p)) == Tnum(0, Or(Or(Trunc(w, m + p), m), p))
  {
    TruncSmall(w, 0);
    TruncSmall(w, Trunc(w, m + p));
    XorZero(Trunc(w, m + p));
    assert AndNot(0, Or(Or(Trunc(w, m + p), m), p)) == 0;
  }

  lemma {:induction false} XorZero(x: nat)
    ensures Xor(x, 0) == x && Or(x, 0) == x
  {
    if x > 0 {
      XorZero(x / 2);
    }
  }

  lemma MasksKnown(j: nat, w: nat, m: nat, p: nat)
    requires m < Pow2(w) && p < Pow2(w) && Zeros(j, m) && Zeros(j, p)
    ensures var r := Add(w, Tnum(0, m), Tnum(0, p)); r.value == 0 && Zeros(j, r.mask)
  {
    AddMasks(w, m, p);
    hide Trunc, Bitwise, Add;
    ZerosAdd(j, m, p);
    ZerosTrunc(j, w, m + p);
    ZerosBitwise(OR, j, Trunc(w, m + p), m);
    ZerosBitwise(OR, j, Or(Trunc(w, m + p), m), p);
  }

  lemma PartialKnown(w: nat, a: Tnum, b: Tnum, acc: Tnum, k: nat, j: nat)
    requires b.Fits(w) && acc.Fits(w) && acc.value == 0 && k <= j
    requires Zeros(k, a.mask) && Zeros(j, b.mask) && Zeros(j - k, b.value) && Zeros(j, acc.mask)
    ensures var r := Partial(w, a, b, acc); r.value == 0 && Zeros(j, r.mask)
  {
    hide Add, Bitwise, Tnum.Valid;
    OrFits(w, b);
    if a.value % 2 == 1 {
      MasksKnown(j, w, acc.mask, b.mask);
    } else if a.mask % 2 == 1 {
      ZerosBitwise(OR, j, b.value, b.mask);
      MasksKnown(j, w, acc.mask, Or(b.value, b.mask));
    }
  }

  lemma AddFits(w: nat, a: Tnum, b: Tnum)
    requires a.Valid() && b.Valid() && a.Fits(w) && b.Fits(w)
    ensures Add(w, a, b).Fits(w) && Add(w, a, b).Valid()
  {
    hide *;
    AddIsRipple(w, a, b);
    RippleFits(w, a, b, 0, 0);
  }

  lemma {:induction false} MaskValid(m: nat)
    ensures Tnum(0, m).Valid()
  {
    AndZeroLeft(m);
  }

  lemma {:induction false} AndZeroLeft(m: nat)
    ensures And(0, m) == 0
  {
    if m > 0 {
      AndZeroLeft(m / 2);
    }
  }

  lemma PartialFits(w: nat, a: Tnum, b: Tnum, acc: Tnum)
    requires b.Fits(w) && acc.Fits(w) && acc.Valid()
    ensures Partial(w, a, b, acc).Fits(w) && Partial(w, a, b, acc).Valid()
  {
    hide Add, Bitwise, Tnum.Valid, Tnum.Fits;
    OrFits(w, b);
    MaskValid(b.mask);
    MaskValid(Or(b.value, b.mask));
    AddFits(w, acc, Tnum(0, b.mask));
    AddFits(w, acc, Tnum(0, Or(b.value, b.mask)));
  }

  lemma ShiftFits(w: nat, b: Tnum)
    ensures LShift(w, b, 1).Fits(w)
  {
  }

  /** k low bits of a are known, j of b, and b was moved j - k to the left. */
  lemma {:induction false} LoopKnown(w: nat, a: Tnum, b: Tnum, acc: Tnum, k: nat, j: nat)
    requires b.Fits(w) && acc.Fits(w) && acc.Valid() && acc.value == 0 && k <= j
    requires Zeros(k, a.mask) && Zeros(j, b.mask) && Zeros(j - k, b.value) && Zeros(j, acc.mask)
    ensures var r := MulLoop(w, a, b, acc); r.value == 0 && Zeros(j, r.mask) && r.Fits(w) && r.Valid()
    decreases a.value + a.mask
  {
    hide Partial, Tnum.Valid, Tnum.Fits, Trunc;
    if a.value != 0 || a.mask != 0 {
      HalfShrinks(a);
      PartialKnown(w, a, b, acc, k, j);
      PartialFits(w, a, b, acc);
      ShiftFits(w, b);
      ZerosDouble(j, w, b.mask);
      ZerosLess(j + 1, j, LShift(w, b, 1).mask);
      ZerosDouble(j - k, w, b.value);
      var i := if k == 0 then 0 else k - 1;
      ZerosLess(j - k + 1, j - i, LShift(w, b, 1).value);
      LoopKnown(w, a.Half(), LShift(w, b, 1), Partial(w, a, b, acc), i, j);
    }
  }

  /** Where the low j bits of both operands are known, so are those of the product. */
  lemma MulKnownBits(w: nat, a: Tnum, b: Tnum, j: nat)
    requires a.Valid() && b.Valid() && a.Fits(w) && b.Fits(w)
    requires a.mask % Pow2(j) == 0 && b.mask % Pow2(j) == 0
    ensures Mul(w, a, b).mask % Pow2(j) == 0
  {
    ZerosMod(j, a.mask);
    ZerosMod(j, b.mask);
    ZerosNone(j);
    AndZeroLeft(0);
    LoopKnown(w, a, b, Tnum(0, 0), j, j);
    var known, r := Trunc(w, a.value * b.value), MulLoop(w, a, b, Tnum(0, 0));
    hide MulLoop, Bitwise, AndNot, Tnum.Valid;
    KnownPlus(w, known, r.mask, j);
    ZerosMod(j, Mul(w, a, b).mask);
  }

  lemma KnownPlus(w: nat, v: nat, m: nat, j: nat)
    requires v < Pow2(w) && m < Pow2(w) && Zeros(j, m)
    ensures Zeros(j, Add(w, Tnum(v, 0), Tnum(0, m)).mask)
  {
    hide Bitwise, AndNot;
    TruncSmall(w, m);
    TruncSmall(w, v);
    hide Trunc;
    ZerosXor(j, w, v, m);
    ZerosNone(j);
    var chi := Xor(Trunc(w, v + m), v);
    ZerosBitwise(OR, j, chi, 0);
    ZerosBitwise(OR, j, Or(chi, 0), m);
    assert m + v == v + m;
  }

  /** Known operands have a known product. */
  lemma MulKnown(w: nat, a: Tnum, b: Tnum)
    requires a.Valid() && b.Valid() && a.Fits(w) && b.Fits(w) && a.mask == 0 && b.mask == 0
    ensures Mul(w, a, b) == Tnum(Trunc(w, a.value * b.value), 0)
  {
    hide Mul, Tnum.Valid;
    ConstHas(a.value);
    ConstHas(b.value);
    MulSound(w, a, b, a.value, b.value);
    assert 0 % Pow2(w) == 0;
    MulKnownBits(w, a, b, w);
    TruncSmall(w, Mul(w, a, b).mask);
    ZeroMask(Trunc(w, a.value * b.value));
  }

  // ----- the steps of the multiplication are best abstractions -----

  /** All bits of x are bits of d. */
  predicate SubBits(x: nat, d: nat) {
    AndNot(x, d) == 0
  }

  lemma {:induction false} BitsOr(x: nat, y: nat, d: nat)
    requires SubBits(x, d) && SubBits(y, d)
    ensures SubBits(Or(x, y), d)
    decreases x + y
  {
    if x + y > 0 {
      BitsOr(x / 2, y / 2, d / 2);
      BitwiseStep(OR, x, y);
    }
  }

  lemma {:induction false} BitsOfOr(x: nat, y: nat, z: nat)
    requires SubBits(x, y)
    ensures SubBits(x, Or(y, z)) && SubBits(x, Or(z, y))
    decreases x
  {
    if x > 0 {
      BitsOfOr(x / 2, y / 2, z / 2);
      BitwiseStep(OR, y, z);
      BitwiseStep(OR, z, y);
    }
  }

  lemma {:induction false} BitsThrough(x: nat, y: nat, d: nat)
    requires SubBits(x, y) && SubBits(y, d)
    ensures SubBits(x, d)
    decreases x
  {
    if x > 0 {
      BitsThrough(x / 2, y / 2, d / 2);
    }
  }

  lemma {:induction false} BitsSelf(x: nat)
    ensures SubBits(x, x) && SubBits(0, x)
  {
    if x > 0 {
      BitsSelf(x / 2);
    }
  }

  /** A valid tnum that contains 0 has no known ones. */
  lemma ZeroMember(d: Tnum)
    requires d.Has(0)
    ensures d.value == 0 && forall x: nat :: d.Has(x) <==> SubBits(x, d.mask)
  {
    BitsSelf(d.mask);
  }

  /** The greatest member: every unknown bit set. */
  lemma {:induction false} TopHas(t: Tnum)
    requires t.Valid()
    ensures t.Has(t.value + t.mask) && Or(t.value, t.mask) == t.value + t.mask
    decreases t.value + t.mask
  {
    hide AndNot, Tnum.Has, Tnum.Valid;
    ZeroHas();
    BitwiseZero(OR);
    if t.value + t.mask > 0 {
      ValidDigits(t);
      TopHas(t.Half());
      HasStep(t, t.value + t.mask);
      BitwiseStep(OR, t.value, t.mask);
    }
  }

  lemma LeastHas(t: Tnum)
    requires t.Valid()
    ensures t.Has(t.value) && (t.mask % 2 == 1 ==> t.Has(t.value + 1))
  {
    ValidIsHas(t);
    ValidDigits(t);
    HasStep(t, t.value);
    HasStep(t, t.value + 1);
  }

  /** d contains whatever the current bit of a member of a can add to a member of acc. */
  ghost predicate HoldsSums(w: nat, a: Tnum, b: Tnum, acc: Tnum, d: Tnum) {
    forall s: nat, x: nat, y: nat :: acc.Has(s) && a.Has(x) && b.Has(y) ==> d.Has(Trunc(w, s + Excess(a, b, x, y)))
  }

  /** The best abstraction of these sums. */
  ghost predicate Sharp(w: nat, a: Tnum, b: Tnum, acc: Tnum, next: Tnum) {
    next.Valid() && next.Fits(w) && HoldsSums(w, a, b, acc, next) &&
    forall d: Tnum :: d.Valid() && HoldsSums(w, a, b, acc, d) ==> Within(next, d)
  }

  lemma SumAt(w: nat, a: Tnum, b: Tnum, acc: Tnum, d: Tnum, s: nat, x: nat, y: nat, e: int)
    requires HoldsSums(w, a, b, acc, d) && acc.Has(s) && a.Has(x) && b.Has(y) && e == Excess(a, b, x, y)
    ensures d.Has(Trunc(w, s + e))
  {
  }

  lemma ExcessIs(a: Tnum, b: Tnum, x: nat, y: nat)
    ensures x % 2 == 1 && a.value % 2 == 1 ==> Excess(a, b, x, y) == y - b.value
    ensures x % 2 == 1 && a.value % 2 == 0 ==> Excess(a, b, x, y) == y
    ensures x % 2 == 0 && a.value % 2 == 0 ==> Excess(a, b, x, y) == 0
  {
  }

  /** What a partial product tnum must contain: nothing, all of one side, or both sides. */
  lemma CornersHave(w: nat, a: Tnum, b: Tnum, acc: Tnum, d: Tnum, p: nat)
    requires a.Valid() && b.Valid() && acc.Valid() && acc.Fits(w) && acc.value == 0 && p < Pow2(w)
    requires HoldsSums(w, a, b, acc, d)
    requires if a.value % 2 == 1 then p == b.mask else a.mask % 2 == 1 && p == Or(b.value, b.mask)
    ensures d.Has(0) && d.Has(acc.mask) && d.Has(p) && d.Has(Trunc(w, acc.mask + p))
  {
    hide Trunc, Tnum.Has, Tnum.Valid, HoldsSums, Bitwise, Excess;
    LeastHas(a);
    LeastHas(b);
    LeastHas(acc);
    TopHas(acc);
    TopHas(b);
    ValidDigits(a);
    TruncSmall(w, 0);
    TruncSmall(w, acc.mask);
    TruncSmall(w, p);
    hide Pow2;
    var x, top := if a.value % 2 == 1 then a.value else a.value + 1, b.value + b.mask;
    ExcessIs(a, b, a.value, b.value);
    ExcessIs(a, b, x, top);
    SumAt(w, a, b, acc, d, 0, a.value, b.value, 0);
    SumAt(w, a, b, acc, d, acc.mask, a.value, b.value, 0);
    SumAt(w, a, b, acc, d, 0, x, top, p);
    SumAt(w, a, b, acc, d, acc.mask, x, top, p);
  }

  lemma SumWithin(w: nat, m: nat, p: nat, d: Tnum)
    requires m < Pow2(w) && p < Pow2(w)
    requires d.Has(0) && d.Has(m) && d.Has(p) && d.Has(Trunc(w, m + p))
    ensures Within(Add(w, Tnum(0, m), Tnum(0, p)), d)
  {
    AddMasks(w, m, p);
    ZeroMember(d);
    var t := Trunc(w, m + p);
    hide Trunc, Add;
    BitsOr(t, m, d.mask);
    BitsOr(Or(t, m), p, d.mask);
    var mask := Or(Or(t, m), p);
    forall z: nat | Tnum(0, mask).Has(z) ensures d.Has(z) {
      BitsThrough(z, mask, d.mask);
    }
  }

  lemma PartialHolds(w: nat, a: Tnum, b: Tnum, acc: Tnum)
    requires a.Valid() && b.Valid() && acc.Valid() && b.Fits(w) && acc.Fits(w)
    ensures HoldsSums(w, a, b, acc, Partial(w, a, b, acc))
  {
    var r := Partial(w, a, b, acc);
    hide Partial, Tnum.Has, Tnum.Valid, Trunc, Excess, Tnum.Fits;
    forall s: nat, x: nat, y: nat | acc.Has(s) && a.Has(x) && b.Has(y) ensures r.Has(Trunc(w, s + Excess(a, b, x, y))) {
      HasFits(w, acc, s);
      TruncSmall(w, s);
      PartialHas(w, a, b, acc, x, y, s);
    }
  }

  lemma AddedWithin(w: nat, a: Tnum, b: Tnum, acc: Tnum, d: Tnum, p: nat)
    requires a.Valid() && b.Valid() && acc.Valid() && acc.Fits(w) && acc.value == 0 && p < Pow2(w)
    requires HoldsSums(w, a, b, acc, d)
    requires if a.value % 2 == 1 then p == b.mask else a.mask % 2 == 1 && p == Or(b.value, b.mask)
    ensures Within(Add(w, acc, Tnum(0, p)), d)
  {
    CornersHave(w, a, b, acc, d, p);
    assert acc == Tnum(0, acc.mask);
    hide Tnum.Has, Tnum.Valid, Trunc, Add, Bitwise, HoldsSums, Within;
    SumWithin(w, acc.mask, p, d);
  }

  lemma PartialWithin(w: nat, a: Tnum, b: Tnum, acc: Tnum, d: Tnum)
    requires a.Valid() && b.Valid() && acc.Valid() && b.Fits(w) && acc.Fits(w) && acc.value == 0
    requires HoldsSums(w, a, b, acc, d)
    ensures Within(Partial(w, a, b, acc), d)
  {
    OrFits(w, b);
    hide Tnum.Has, Tnum.Valid, Add, Bitwise, HoldsSums, Within, Pow2;
    if a.value % 2 == 1 {
      AddedWithin(w, a, b, acc, d, b.mask);
    } else if a.mask % 2 == 1 {
      AddedWithin(w, a, b, acc, d, Or(b.value, b.mask));
    } else {
      NothingAdded(w, a, b, acc, d);
    }
  }

  /** Each partial product is added as sharply as any tnum could be. */
  lemma PartialSharp(w: nat, a: Tnum, b: Tnum, acc: Tnum)
    requires a.Valid() && b.Valid() && acc.Valid() && b.Fits(w) && acc.Fits(w) && acc.value == 0
    ensures Sharp(w, a, b, acc, Partial(w, a, b, acc)) && Partial(w, a, b, acc).value == 0
  {
    hide Partial, Tnum.Has, Tnum.Valid, HoldsSums, Within, Tnum.Fits;
    PartialFits(w, a, b, acc);
    PartialZero(w, a, b, acc);
    PartialHolds(w, a, b, acc);
    forall d: Tnum | d.Valid() && HoldsSums(w, a, b, acc, d) ensures Within(Partial(w, a, b, acc), d) {
      PartialWithin(w, a, b, acc, d);
    }
  }

  lemma PartialZero(w: nat, a: Tnum, b: Tnum, acc: Tnum)
    requires b.Fits(w) && acc.Fits(w) && acc.value == 0
    ensures Partial(w, a, b, acc).value == 0
  {
    hide Add, Bitwise;
    OrFits(w, b);
    AddMasks(w, acc.mask, b.mask);
    AddMasks(w, acc.mask, Or(b.value, b.mask));
  }

  lemma NothingAdded(w: nat, a: Tnum, b: Tnum, acc: Tnum, d: Tnum)
    requires a.Valid() && b.Valid() && acc.Valid() && acc.Fits(w) && a.value % 2 == 0 && a.mask % 2 == 0
    requires HoldsSums(w, a, b, acc, d)
    ensures Within(acc, d)
  {
    LeastHas(a);
    LeastHas(b);
    forall s: nat | acc.Has(s) ensures d.Has(s) {
      HasFits(w, acc, s);
      TruncSmall(w, s);
      SumAt(w, a, b, acc, d, s, a.value, b.value, 0);
    }
  }

  lemma {:induction false} WithinBoth(s: Tnum, t: Tnum)
    requires s.Valid() && t.Valid() && Within(s, t) && Within(t, s)
    ensures s == t
    decreases s.value + s.mask + t.value + t.mask
  {
    hide Tnum.Has, Tnum.Valid, Within;
    if s.value + s.mask + t.value + t.mask > 0 {
      ValidDigits(s);
      ValidDigits(t);
      WithinStep(s, t);
      WithinStep(t, s);
      WithinBoth(s.Half(), t.Half());
    }
  }

  /** r comes from acc by adding the partial products of a and b one after the other, each
      with the best abstraction of the sums. */
  ghost predicate Stepwise(w: nat, a: Tnum, b: Tnum, acc: Tnum, r: Tnum)
    decreases a.value + a.mask
  {
    if a.value == 0 && a.mask == 0 then r == acc
    else
      HalfShrinks(a);
      exists next :: Sharp(w, a, b, acc, next) && Stepwise(w, a.Half(), LShift(w, b, 1), next, r)
  }

  /** The loop of tnum_mul is the only result that is. */
  lemma {:induction false} LoopStepwise(w: nat, a: Tnum, b: Tnum, acc: Tnum, r: Tnum)
    requires a.Valid() && b.Valid() && acc.Valid() && b.Fits(w) && acc.Fits(w) && acc.value == 0
    ensures Stepwise(w, a, b, acc, r) <==> r == MulLoop(w, a, b, acc)
    decreases a.value + a.mask
  {
    hide Sharp, Partial, Tnum.Valid, Tnum.Fits, LShift;
    if a.value != 0 || a.mask != 0 {
      HalfShrinks(a);
      ValidDigits(a);
      var next := Partial(w, a, b, acc);
      PartialSharp(w, a, b, acc);
      PartialFits(w, a, b, acc);
      LeastHas(b);
      LShiftHas(w, b, b.value, 1);
      LoopStepwise(w, a.Half(), LShift(w, b, 1), next, r);
      forall other | Sharp(w, a, b, acc, other) ensures other == next {
        SharpUnique(w, a, b, acc, next, other);
      }
    }
  }

  lemma SharpUnique(w: nat, a: Tnum, b: Tnum, acc: Tnum, s: Tnum, t: Tnum)
    requires Sharp(w, a, b, acc, s) && Sharp(w, a, b, acc, t)
    ensures s == t
  {
    hide Tnum.Valid, Within, HoldsSums;
    WithinBoth(s, t);
  }

  /** tnum_mul is the best sum of the product of the known ones and of a stepwise best sum of
      the partial products. */
  lemma MulStepwise(w: nat, a: Tnum, b: Tnum, r: Tnum)
    requires a.Valid() && b.Valid() && a.Fits(w) && b.Fits(w)
    ensures r == Mul(w, a, b) <==>
            exists rest :: Stepwise(w, a, b, Tnum(0, 0), rest) &&
              Best(w, Tnum(Trunc(w, a.value * b.value), 0), rest, PlusMod(w), r)
  {
    hide Tnum.Valid, Trunc, Add, MulLoop, Stepwise, Best;
    ZeroHas();
    var known, rest := Tnum(Trunc(w, a.value * b.value), 0), MulLoop(w, a, b, Tnum(0, 0));
    forall t ensures Stepwise(w, a, b, Tnum(0, 0), t) <==> t == rest {
      LoopStepwise(w, a, b, Tnum(0, 0), t);
    }
    ZerosNone(0);
    LoopKnown(w, a, b, Tnum(0, 0), 0, 0);
    ConstHas(known.value);
    AddBest(w, known, rest);
    forall t | Best(w, known, rest, PlusMod(w), t) ensures t == Add(w, known, rest) {
      BestUnique(w, known, rest, PlusMod(w), t, Add(w, known, rest));
    }
  }

  lemma BestUnique(w: nat, a: Tnum, b: Tnum, f: (nat, nat) -> nat, s: Tnum, t: Tnum)
    requires Best(w, a, b, f, s) && Best(w, a, b, f, t)
    ensures s == t
  {
    hide Tnum.Valid, Tnum.Has;
    assert ContainsAll(a, b, f, s) && ContainsAll(a, b, f, t);
    WithinBoth(s, t);
  }

  // ----- shifts by a known amount -----

  lemma ShiftTwice(w: nat, a: Tnum, m: nat, n: nat)
    ensures LShift(w, LShift(w, a, m), n) == LShift(w, a, m + n)
  {
    TruncShift(w, a.value, m, n);
    TruncShift(w, a.mask, m, n);
  }

  lemma ShiftNone(w: nat, a: Tnum)
    requires a.Fits(w)
    ensures LShift(w, a, 0) == a && RShift(a, 0) == a
  {
    assert Pow2(0) == 1;
    TruncSmall(w, a.value);
    TruncSmall(w, a.mask);
  }

  lemma {:induction false} ShlLoopKnown(w: nat, n: nat, a: Tnum, b: Tnum, amt: nat)
    requires a.Fits(w) && b.mask == 0
    ensures ShlLoop(w, n, a, b, amt) == LShift(w, a, amt * Trunc(n, b.value))
    decreases n
  {
    hide LShift, Union, Trunc, Tnum.Fits;
    ShiftNone(w, a);
    if n == 0 {
      TruncStep(0, b.value);
      assert amt * 0 == 0;
    } else {
      HalfIsShift(b);
      LowBits(amt, b.value, n);
      var m, rest := amt * (b.value % 2), (2 * amt) * Trunc(n - 1, b.value / 2);
      LShiftFits(w, a, amt);
      ShlLoopKnown(w, n - 1, if b.value % 2 == 1 then LShift(w, a, amt) else a, b.Half(), 2 * amt);
      ShiftTwice(w, a, amt, rest);
      assert b.value % 2 == 1 ==> m == amt;
      assert b.value % 2 == 0 ==> m == 0;
    }
  }

  lemma LShiftFits(w: nat, a: Tnum, s: nat)
    ensures LShift(w, a, s).Fits(w)
  {
  }

  /** A left shift by a known amount is the fixed shift by that amount modulo 2^k. */
  lemma ShlKnown(w: nat, a: Tnum, b: Tnum, k: nat)
    requires a.Fits(w) && b.mask == 0 && k <= 6
    ensures Shl(w, a, b, Pow2(k)) == LShift(w, a, b.value % Pow2(k))
  {
    AmountKnown(b, k);
    var s := b.value % Pow2(k);
    hide Trunc, Pow2, LShift, ShlLoop, AndT;
    ShlLoopKnown(w, 6, a, Tnum(s, 0), 1);
    assert 1 * Trunc(6, s) == s;
  }

  lemma AmountKnown(b: Tnum, k: nat)
    requires b.mask == 0 && k <= 6
    ensures var s := b.value % Pow2(k); AndT(b, Tnum(Pow2(k) - 1, 0)) == Tnum(s, 0) && Trunc(6, s) == s
  {
    SixBits(b.value, k);
    assert Trunc(k, b.value) == b.value % Pow2(k);
    hide Trunc;
    AndMask(k, b.value);
    var v, c := b.value, Pow2(k) - 1;
    hide Pow2;
    AndKnown(v, c);
  }

  lemma AndKnown(v: nat, c: nat)
    ensures AndT(Tnum(v, 0), Tnum(c, 0)) == Tnum(And(v, c), 0)
  {
    hide AndNot;
    XorZero(v);
    XorZero(c);
    AndNotSelf(And(v, c));
  }

  lemma {:induction false} AndNotSelf(x: nat)
    ensures AndNot(x, x) == 0
  {
    if x > 0 {
      AndNotSelf(x / 2);
    }
  }

  lemma {:induction false} LshrLoopKnown(n: nat, a: Tnum, b: Tnum, amt: nat)
    requires b.mask == 0
    ensures LshrLoop(n, a, b, amt) == Tnum(Lowered(a.value, amt, b.value, n), Lowered(a.mask, amt, b.value, n))
    decreases n
  {
    hide Lowered, Union, Down;
    LoweredStep(a.value, amt, b.value, n);
    LoweredStep(a.mask, amt, b.value, n);
    if n > 0 {
      LshrUnfold(n, a, b, amt);
      DownNone(a.value);
      DownNone(a.mask);
      hide LshrLoop;
      LshrLoopKnown(n - 1, if b.value % 2 == 1 then RShift(a, amt) else a, b.Half(), 2 * amt);
    }
  }

  lemma DownNone(x: nat)
    ensures Down(x, 0) == x
  {
    assert Pow2(0) == 1;
  }

  /** A right shift by a known amount likewise. */
  lemma LshrKnown(a: Tnum, b: Tnum, k: nat)
    requires b.mask == 0 && k <= 6
    ensures Lshr(a, b, Pow2(k)) == RShift(a, b.value % Pow2(k))
  {
    AmountKnown(b, k);
    var s := b.value % Pow2(k);
    hide Trunc, Pow2, LshrLoop, AndT, Down;
    LshrLoopKnown(6, a, Tnum(s, 0), 1);
    assert 1 * Trunc(6, s) == s;
  }

  // ----- the steps of the shifts are best abstractions -----

  /** Every member of a truncated tnum comes from a member. */
  lemma {:induction false} TruncOnto(w: nat, t: Tnum, z: nat) returns (x: nat)
    requires t.Valid() && Tnum(Trunc(w, t.value), Trunc(w, t.mask)).Has(z)
    ensures t.Has(x) && Trunc(w, x) == z
  {
    hide AndNot, Bitwise, Tnum.Has, Tnum.Valid, Trunc;
    TruncStep(w, t.value);
    TruncStep(w, t.mask);
    if w == 0 {
      ZeroHas();
      ValidIsHas(t);
      x := t.value;
      TruncStep(w, x);
    } else {
      ValidDigits(t);
      HasStep(Tnum(Trunc(w, t.value), Trunc(w, t.mask)), z);
      var y := TruncOnto(w - 1, t.Half(), z / 2);
      x := 2 * y + z % 2;
      Extend(t, y, z % 2);
      TruncStep(w, x);
    }
  }

  lemma {:induction false} ScaleOnto(t: Tnum, s: nat, z: nat) returns (x: nat)
    requires t.Valid() && Tnum(t.value * Pow2(s), t.mask * Pow2(s)).Has(z)
    ensures t.Has(x) && z == x * Pow2(s)
  {
    hide AndNot, Bitwise, Tnum.Has, Tnum.Valid;
    if s == 0 {
      assert Pow2(0) == 1;
      x := z;
    } else {
      ScaleStep(t.value, s);
      ScaleStep(t.mask, s);
      HasStep(Tnum(t.value * Pow2(s), t.mask * Pow2(s)), z);
      x := ScaleOnto(t, s - 1, z / 2);
      assert x * Pow2(s) == 2 * (x * Pow2(s - 1));
    }
  }

  /** The fixed shifts contain nothing but shifted members. */
  lemma LShiftOnto(w: nat, t: Tnum, s: nat, z: nat) returns (x: nat)
    requires t.Valid() && LShift(w, t, s).Has(z)
    ensures t.Has(x) && Trunc(w, x * Pow2(s)) == z
  {
    ValidIsHas(t);
    ScaleHas(t, t.value, s);
    hide AndNot, Bitwise, Tnum.Has, Tnum.Valid, Trunc;
    var y := TruncOnto(w, Tnum(t.value * Pow2(s), t.mask * Pow2(s)), z);
    x := ScaleOnto(t, s, y);
  }

  lemma {:induction false} RShiftOnto(t: Tnum, s: nat, z: nat) returns (x: nat)
    requires t.Valid() && RShift(t, s).Has(z)
    ensures t.Has(x) && Down(x, s) == z
    decreases s
  {
    hide AndNot, Bitwise, Tnum.Has, Tnum.Valid;
    if s == 0 {
      assert Pow2(0) == 1;
      x := z;
    } else {
      ValidDigits(t);
      DivStep(t.value, s);
      DivStep(t.mask, s);
      var y := RShiftOnto(t.Half(), s - 1, z);
      x := 2 * y + t.value % 2;
      Extend(t, y, t.value % 2);
      DivStep(x, s);
    }
  }

  /** s holds exactly what g makes of the members of a. */
  ghost predicate ImageOf(a: Tnum, g: nat -> nat, s: Tnum) {
    (forall x: nat :: a.Has(x) ==> s.Has(g(x))) && forall z: nat :: s.Has(z) ==> exists x: nat :: a.Has(x) && g(x) == z
  }

  /** d contains every member of a, moved by g where the current bit of a member of b is set. */
  ghost predicate HoldsMoved(a: Tnum, b: Tnum, g: nat -> nat, d: Tnum) {
    forall x: nat, y: nat :: a.Has(x) && b.Has(y) ==> d.Has(if y % 2 == 1 then g(x) else x)
  }

  /** The best abstraction of these. */
  ghost predicate SharpMove(a: Tnum, b: Tnum, g: nat -> nat, next: Tnum) {
    next.Valid() && HoldsMoved(a, b, g, next) &&
    forall d: Tnum :: d.Valid() && HoldsMoved(a, b, g, d) ==> Within(next, d)
  }

  function LeftBy(w: nat, amt: nat): nat -> nat {
    (x: nat) => Trunc(w, x * Pow2(amt))
  }

  function RightBy(amt: nat): nat -> nat {
    (x: nat) => Down(x, amt)
  }

  /** A step that keeps a, replaces it by the moved s, or joins the two. */
  function Choose(a: Tnum, s: Tnum, b: Tnum): Tnum {
    if b.value % 2 == 1 then s else if b.mask % 2 == 1 then Union(a, s) else a
  }

  lemma ChooseHolds(a: Tnum, s: Tnum, b: Tnum, g: nat -> nat)
    requires a.Valid() && b.Valid() && s.Valid() && ImageOf(a, g, s)
    ensures Choose(a, s, b).Valid() && HoldsMoved(a, b, g, Choose(a, s, b))
  {
    hide Tnum.Has, Tnum.Valid, Union;
    ValidDigits(b);
    UnionJoin(a, s, a, 0);
    forall x: nat, y: nat | a.Has(x) && b.Has(y) ensures Choose(a, s, b).Has(if y % 2 == 1 then g(x) else x) {
      HasStep(b, y);
      UnionJoin(a, s, a, x);
      UnionJoin(a, s, a, g(x));
    }
  }

  lemma ChooseLeast(a: Tnum, s: Tnum, b: Tnum, g: nat -> nat, d: Tnum)
    requires a.Valid() && b.Valid() && s.Valid() && d.Valid() && ImageOf(a, g, s) && HoldsMoved(a, b, g, d)
    ensures Within(Choose(a, s, b), d)
  {
    hide Tnum.Has, Tnum.Valid, Union;
    ValidDigits(b);
    LeastHas(b);
    if b.value % 2 == 0 {
      forall x: nat | a.Has(x) ensures d.Has(x) {
        assert a.Has(x) && b.Has(b.value);
      }
    }
    if b.value % 2 == 1 || b.mask % 2 == 1 {
      var y := if b.value % 2 == 1 then b.value else b.value + 1;
      forall z: nat | s.Has(z) ensures d.Has(z) {
        var x: nat :| a.Has(x) && g(x) == z;
        assert a.Has(x) && b.Has(y);
      }
    }
    forall z: nat | Choose(a, s, b).Has(z) ensures d.Has(z) {
      UnionJoin(a, s, d, z);
    }
  }

  /** If s is exactly what moving makes of a, the step is the best abstraction. */
  lemma ChooseSharp(a: Tnum, s: Tnum, b: Tnum, g: nat -> nat)
    requires a.Valid() && b.Valid() && s.Valid() && ImageOf(a, g, s)
    ensures SharpMove(a, b, g, Choose(a, s, b))
  {
    hide Tnum.Has, Tnum.Valid, Choose, HoldsMoved, ImageOf, Within;
    ChooseHolds(a, s, b, g);
    forall d: Tnum | d.Valid() && HoldsMoved(a, b, g, d) ensures Within(Choose(a, s, b), d) {
      ChooseLeast(a, s, b, g, d);
    }
  }

  lemma ShlImage(w: nat, a: Tnum, amt: nat)
    requires a.Valid()
    ensures LShift(w, a, amt).Valid() && ImageOf(a, LeftBy(w, amt), LShift(w, a, amt))
  {
    hide Tnum.Has, Tnum.Valid, Trunc, LShift, Pow2;
    var s, g := LShift(w, a, amt), LeftBy(w, amt);
    LeastHas(a);
    LShiftHas(w, a, a.value, amt);
    forall x: nat | a.Has(x) ensures s.Has(g(x)) {
      LShiftHas(w, a, x, amt);
    }
    forall z: nat | s.Has(z) ensures exists x: nat :: a.Has(x) && g(x) == z {
      var x := LShiftOnto(w, a, amt, z);
      assert a.Has(x) && g(x) == z;
    }
  }

  lemma ShlSharp(w: nat, a: Tnum, b: Tnum, amt: nat)
    requires a.Valid() && b.Valid()
    ensures SharpMove(a, b, LeftBy(w, amt), Choose(a, LShift(w, a, amt), b))
  {
    hide *;
    ShlImage(w, a, amt);
    ChooseSharp(a, LShift(w, a, amt), b, LeftBy(w, amt));
  }

  lemma LshrImage(a: Tnum, amt: nat)
    requires a.Valid()
    ensures RShift(a, amt).Valid() && ImageOf(a, RightBy(amt), RShift(a, amt))
  {
    hide Tnum.Has, Tnum.Valid, RShift, Tnum.Fits, Pow2;
    var w := WidthOf(a);
    var s, g := RShift(a, amt), RightBy(amt);
    LeastHas(a);
    RShiftHas(w, a, a.value, amt);
    forall x: nat | a.Has(x) ensures s.Has(g(x)) {
      RShiftHas(w, a, x, amt);
    }
    forall z: nat | s.Has(z) ensures exists x: nat :: a.Has(x) && g(x) == z {
      var x := RShiftOnto(a, amt, z);
      assert a.Has(x) && g(x) == z;
    }
  }

  lemma LshrSharp(a: Tnum, b: Tnum, amt: nat)
    requires a.Valid() && b.Valid()
    ensures SharpMove(a, b, RightBy(amt), Choose(a, RShift(a, amt), b))
  {
    hide *;
    LshrImage(a, amt);
    ChooseSharp(a, RShift(a, amt), b, RightBy(amt));
  }

  lemma {:induction false} PowerAbove(n: nat)
    ensures n < Pow2(n)
  {
    if n > 0 {
      PowerAbove(n - 1);
    }
  }

  lemma {:induction false} PowerGrows(m: nat, n: nat)
    requires m <= n
    ensures Pow2(m) <= Pow2(n)
  {
    if m < n {
      PowerGrows(m, n - 1);
    }
  }

  /** Some width is large enough. */
  lemma WidthOf(a: Tnum) returns (w: nat)
    ensures a.Fits(w)
  {
    w := a.value + a.mask;
    PowerAbove(a.value);
    PowerAbove(a.mask);
    PowerGrows(a.value, w);
    PowerGrows(a.mask, w);
  }

  lemma MoveUnique(a: Tnum, b: Tnum, g: nat -> nat, s: Tnum, t: Tnum)
    requires SharpMove(a, b, g, s) && SharpMove(a, b, g, t)
    ensures s == t
  {
    hide Tnum.Valid, Within, HoldsMoved;
    WithinBoth(s, t);
  }

  /** r comes from a by n steps, each the best abstraction of moving by the next bit of b. */
  ghost predicate ShlStepwise(w: nat, n: nat, a: Tnum, b: Tnum, amt: nat, r: Tnum)
    decreases n
  {
    if n == 0 then r == a
    else exists next :: SharpMove(a, b, LeftBy(w, amt), next) && ShlStepwise(w, n - 1, next, b.Half(), 2 * amt, r)
  }

  ghost predicate LshrStepwise(n: nat, a: Tnum, b: Tnum, amt: nat, r: Tnum)
    decreases n
  {
    if n == 0 then r == a
    else exists next :: SharpMove(a, b, RightBy(amt), next) && LshrStepwise(n - 1, next, b.Half(), 2 * amt, r)
  }

  lemma ShlStepIs(w: nat, n: nat, a: Tnum, b: Tnum, amt: nat)
    requires n > 0 && b.Valid()
    ensures ShlLoop(w, n, a, b, amt) == ShlLoop(w, n - 1, Choose(a, LShift(w, a, amt), b), b.Half(), 2 * amt)
  {
    HalfIsShift(b);
    ValidDigits(b);
    hide LShift, Union, Tnum.Valid;
  }

  lemma ChooseFits(w: nat, a: Tnum, s: Tnum, b: Tnum)
    requires a.Fits(w) && s.Fits(w)
    ensures Choose(a, s, b).Fits(w)
  {
    UnionFits(w, a, s);
  }

  /** The loop of tnum_shl is the only result of such steps. */
  lemma {:induction false} ShlLoopStepwise(w: nat, n: nat, a: Tnum, b: Tnum, amt: nat, r: Tnum)
    requires a.Valid() && a.Fits(w) && b.Valid()
    ensures ShlStepwise(w, n, a, b, amt, r) <==> r == ShlLoop(w, n, a, b, amt)
    decreases n
  {
    if n > 0 {
      var next, g := Choose(a, LShift(w, a, amt), b), LeftBy(w, amt);
      ShlSharp(w, a, b, amt);
      LShiftFits(w, a, amt);
      ChooseFits(w, a, LShift(w, a, amt), b);
      SharpValid(a, b, g, next);
      ValidDigits(b);
      ShlStepIs(w, n, a, b, amt);
      hide SharpMove, LeftBy, Choose, LShift, ShlLoop, Tnum.Valid, Tnum.Fits;
      ShlLoopStepwise(w, n - 1, next, b.Half(), 2 * amt, r);
      forall t | SharpMove(a, b, g, t) ensures t == next {
        MoveUnique(a, b, g, t, next);
      }
    }
  }

  lemma SharpValid(a: Tnum, b: Tnum, g: nat -> nat, next: Tnum)
    requires SharpMove(a, b, g, next)
    ensures next.Valid()
  {
  }

  lemma LshrStepIs(n: nat, a: Tnum, b: Tnum, amt: nat)
    requires n > 0 && b.Valid()
    ensures LshrLoop(n, a, b, amt) == LshrLoop(n - 1, Choose(a, RShift(a, amt), b), b.Half(), 2 * amt)
  {
    HalfIsShift(b);
    ValidDigits(b);
    hide RShift, Union, Tnum.Valid;
  }

  /** And likewise that of tnum_lshr. */
  lemma {:induction false} LshrLoopStepwise(n: nat, a: Tnum, b: Tnum, amt: nat, r: Tnum)
    requires a.Valid() && b.Valid()
    ensures LshrStepwise(n, a, b, amt, r) <==> r == LshrLoop(n, a, b, amt)
    decreases n
  {
    if n > 0 {
      var next, g := Choose(a, RShift(a, amt), b), RightBy(amt);
      LshrSharp(a, b, amt);
      SharpValid(a, b, g, next);
      ValidDigits(b);
      LshrStepIs(n, a, b, amt);
      hide SharpMove, RightBy, Choose, RShift, LshrLoop, Tnum.Valid;
      LshrLoopStepwise(n - 1, next, b.Half(), 2 * amt, r);
      forall t | SharpMove(a, b, g, t) ensures t == next {
        MoveUnique(a, b, g, t, next);
      }
    }
  }
}
