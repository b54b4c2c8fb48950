/** The remaining tnum operations: bitwise operators and joins by bits, and
    multiplication and variable shifts by their loops. */
module TristateOps {
  import opened Bits
  import opened Tristate

  function AndT(a: Tnum, b: Tnum): Tnum {
    var v := And(a.value, b.value);
    Tnum(v, AndNot(And(Or(a.value, a.mask), Or(b.value, b.mask)), v))
  }

  function OrT(a: Tnum, b: Tnum): Tnum {
    var v := Or(a.value, b.value);
    Tnum(v, AndNot(Or(a.mask, b.mask), v))
  }

  function XorT(a: Tnum, b: Tnum): Tnum {
    var mu := Or(a.mask, b.mask);
    Tnum(AndNot(Xor(a.value, b.value), mu), mu)
  }

  function OpT(op: BinOp, a: Tnum, b: Tnum): Tnum {
    match op
    case AND => AndT(a, b)
    case OR => OrT(a, b)
    case XOR => XorT(a, b)
  }

  function Intersect(a: Tnum, b: Tnum): Tnum {
    var mu := And(a.mask, b.mask);
    Tnum(AndNot(Or(a.value, b.value), mu), mu)
  }

  function Union(a: Tnum, b: Tnum): Tnum {
    var mu := Or(Or(a.mask, b.mask), Xor(a.value, b.value));
    Tnum(AndNot(Or(a.value, b.value), mu), mu)
  }

  /** tnum_in */
  predicate In(a: Tnum, b: Tnum) {
    AndNot(b.mask, a.mask) == 0 && a.value == AndNot(b.value, a.mask)
  }

  // ----- bitwise operators -----

  /** The digit of a tnum: 0, 1, or 2 for unknown. */
  function Digit(t: Tnum): nat {
    if t.mask % 2 == 1 then 2 else t.value % 2
  }

  lemma DigitHas(t: Tnum, x: nat)
    requires t.Valid()
    ensures t.Has(x) <==> (Digit(t) == 2 || Digit(t) == x % 2) && t.Half().Has(x / 2)
  {
    hide AndNot, Tnum.Valid, Tnum.Has;
    HasStep(t, x);
    ValidDigits(t);
  }

  function OpDigit(op: BinOp, i: nat, j: nat): nat {
    match op
    case AND => if i == 0 || j == 0 then 0 else if i == 1 && j == 1 then 1 else 2
    case OR => if i == 1 || j == 1 then 1 else if i == 0 && j == 0 then 0 else 2
    case XOR => if i == 2 || j == 2 then 2 else Bit(XOR, i, j)
  }

  lemma OpStep(op: BinOp, a: Tnum, b: Tnum)
    requires a.Valid() && b.Valid()
    ensures Steps(op, a, b)
  {
    match op
    case AND => AndStep(a, b);
    case OR => OrStep(a, b);
    case XOR => XorStep(a, b);
  }

  /** One binary digit of an operator: the halves of the result are the result on the halves. */
  predicate Steps(op: BinOp, a: Tnum, b: Tnum) {
    var t := OpT(op, a, b);
    t.Half() == OpT(op, a.Half(), b.Half()) && Digit(t) == OpDigit(op, Digit(a), Digit(b)) &&
    (t.value % 2 == 0 || t.mask % 2 == 0)
  }

  lemma AndStep(a: Tnum, b: Tnum)
    requires a.Valid() && b.Valid()
    ensures Steps(AND, a, b)
  {
    hide Tnum.Valid, Tnum.Has;
    ValidDigits(a);
    ValidDigits(b);
  }

  lemma OrStep(a: Tnum, b: Tnum)
    requires a.Valid() && b.Valid()
    ensures Steps(OR, a, b)
  {
    hide Tnum.Valid, Tnum.Has;
    ValidDigits(a);
    ValidDigits(b);
  }

  lemma XorStep(a: Tnum, b: Tnum)
    requires a.Valid() && b.Valid()
    ensures Steps(XOR, a, b)
  {
    hide Tnum.Valid, Tnum.Has;
    ValidDigits(a);
    ValidDigits(b);
  }

  lemma BitwiseStep(op: BinOp, x: nat, y: nat)
    ensures Bitwise(op, x, y) % 2 == Bit(op, x % 2, y % 2) && Bitwise(op, x, y) / 2 == Bitwise(op, x / 2, y / 2)
  {
  }

  lemma OpZero(op: BinOp)
    ensures OpT(op, Tnum(0, 0), Tnum(0, 0)) == Tnum(0, 0)
  {
  }

  /** Every result on members is a member of the result. */
  lemma {:induction false} OpSound(op: BinOp, a: Tnum, b: Tnum, x: nat, y: nat)
    requires a.Valid() && b.Valid() && a.Has(x) && b.Has(y)
    ensures OpT(op, a, b).Valid() && OpT(op, a, b).Has(Bitwise(op, x, y))
    decreases a.value + a.mask + b.value + b.mask
  {
    hide Bitwise, AndNot, Tnum.Valid, Tnum.Has, OpT;
    if a.value + a.mask + b.value + b.mask == 0 {
      ZeroHas();
      OpZero(op);
      BitwiseZero(op);
    } else {
      var t := OpT(op, a, b);
      ValidDigits(a);
      ValidDigits(b);
      DigitHas(a, x);
      DigitHas(b, y);
      OpSound(op, a.Half(), b.Half(), x / 2, y / 2);
      OpStep(op, a, b);
      ValidByDigits(t);
      BitwiseStep(op, x, y);
      DigitHas(t, Bitwise(op, x, y));
    }
  }

  lemma BitwiseZero(op: BinOp)
    ensures Bitwise(op, 0, 0) == 0
  {
  }

  function OpFun(op: BinOp): (nat, nat) -> nat {
    (x: nat, y: nat) => Bitwise(op, x, y)
  }

  lemma OpCoversHalf(op: BinOp, a: Tnum, b: Tnum, d: Tnum)
    requires a.Valid() && b.Valid() && d.Valid() && ContainsAll(a, b, OpFun(op), d)
    ensures ContainsAll(a.Half(), b.Half(), OpFun(op), d.Half())
  {
    hide Bitwise, AndNot, Tnum.Valid, Tnum.Has;
    ValidDigits(a);
    ValidDigits(b);
    forall x: nat, y: nat | a.Half().Has(x) && b.Half().Has(y) ensures d.Half().Has(OpFun(op)(x, y)) {
      Extend(a, x, a.value % 2);
      Extend(b, y, b.value % 2);
      var x', y' := 2 * x + a.value % 2, 2 * y + b.value % 2;
      assert d.Has(OpFun(op)(x', y'));
      BitwiseStep(op, x', y');
      DigitHas(d, Bitwise(op, x', y'));
    }
  }

  lemma OpCoversDigit(op: BinOp, a: Tnum, b: Tnum, d: Tnum)
    requires a.Valid() && b.Valid() && d.Valid() && ContainsAll(a, b, OpFun(op), d)
    ensures Digit(d) == 2 || Digit(d) == OpDigit(op, Digit(a), Digit(b))
  {
    hide Bitwise, AndNot, Tnum.Valid, Tnum.Has, ContainsAll;
    ValidDigits(a);
    ValidDigits(b);
    var x0 := MemberWithBit(a, false);
    var x1 := MemberWithBit(a, true);
    var y0 := MemberWithBit(b, false);
    var y1 := MemberWithBit(b, true);
    OpCoversAt(op, a, b, d, x0, y0);
    OpCoversAt(op, a, b, d, x0, y1);
    OpCoversAt(op, a, b, d, x1, y0);
    OpCoversAt(op, a, b, d, x1, y1);
  }

  lemma OpCoversAt(op: BinOp, a: Tnum, b: Tnum, d: Tnum, x: nat, y: nat)
    requires d.Valid() && ContainsAll(a, b, OpFun(op), d) && a.Has(x) && b.Has(y)
    ensures Digit(d) == 2 || Digit(d) == Bit(op, x % 2, y % 2)
  {
    hide Bitwise, AndNot, Tnum.Valid, Tnum.Has;
    assert d.Has(OpFun(op)(x, y));
    BitwiseStep(op, x, y);
    DigitHas(d, Bitwise(op, x, y));
  }

  lemma {:induction false} OpLeast(op: BinOp, a: Tnum, b: Tnum, d: Tnum, z: nat)
    requires a.Valid() && b.Valid() && d.Valid() && ContainsAll(a, b, OpFun(op), d) && OpT(op, a, b).Has(z)
    ensures d.Has(z)
    decreases a.value + a.mask + b.value + b.mask
  {
    hide Bitwise, AndNot, Tnum.Valid, Tnum.Has, OpT;
    ZeroHas();
    if a.value + a.mask + b.value + b.mask == 0 {
      OpZero(op);
      BitwiseZero(op);
      assert d.Has(OpFun(op)(0, 0));
    } else {
      var t := OpT(op, a, b);
      OpStep(op, a, b);
      OpSoundValid(op, a, b);
      DigitHas(t, z);
      OpCoversHalf(op, a, b, d);
      OpCoversDigit(op, a, b, d);
      ValidDigits(a);
      ValidDigits(b);
      ValidDigits(d);
      OpLeast(op, a.Half(), b.Half(), d.Half(), z / 2);
      DigitHas(d, z);
    }
  }

  lemma OpSoundValid(op: BinOp, a: Tnum, b: Tnum)
    requires a.Valid() && b.Valid()
    ensures OpT(op, a, b).Valid()
  {
    hide *;
    ValidIsHas(a);
    ValidIsHas(b);
    OpSound(op, a, b, a.value, b.value);
  }

  lemma {:induction false} AndNotAtMost(x: nat, y: nat)
    ensures AndNot(x, y) <= x
  {
    if x > 0 {
      AndNotAtMost(x / 2, y / 2);
    }
  }

  lemma OpFits(w: nat, op: BinOp, a: Tnum, b: Tnum)
    requires a.Fits(w) && b.Fits(w)
    ensures OpT(op, a, b).Fits(w)
  {
    BitwiseBound(op, w, a.value, b.value);
    BitwiseBound(OR, w, a.mask, b.mask);
    BitwiseBound(OR, w, a.value, a.mask);
    BitwiseBound(OR, w, b.value, b.mask);
    BitwiseBound(AND, w, Or(a.value, a.mask), Or(b.value, b.mask));
    AndNotAtMost(And(Or(a.value, a.mask), Or(b.value, b.mask)), And(a.value, b.value));
    AndNotAtMost(Or(a.mask, b.mask), Or(a.value, b.value));
    AndNotAtMost(Xor(a.value, b.value), Or(a.mask, b.mask));
  }

  /** tnum_and, tnum_or and tnum_xor are best abstractions; for tnum_or this is
      what check_tnum_or_optimal sketches. */
  lemma OpBest(w: nat, op: BinOp, a: Tnum, b: Tnum)
    requires a.Valid() && b.Valid() && a.Fits(w) && b.Fits(w)
    ensures Best(w, a, b, OpFun(op), OpT(op, a, b))
  {
    hide Bitwise, AndNot, Tnum.Valid, Tnum.Has, OpT;
    OpSoundValid(op, a, b);
    OpFits(w, op, a, b);
    forall x: nat, y: nat | a.Has(x) && b.Has(y) ensures OpT(op, a, b).Has(OpFun(op)(x, y)) {
      OpSound(op, a, b, x, y);
    }
    forall d: Tnum, z: nat | d.Valid() && ContainsAll(a, b, OpFun(op), d) && OpT(op, a, b).Has(z) ensures d.Has(z) {
      OpLeast(op, a, b, d, z);
    }
  }

  // ----- joins, meets and inclusion -----

  lemma UnionStep(a: Tnum, b: Tnum)
    requires a.Valid() && b.Valid()
    ensures var t := Union(a, b);
            t.Half() == Union(a.Half(), b.Half()) && (t.value % 2 == 0 || t.mask % 2 == 0) &&
            Digit(t) == if Digit(a) == Digit(b) then Digit(a) else 2
  {
    hide Tnum.Valid, Tnum.Has;
    ValidDigits(a);
    ValidDigits(b);
  }

  /** The union contains both operands and lies within every tnum that does. */
  lemma {:induction false} UnionJoin(a: Tnum, b: Tnum, d: Tnum, z: nat)
    requires a.Valid() && b.Valid() && d.Valid()
    ensures Union(a, b).Valid()
    ensures a.Has(z) || b.Has(z) ==> Union(a, b).Has(z)
    ensures Within(a, d) && Within(b, d) && Union(a, b).Has(z) ==> d.Has(z)
    decreases a.value + a.mask + b.value + b.mask
  {
    hide Bitwise, AndNot, Tnum.Valid, Tnum.Has, Union, Within;
    ZeroHas();
    if a.value + a.mask + b.value + b.mask == 0 {
      UnionZero();
      WithinAt(a, d, 0);
    } else {
      var t := Union(a, b);
      ValidDigits(a);
      ValidDigits(b);
      ValidDigits(d);
      UnionStep(a, b);
      UnionJoin(a.Half(), b.Half(), d.Half(), z / 2);
      ValidByDigits(t);
      DigitHas(a, z);
      DigitHas(b, z);
      DigitHas(t, z);
      DigitHas(d, z);
      if Within(a, d) && Within(b, d) {
        WithinStep(a, d);
        WithinStep(b, d);
      }
    }
  }

  lemma UnionZero()
    ensures Union(Tnum(0, 0), Tnum(0, 0)) == Tnum(0, 0)
  {
  }

  /** Every member of a is a member of d. */
  ghost predicate Within(a: Tnum, d: Tnum) {
    forall x: nat :: a.Has(x) ==> d.Has(x)
  }

  lemma WithinAt(a: Tnum, d: Tnum, x: nat)
    ensures Within(a, d) && a.Has(x) ==> d.Has(x)
  {
  }

  lemma WithinStep(a: Tnum, d: Tnum)
    requires a.Valid() && d.Valid()
    ensures Within(a, d) <==> (Digit(d) == 2 || Digit(d) == Digit(a)) && Within(a.Half(), d.Half())
  {
    hide AndNot, Tnum.Valid, Tnum.Has;
    ValidDigits(a);
    if Within(a, d) {
      var x0 := MemberWithBit(a, false);
      var x1 := MemberWithBit(a, true);
      DigitHas(d, x0);
      DigitHas(d, x1);
      forall x: nat | a.Half().Has(x) ensures d.Half().Has(x) {
        Extend(a, x, a.value % 2);
        DigitHas(d, 2 * x + a.value % 2);
      }
    }
    if (Digit(d) == 2 || Digit(d) == Digit(a)) && Within(a.Half(), d.Half()) {
      forall x: nat | a.Has(x) ensures d.Has(x) {
        DigitHas(a, x);
        DigitHas(d, x);
      }
    }
  }

  /** tnum_in decides inclusion. */
  lemma {:induction false} InIsWithin(a: Tnum, b: Tnum)
    requires a.Valid() && b.Valid()
    ensures In(a, b) <==> Within(b, a)
    decreases a.value + a.mask + b.value + b.mask
  {
    hide Tnum.Has, Tnum.Valid, Within;
    ValidDigits(a);
    ValidDigits(b);
    if a.value + a.mask + b.value + b.mask == 0 {
      assert a == b;
      WithinSelf(a);
    } else {
      WithinStep(b, a);
      InIsWithin(a.Half(), b.Half());
    }
  }

  lemma WithinSelf(a: Tnum)
    ensures Within(a, a)
  {
  }

  /** When the operands have a common member m, tnum_intersect contains exactly the
      common members. */
  lemma {:induction false} IntersectExact(a: Tnum, b: Tnum, m: nat, x: nat)
    requires a.Valid() && b.Valid() && a.Has(m) && b.Has(m)
    ensures Intersect(a, b).Valid() && (Intersect(a, b).Has(x) <==> a.Has(x) && b.Has(x))
    decreases a.value + a.mask + b.value + b.mask + x
  {
    hide Tnum.Has, Tnum.Valid;
    ZeroHas();
    ValidDigits(a);
    ValidDigits(b);
    HasStep(a, m);
    HasStep(b, m);
    HasStep(a, x);
    HasStep(b, x);
    if a.value + a.mask + b.value + b.mask + x != 0 {
      IntersectExact(a.Half(), b.Half(), m / 2, x / 2);
      ValidByDigits(Intersect(a, b));
      HasStep(Intersect(a, b), x);
    }
  }
}
