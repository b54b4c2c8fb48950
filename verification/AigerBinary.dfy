/** The delta code and the AND section of the binary AIGER format. */
module AigerBinary {
  import opened Aig
  import Bits
  import Recode

  const WORD := 0x1_0000_0000

  // ----- code words -----

  function Encode(x: nat): (c: seq<nat>)
    ensures c != []
  {
    if x < 128 then [x] else [x % 128 + 128] + Encode(x / 128)
  }

  /** Little-endian groups of seven bits. */
  function Groups(c: seq<nat>): nat {
    if c == [] then 0 else c[0] % 128 + 128 * Groups(c[1..])
  }

  predicate Bytes(s: seq<nat>) {
    forall b :: b in s ==> b < 256
  }

  /** The number of leading bytes whose high bit asks for another byte. */
  function Lead(s: seq<nat>): (n: nat)
    ensures n <= |s|
  {
    if s == [] || s[0] < 128 then 0 else 1 + Lead(s[1..])
  }

  datatype Delta = Delta(value: nat, length: nat) | UnexpectedEof | InvalidCode | UndefinedShift

  /** What aiger_read_delta makes of the input ahead. Lengths up to five are decoded
      modulo the word size; the sixth byte is shifted by 35 bits, which C leaves undefined. */
  function Decode(s: seq<nat>): Delta {
    var n := Lead(s);
    if n > 5 then InvalidCode
    else if n == |s| then UnexpectedEof
    else if n == 5 then (if s[5] >= 8 then InvalidCode else UndefinedShift)
    else Delta(Groups(s[..n + 1]) % WORD, n + 1)
  }

  lemma {:induction false} EncodeGroups(x: nat, rest: seq<nat>)
    ensures Groups(Encode(x)) == x && Lead(Encode(x) + rest) == |Encode(x)| - 1 && Bytes(Encode(x))
  {
    var c := Encode(x);
    if x < 128 {
      assert c[1..] == [];
    } else {
      EncodeGroups(x / 128, rest);
      assert c[1..] == Encode(x / 128) && (c + rest)[1..] == Encode(x / 128) + rest;
    }
  }

  lemma EncodeShort(x: nat)
    requires x < WORD
    ensures |Encode(x)| <= 5
  {
    var y := x / 128;
    assert |Encode(x)| <= 1 + |Encode(y)|;
    assert |Encode(y)| <= 1 + |Encode(y / 128)|;
    assert |Encode(y / 128)| <= 1 + |Encode(y / 128 / 128)|;
    assert |Encode(y / 128 / 128)| <= 1 + |Encode(y / 128 / 128 / 128)|;
    assert y / 128 / 128 / 128 < 16;
  }

  /** Decoding inverts encoding on every 32-bit value and consumes exactly its bytes. */
  lemma DeltaRoundTrip(x: nat, rest: seq<nat>)
    requires x < WORD
    ensures Decode(Encode(x) + rest) == Delta(x, |Encode(x)|)
  {
    EncodeGroups(x, rest);
    EncodeShort(x);
    assert (Encode(x) + rest)[..|Encode(x)|] == Encode(x);
  }

  /** A code word: every byte but the last has its high bit set. */
  predicate CodeWord(c: seq<nat>) {
    c != [] && Bytes(c) && Lead(c) == |c| - 1
  }

  lemma {:induction false} LeadAppend(c: seq<nat>, rest: seq<nat>)
    requires Lead(c) < |c|
    ensures Lead(c + rest) == Lead(c)
  {
    if c[0] >= 128 {
      LeadAppend(c[1..], rest);
      assert (c + rest)[1..] == c[1..] + rest;
    }
  }

  /** The reader returns the number a code word of at most five bytes stands for
      exactly when it fits a word; a larger one is truncated silently. */
  lemma DecodeFaithful(c: seq<nat>, rest: seq<nat>)
    requires CodeWord(c) && |c| <= 5
    ensures Decode(c + rest) == Delta(Groups(c) % WORD, |c|)
    ensures Decode(c + rest) == Delta(Groups(c), |c|) <==> Groups(c) < WORD
  {
    hide Groups, Lead, Bytes;
    LeadAppend(c, rest);
    assert (c + rest)[..|c|] == c;
  }

  /** 2^32 in five bytes is read as 0 although the range check was meant to stop it. */
  lemma TruncatedCode()
    ensures var c := [128, 128, 128, 128, 16];
            CodeWord(c) && Groups(c) == WORD && Decode(c) == Delta(0, 5)
  {
    var c := [128, 128, 128, 128, 16];
    assert c[1..] == [128, 128, 128, 16] && c[1..][1..] == [128, 128, 16];
    assert c[1..][1..][1..] == [128, 16] && c[1..][1..][1..][1..] == [16] && [16][1..] == [];
    assert Groups([16]) == 16 && Groups([128, 16]) == 2048;
    assert Groups([128, 128, 16]) == 128 * 2048 && Groups([128, 128, 128, 16]) == 128 * 128 * 2048;
    assert Lead([16]) == 0 && Lead([128, 16]) == 1 && Lead([128, 128, 16]) == 2 && Lead([128, 128, 128, 16]) == 3;
    assert c[..5] == c;
  }

  // ----- bit operations -----

  lemma {:induction false} OrZero(y: nat)
    ensures Bits.Or(0, y) == y
  {
    if y > 0 {
      OrZero(y / 2);
    }
  }

  /** Setting bits above the k lowest ones adds them. */
  lemma {:induction false} OrAbove(k: nat, x: nat, y: nat)
    requires x < Bits.Pow2(k) && y % Bits.Pow2(k) == 0
    ensures Bits.Or(x, y) == x + y
  {
    if k == 0 {
      OrZero(y);
    } else {
      HalfMultiple(k, y);
      OrAbove(k - 1, x / 2, y / 2);
    }
  }

  lemma HalfMultiple(k: nat, y: nat)
    requires k > 0 && y % Bits.Pow2(k) == 0
    ensures y % 2 == 0 && (y / 2) % Bits.Pow2(k - 1) == 0
  {
    var p := Bits.Pow2(k - 1);
    var q := y / (2 * p);
    assert y == 2 * (p * q);
    Bits.DivModUnique(y / 2, p, q, 0);
  }

  /** The bits from 7 up are the part above 127. */
  lemma {:induction false} HighBits(w: nat, k: nat, x: nat)
    requires k <= w && x < Bits.Pow2(w)
    ensures Bits.Pow2(k) <= Bits.Pow2(w)
    ensures Bits.And(x, Bits.Pow2(w) - Bits.Pow2(k)) == 0 <==> x < Bits.Pow2(k)
  {
    if k == 0 {
      AndOnes(w, x);
    } else {
      HighBits(w - 1, k - 1, x / 2);
      var m := Bits.Pow2(w) - Bits.Pow2(k);
      assert m % 2 == 0 && m / 2 == Bits.Pow2(w - 1) - Bits.Pow2(k - 1);
      assert Bits.And(x, m) == 2 * Bits.And(x / 2, m / 2);
    }
  }

  lemma {:induction false} AndOnes(w: nat, x: nat)
    requires x < Bits.Pow2(w)
    ensures Bits.And(x, Bits.Pow2(w) - 1) == x
  {
    Bits.AndMask(w, x);
    Bits.DivModUnique(x, Bits.Pow2(w), 0, x);
  }

  lemma Powers()
    ensures Bits.Pow2(0) == 1 && Bits.Pow2(7) == 128 && Bits.Pow2(14) == 0x4000 && Bits.Pow2(21) == 0x20_0000
    ensures Bits.Pow2(28) == 0x1000_0000 && Bits.Pow2(32) == WORD
  {
    assert Bits.Pow2(4) == 16 && Bits.Pow2(8) == 256;
    Bits.Pow2Add(7, 7);
    Bits.Pow2Add(14, 7);
    Bits.Pow2Add(14, 14);
    Bits.Pow2Add(28, 4);
  }

  lemma PowerStep(n: nat, b: nat)
    ensures Bits.Pow2(7 * (n + 1)) == 128 * Bits.Pow2(7 * n)
    ensures 128 * (b * Bits.Pow2(7 * n)) == b * Bits.Pow2(7 * (n + 1))
  {
    Bits.Pow2Add(7, 7 * n);
    Powers();
    var p := Bits.Pow2(7 * n);
    assert 128 * (b * p) == b * (128 * p);
  }

  lemma {:induction false} GroupsAppend(c: seq<nat>, b: nat)
    ensures Groups(c + [b]) == Groups(c) + (b % 128) * Bits.Pow2(7 * |c|)
    ensures Groups(c) < Bits.Pow2(7 * |c|)
  {
    if c == [] {
      assert (c + [b])[1..] == [];
    } else {
      GroupsAppend(c[1..], b);
      assert (c + [b])[1..] == c[1..] + [b];
      PowerStep(|c[1..]|, b % 128);
    }
  }

  // ----- the AND section -----

  /** Gates with consecutive left-hand sides from first on, each not below its ordered
      right-hand sides. */
  ghost predicate Section(ands: seq<And>, first: nat) {
    forall i :: 0 <= i < |ands| ==> ands[i].lhs == first + 2 * i && ands[i].lhs >= ands[i].rhs0 >= ands[i].rhs1
  }

  function EncodeAnd(a: And): seq<nat>
    requires a.lhs >= a.rhs0 >= a.rhs1
  {
    Encode(a.lhs - a.rhs0) + Encode(a.rhs0 - a.rhs1)
  }

  function EncodeAnds(ands: seq<And>, first: nat): seq<nat>
    requires Section(ands, first)
  {
    if ands == [] then []
    else
      SectionTail(ands, first);
      EncodeAnd(ands[0]) + EncodeAnds(ands[1..], first + 2)
  }

  lemma SectionTail(ands: seq<And>, first: nat)
    requires Section(ands, first) && ands != []
    ensures Section(ands[1..], first + 2)
  {
    forall i | 0 <= i < |ands[1..]|
      ensures ands[1..][i].lhs == first + 2 + 2 * i && ands[1..][i].lhs >= ands[1..][i].rhs0 >= ands[1..][i].rhs1
    {
      assert ands[1..][i] == ands[i + 1];
    }
  }

  datatype Ands = Ands(ands: seq<And>, length: nat) | Failed

  /** One gate: two deltas, the second relative to the first right-hand side. */
  function DecodeAnd(s: seq<nat>, lhs: nat): Ands {
    match Decode(s)
    case Delta(d0, n0) =>
      if d0 > lhs || n0 > |s| then Failed
      else (match Decode(s[n0..])
            case Delta(d1, n1) => if d1 > lhs - d0 then Failed else Ands([And(lhs, lhs - d0, lhs - d0 - d1)], n0 + n1)
            case _ => Failed)
    case _ => Failed
  }

  function DecodeAnds(s: seq<nat>, first: nat, count: nat): Ands
    decreases count
  {
    if count == 0 then Ands([], 0)
    else match DecodeAnd(s, first)
      case Failed => Failed
      case Ands(a, n) =>
        if n > |s| then Failed
        else match DecodeAnds(s[n..], first + 2, count - 1)
          case Failed => Failed
          case Ands(rest, m) => Ands(a + rest, n + m)
  }

  lemma EncodeWord(x: nat)
    ensures CodeWord(Encode(x)) && Groups(Encode(x)) == x
  {
    EncodeGroups(x, []);
    assert Encode(x) + [] == Encode(x);
  }

  /** A gate is two code words; however its bytes are split into two, the first stands for the
      distance to the larger right-hand side, and the second for that to the smaller one. */
  lemma GateBytes(a: And, c: seq<nat>, d: seq<nat>)
    requires a.lhs >= a.rhs0 >= a.rhs1 && CodeWord(c) && CodeWord(d) && c + d == EncodeAnd(a)
    ensures Groups(c) == a.lhs - a.rhs0 && Groups(d) == a.rhs0 - a.rhs1
    ensures c == Encode(a.lhs - a.rhs0) && d == Encode(a.rhs0 - a.rhs1)
  {
    var x, y := a.lhs - a.rhs0, a.rhs0 - a.rhs1;
    assert EncodeAnd(a) == Encode(x) + Encode(y);
    hide *;
    EncodeWord(x);
    EncodeWord(y);
    WordsSplit(c, d, Encode(x), Encode(y));
  }

  /** No code word begins another one. */
  lemma WordsSplit(c: seq<nat>, d: seq<nat>, x: seq<nat>, y: seq<nat>)
    requires CodeWord(c) && CodeWord(x) && c + d == x + y
    ensures c == x && d == y
  {
    hide Groups, Lead, Bytes;
    LeadAppend(c, d);
    LeadAppend(x, y);
    SameParts(c, d, x, y);
  }

  lemma SameParts(c: seq<nat>, d: seq<nat>, x: seq<nat>, y: seq<nat>)
    requires c + d == x + y && |c| == |x|
    ensures c == x && d == y
  {
    assert c == (c + d)[..|c|] && x == (x + y)[..|x|];
    assert d == (c + d)[|c|..] && y == (x + y)[|x|..];
  }

  lemma SectionParts(before: seq<And>, a: And, after: seq<And>, first: nat)
    requires Section(before + [a] + after, first)
    ensures Section(before, first) && a.lhs >= a.rhs0 >= a.rhs1 && Section(after, first + 2 * |before| + 2)
  {
    var ands := before + [a] + after;
    assert ands[|before|] == a;
    assert forall k :: 0 <= k < |before| ==> before[k] == ands[k];
    assert forall k :: 0 <= k < |after| ==> after[k] == ands[|before| + 1 + k];
  }

  /** Other gates come before and after it in order. */
  lemma {:induction false} SectionBytes(before: seq<And>, a: And, after: seq<And>, first: nat)
    requires Section(before + [a] + after, first)
    ensures Section(before, first) && a.lhs >= a.rhs0 >= a.rhs1 && Section(after, first + 2 * |before| + 2)
    ensures EncodeAnds(before + [a] + after, first) ==
            EncodeAnds(before, first) + EncodeAnd(a) + EncodeAnds(after, first + 2 * |before| + 2)
    decreases |before|
  {
    hide Encode;
    SectionParts(before, a, after, first);
    EncodeStep(before + [a] + after, first);
    if before == [] {
      assert before + [a] + after == [a] + after && ([a] + after)[1..] == after;
    } else {
      EncodeStep(before, first);
      assert (before + [a] + after)[1..] == before[1..] + [a] + after && (before + [a] + after)[0] == before[0];
      SectionBytes(before[1..], a, after, first + 2);
      hide Section, EncodeAnd, EncodeAnds;
      Regroup(EncodeAnd(before[0]), EncodeAnds(before[1..], first + 2), EncodeAnd(a),
              EncodeAnds(after, first + 2 * |before| + 2));
    }
  }

  lemma Regroup(a: seq<nat>, b: seq<nat>, c: seq<nat>, d: seq<nat>)
    ensures a + (b + c + d) == (a + b) + c + d
  {
  }

  /** Two short code words are read as a gate that lies that far above its right-hand sides. */
  lemma GateRead(c: seq<nat>, d: seq<nat>, rest: seq<nat>, lhs: nat)
    requires CodeWord(c) && CodeWord(d) && |c| <= 5 && |d| <= 5
    ensures var x, y := Groups(c) % WORD, Groups(d) % WORD;
            DecodeAnd(c + d + rest, lhs) ==
            if x <= lhs && y <= lhs - x then Ands([And(lhs, lhs - x, lhs - x - y)], |c| + |d|) else Failed
  {
    hide Groups, Lead, Bytes, Decode;
    DecodeFaithful(c, d + rest);
    DecodeFaithful(d, rest);
    assert c + d + rest == c + (d + rest) && (c + d + rest)[|c|..] == d + rest;
  }

  lemma AndRoundTrip(a: And, rest: seq<nat>)
    requires a.lhs >= a.rhs0 >= a.rhs1 && a.lhs < WORD
    ensures DecodeAnd(EncodeAnd(a) + rest, a.lhs) == Ands([a], |EncodeAnd(a)|)
  {
    hide Encode, Decode;
    var c0, c1 := Encode(a.lhs - a.rhs0), Encode(a.rhs0 - a.rhs1);
    assert EncodeAnd(a) + rest == c0 + (c1 + rest);
    DeltaRoundTrip(a.lhs - a.rhs0, c1 + rest);
    DeltaRoundTrip(a.rhs0 - a.rhs1, rest);
    assert (c0 + (c1 + rest))[|c0|..] == c1 + rest;
  }

  /** Reading a written section gives the same gates and consumes exactly its bytes. */
  lemma {:induction false} SectionRoundTrip(ands: seq<And>, first: nat, rest: seq<nat>)
    requires Section(ands, first) && first + 2 * |ands| <= WORD
    ensures DecodeAnds(EncodeAnds(ands, first) + rest, first, |ands|) == Ands(ands, |EncodeAnds(ands, first)|)
  {
    hide EncodeAnd, DecodeAnd;
    if ands != [] {
      SectionTail(ands, first);
      var c0, c1 := EncodeAnd(ands[0]), EncodeAnds(ands[1..], first + 2);
      assert EncodeAnds(ands, first) + rest == c0 + (c1 + rest);
      AndRoundTrip(ands[0], c1 + rest);
      SectionRoundTrip(ands[1..], first + 2, rest);
      assert (c0 + (c1 + rest))[|c0|..] == c1 + rest;
      assert [ands[0]] + ands[1..] == ands;
    }
  }

  /** Every reencoded circuit survives writing and reading its AND section. */
  lemma ReencodedRoundTrip(inputs: seq<nat>, latches: seq<Latch>, ands: seq<And>, rest: seq<nat>)
    requires Recode.InOrder(inputs, latches, ands) && 2 * (|inputs| + |latches| + |ands| + 1) <= WORD
    ensures var first := 2 * (|inputs| + |latches| + 1);
            Section(ands, first) &&
            DecodeAnds(EncodeAnds(ands, first) + rest, first, |ands|) == Ands(ands, |EncodeAnds(ands, first)|)
  {
    SectionRoundTrip(ands, 2 * (|inputs| + |latches| + 1), rest);
  }

  /** Whatever section the reader accepts is in order. */
  lemma {:induction false} AcceptedInOrder(s: seq<nat>, first: nat, count: nat)
    ensures DecodeAnds(s, first, count).Ands? ==>
              Section(DecodeAnds(s, first, count).ands, first) && |DecodeAnds(s, first, count).ands| == count
    decreases count
  {
    hide Decode;
    if count > 0 && DecodeAnds(s, first, count).Ands? {
      var one := DecodeAnd(s, first);
      AcceptedInOrder(s[one.length..], first + 2, count - 1);
      var more := DecodeAnds(s[one.length..], first + 2, count - 1).ands;
      var all := one.ands + more;
      forall i | 0 <= i < |all| ensures all[i].lhs == first + 2 * i && all[i].lhs >= all[i].rhs0 >= all[i].rhs1 {
        if i > 0 {
          assert all[i] == more[i - 1];
        }
      }
    }
  }

  // ----- the writer -----

  lemma Guard(tmp: nat)
    requires tmp < WORD
    ensures 0x7f < Bits.Pow2(32)
    ensures Bits.And(tmp, Bits.Not(32, 0x7f)) != 0 <==> tmp >= 128
  {
    Powers();
    HighBits(32, 7, tmp);
  }

  lemma GroupByte(tmp: nat)
    requires tmp >= 128
    ensures Encode(tmp) == [Bits.Or(Bits.And(tmp, 0x7f), 0x80)] + Encode(tmp / 128)
  {
    Powers();
    Bits.AndMask(7, tmp);
    OrAbove(7, tmp % 128, 0x80);
  }

  lemma EncodeLast(tmp: nat)
    requires tmp < 128
    ensures Encode(tmp) == [tmp] + []
  {
  }

  lemma PutSplit(out: seq<nat>, ch: nat, rest: seq<nat>)
    ensures out + ([ch] + rest) == (out + [ch]) + rest && out <= out + ([ch] + rest)
  {
  }

  /** A character sink with room for a fixed number of characters (aiger_string_put). */
  class Writer {
    var out: seq<nat>
    const room: nat

    constructor (room: nat)
      ensures out == [] && this.room == room
    {
      this.room := room;
      out := [];
    }

    method Put(ch: nat) returns (ok: bool)
      modifies this`out
      ensures ok == (|old(out)| < room) && out == if ok then old(out) + [ch] else old(out)
    {
      ok := |out| < room;
      if ok {
        out := out + [ch];
      }
    }

    /** aiger_write_delta */
    method WriteDelta(delta: nat) returns (ok: bool)
      requires delta < WORD && |out| <= room
      modifies this`out
      ensures |out| <= room && ok == (|old(out)| + |Encode(delta)| <= room)
      ensures if ok then out == old(out) + Encode(delta) else |out| == room && out <= old(out) + Encode(delta)
    {
      hide *;
      var tmp: nat := delta;
      Guard(tmp);
      while Bits.And(tmp, Bits.Not(32, 0x7f)) != 0
        invariant tmp < WORD && |out| <= room && out + Encode(tmp) == old(out) + Encode(delta)
        invariant Bits.And(tmp, Bits.Not(32, 0x7f)) != 0 <==> tmp >= 128
        decreases tmp
      {
        GroupByte(tmp);
        var ch := Bits.Or(Bits.And(tmp, 0x7f), 0x80);
        ghost var before := out;
        ok := Put(ch);
        PutSplit(before, ch, Encode(tmp / 128));
        if !ok {
          return;
        }
        tmp := tmp / 128;
        Guard(tmp);
      }
      EncodeLast(tmp);
      ghost var before := out;
      ok := Put(tmp);
      PutSplit(before, tmp, []);
    }

    /** The AND loop of aiger_write_binary. */
    method WriteAnds(ands: seq<And>, first: nat) returns (ok: bool)
      requires Section(ands, first) && first + 2 * |ands| <= WORD && |out| <= room
      modifies this`out
      ensures ok ==> out == old(out) + EncodeAnds(ands, first)
      ensures ok == (|old(out)| + |EncodeAnds(ands, first)| <= room)
    {
      hide Encode, EncodeAnds;
      assert ands[0..] == ands;
      for i := 0 to |ands|
        invariant Section(ands[i..], first + 2 * i) && |out| <= room
        invariant out + EncodeAnds(ands[i..], first + 2 * i) == old(out) + EncodeAnds(ands, first)
      {
        var a := ands[i];
        ghost var before, tail := out, ands[i..];
        EncodeStep(tail, first + 2 * i);
        assert tail[0] == a && tail[1..] == ands[i + 1..];
        assert tail[0].lhs == first + 2 * i && a.lhs >= a.rhs0 >= a.rhs1;
        ok := WriteDelta(a.lhs - a.rhs0);
        if !ok {
          return;
        }
        ok := WriteDelta(a.rhs0 - a.rhs1);
        if !ok {
          return;
        }
        assert out + EncodeAnds(tail[1..], first + 2 * i + 2) == before + EncodeAnds(tail, first + 2 * i);
      }
      EncodeNone(ands[|ands|..], first + 2 * |ands|);
      ok := true;
    }
  }

  lemma EncodeStep(ands: seq<And>, first: nat)
    requires Section(ands, first) && ands != []
    ensures Section(ands[1..], first + 2)
    ensures EncodeAnds(ands, first) ==
            Encode(ands[0].lhs - ands[0].rhs0) + Encode(ands[0].rhs0 - ands[0].rhs1) + EncodeAnds(ands[1..], first + 2)
  {
    SectionTail(ands, first);
  }

  lemma EncodeNone(ands: seq<And>, first: nat)
    requires ands == []
    ensures EncodeAnds(ands, first) == []
  {
  }

  // ----- the reader -----

  class Reader {
    const input: seq<nat>
    var pos: nat

    ghost predicate Valid()
      reads this`pos
    {
      pos <= |input| && Bytes(input)
    }

    ghost function Ahead(): seq<nat>
      requires Valid()
      reads this`pos
    {
      input[pos..]
    }

    constructor (input: seq<nat>)
      requires Bytes(input)
      ensures Valid() && Ahead() == input
    {
      this.input := input;
      pos := 0;
    }

    /** aiger_next_ch; the end of the input stays the current character. */
    method NextCh()
      requires Valid()
      modifies this`pos
      ensures Valid() && pos == if old(pos) < |input| then old(pos) + 1 else old(pos)
    {
      if pos < |input| {
        pos := pos + 1;
      }
    }

    /** res |= (ch & 0x7f) << (7 * i), then the next character. */
    method ReadGroup(i: nat, res0: nat, ghost s: seq<nat>) returns (res: nat)
      requires Valid() && i <= 4 && i < |s| && pos < |input| && input[pos] == s[i] && res0 == Groups(s[..i])
      modifies this`pos
      ensures Valid() && pos == old(pos) + 1
      ensures res == Groups(s[..i + 1]) % WORD && (i < 4 ==> res == Groups(s[..i + 1]))
    {
      hide *;
      AddGroup(s, i, res0);
      res := Bits.Or(res0, Bits.Trunc(32, Bits.And(input[pos], 0x7f) * Bits.Pow2(7 * i)));
      NextCh();
    }

    /** The loop of aiger_read_delta: leading bytes with their high bit set. */
    method ReadLead(ghost s: seq<nat>) returns (stop: bool, r: Delta, i: nat, res: nat)
      requires Valid() && s == Ahead() && s != []
      modifies this`pos
      ensures Valid() && pos == old(pos) + i
      ensures if stop then r == Decode(s) && !r.Delta?
              else i < |s| && s[i] < 128 && pos < |input| && input[pos] == s[i] && i <= 5 &&
                   (forall k :: 0 <= k < i ==> s[k] >= 128) && (i <= 4 ==> res == Groups(s[..i]))
    {
      hide Groups, Lead, Decode, Bits.Bitwise, Bytes;
      stop, r, i, res := false, UnexpectedEof, 0, 0;
      GroupsNone(s);
      HighByte(input, pos);
      while Bits.And(input[pos], 0x80) != 0
        invariant Valid() && i <= 5 && pos == old(pos) + i < |input| && input[pos] == s[i]
        invariant Bits.And(input[pos], 0x80) != 0 <==> input[pos] >= 128
        invariant forall k :: 0 <= k < i ==> s[k] >= 128
        invariant i <= 4 ==> res == Groups(s[..i])
        decreases 5 - i
      {
        if i == 5 {
          LeadAtLeast(s, 6);
          DecodeEnd(s, 5);
          return true, InvalidCode, i, res;
        }
        res := ReadGroup(i, res, s);
        i := i + 1;
        if pos == |input| {
          DecodeEnd(s, i);
          return true, UnexpectedEof, i, res;
        }
        HighByte(input, pos);
      }
    }

    /** aiger_read_delta */
    method ReadDelta() returns (r: Delta)
      requires Valid()
      modifies this`pos
      ensures Valid() && r == Decode(old(Ahead()))
      ensures r.Delta? ==> pos == old(pos) + r.length && r.value < WORD
    {
      hide Groups, Lead, Decode, Bits.Bitwise, Bytes;
      ghost var s := Ahead();
      if pos == |input| {
        DecodeEnd(s, 0);
        return UnexpectedEof;
      }
      var stop, i, res;
      stop, r, i, res := ReadLead(s);
      if stop {
        return;
      }
      DecodeEnd(s, i);
      if i == 5 && input[pos] >= 8 {
        return InvalidCode;
      }
      if 7 * i >= 32 {
        return UndefinedShift;
      }
      res := ReadGroup(i, res, s);
      r := Delta(res, i + 1);
    }

    /** One gate of the section. */
    method ReadAnd(lhs: nat) returns (r: Ands)
      requires Valid()
      modifies this`pos
      ensures Valid() && r == DecodeAnd(old(Ahead()), lhs)
      ensures r.Ands? ==> |r.ands| == 1 && old(pos) + r.length == pos
      ensures r.Ands? ==> r.length <= |old(Ahead())| && Ahead() == old(Ahead())[r.length..]
    {
      hide Decode;
      ghost var s := Ahead();
      DecodeLength(s);
      var d0 := ReadDelta();
      if !d0.Delta? || d0.value > lhs {
        return Failed;
      }
      var rhs0 := lhs - d0.value;
      assert Ahead() == s[d0.length..];
      DecodeLength(Ahead());
      var d1 := ReadDelta();
      if !d1.Delta? || d1.value > rhs0 {
        return Failed;
      }
      r := Ands([And(lhs, rhs0, rhs0 - d1.value)], d0.length + d1.length);
      assert Ahead() == s[r.length..];
    }

    /** One round of the loop of aiger_read_binary. */
    method ReadNext(lhs: nat, ands0: seq<And>, ghost length: nat, ghost count: nat) returns (ok: bool, ands: seq<And>)
      requires Valid() && count > 0
      modifies this`pos
      ensures Valid() && (ok ==> old(pos) <= pos)
      ensures Joined(ands0, length, DecodeAnds(old(Ahead()), lhs, count)) ==
              if ok then Joined(ands, length + (pos - old(pos)), DecodeAnds(Ahead(), lhs + 2, count - 1)) else Failed
    {
      hide *;
      ghost var here := Ahead();
      var r := ReadAnd(lhs);
      ok, ands := r.Ands?, ands0;
      if ok {
        JoinStep(ands0, length, here, lhs, count, r);
        ands := ands0 + r.ands;
      } else {
        JoinFail(ands0, length, here, lhs, count);
      }
    }

    /** The loop of aiger_read_binary. */
    method ReadAnds(first: nat, count: nat) returns (ok: bool, ands: seq<And>)
      requires Valid()
      modifies this`pos
      ensures Valid()
      ensures if ok then old(pos) <= pos && DecodeAnds(old(Ahead()), first, count) == Ands(ands, pos - old(pos))
              else DecodeAnds(old(Ahead()), first, count) == Failed
    {
      hide *;
      ands, ok := [], true;
      ghost var all := DecodeAnds(Ahead(), first, count);
      JoinStart(all);
      for i := 0 to count
        invariant Valid() && old(pos) <= pos
        invariant all == Joined(ands, pos - old(pos), DecodeAnds(Ahead(), first + 2 * i, count - i))
      {
        ok, ands := ReadNext(first + 2 * i, ands, pos - old(pos), count - i);
        if !ok {
          return;
        }
      }
      JoinEnd(ands, pos - old(pos), Ahead(), first + 2 * count);
      ok := true;
    }
  }

  /** Gates decoded so far in front of what the rest decodes to. */
  function Joined(ands: seq<And>, length: nat, rest: Ands): Ands {
    match rest
    case Failed => Failed
    case Ands(more, n) => Ands(ands + more, length + n)
  }

  lemma DecodeLength(s: seq<nat>)
    ensures Decode(s).Delta? ==> Decode(s).length <= |s|
  {
  }

  lemma JoinStart(rest: Ands)
    ensures rest == Joined([], 0, rest)
  {
    match rest
    case Failed =>
    case Ands(more, n) => assert [] + more == more;
  }

  lemma JoinFail(ands: seq<And>, length: nat, s: seq<nat>, lhs: nat, count: nat)
    requires count > 0 && DecodeAnd(s, lhs) == Failed
    ensures Joined(ands, length, DecodeAnds(s, lhs, count)) == Failed
  {
    hide DecodeAnd;
  }

  lemma JoinStep(ands: seq<And>, length: nat, s: seq<nat>, lhs: nat, count: nat, r: Ands)
    requires count > 0 && DecodeAnd(s, lhs) == r && r.Ands? && r.length <= |s|
    ensures Joined(ands, length, DecodeAnds(s, lhs, count)) ==
            Joined(ands + r.ands, length + r.length, DecodeAnds(s[r.length..], lhs + 2, count - 1))
  {
    hide DecodeAnd;
    match DecodeAnds(s[r.length..], lhs + 2, count - 1)
    case Failed =>
    case Ands(more, m) => assert ands + (r.ands + more) == (ands + r.ands) + more;
  }

  lemma JoinEnd(ands: seq<And>, length: nat, s: seq<nat>, lhs: nat)
    ensures Joined(ands, length, DecodeAnds(s, lhs, 0)) == Ands(ands, length)
  {
    assert ands + [] == ands;
  }

  lemma GroupsNone(s: seq<nat>)
    ensures Groups(s[..0]) == 0
  {
  }

  lemma HighByte(s: seq<nat>, i: nat)
    requires Bytes(s) && i < |s|
    ensures Bits.And(s[i], 0x80) != 0 <==> s[i] >= 128
  {
    assert s[i] in s;
    Powers();
    assert Bits.Pow2(8) == 256;
    HighBits(8, 7, s[i]);
  }

  /** Decoding once the first byte without its high bit is known. */
  lemma DecodeEnd(s: seq<nat>, i: nat)
    requires i <= 5 && i <= |s| && forall k :: 0 <= k < i ==> s[k] >= 128
    ensures i == |s| ==> Decode(s) == UnexpectedEof
    ensures i == 5 && 5 < |s| && (Lead(s) > 5 || 8 <= s[5] < 128) ==> Decode(s) == InvalidCode
    ensures i == 5 && 5 < |s| && s[5] < 8 ==> Decode(s) == UndefinedShift
    ensures i < 5 && i < |s| && s[i] < 128 ==> Decode(s) == Delta(Groups(s[..i + 1]) % WORD, i + 1)
  {
    hide Groups, Lead;
    if i == |s| || s[i] < 128 {
      LeadIs(s, i);
    }
  }

  lemma {:induction false} LeadAtLeast(s: seq<nat>, n: nat)
    requires n <= |s| && forall k :: 0 <= k < n ==> s[k] >= 128
    ensures Lead(s) >= n
  {
    if n > 0 {
      LeadAtLeast(s[1..], n - 1);
    }
  }

  lemma {:induction false} LeadIs(s: seq<nat>, n: nat)
    requires n <= |s| && (forall k :: 0 <= k < n ==> s[k] >= 128) && (n == |s| || s[n] < 128)
    ensures Lead(s) == n
  {
    if n > 0 {
      LeadIs(s[1..], n - 1);
    }
  }

  /** Group i of a code word, shifted into a word and or-ed to the groups below. */
  lemma AddGroup(s: seq<nat>, i: nat, res: nat)
    requires i <= 4 && i < |s| && res == Groups(s[..i])
    ensures var sum := Bits.Or(res, Bits.Trunc(32, Bits.And(s[i], 0x7f) * Bits.Pow2(7 * i)));
            sum == Groups(s[..i + 1]) % WORD && (i < 4 ==> sum == Groups(s[..i + 1]))
    ensures s[i] < 128 ==> Bits.And(s[i], 0x7f) == s[i]
  {
    hide Bits.Bitwise, Groups;
    assert s[..i + 1] == s[..i] + [s[i]];
    GroupsAppend(s[..i], s[i]);
    GroupsAppend(s[..i + 1], 0);
    Powers();
    Bits.AndMask(7, s[i]);
    WrapAbove(i, res, s[i] % 128);
    OrAbove(7 * i, res, Bits.Trunc(32, (s[i] % 128) * Bits.Pow2(7 * i)));
    if i < 4 {
      WordPower(i);
    }
  }

  lemma WordPower(i: nat)
    requires i < 4
    ensures Bits.Pow2(7 * (i + 1)) <= WORD
  {
    Powers();
    assert i == 0 || i == 1 || i == 2 || i == 3;
  }

  /** The truncated group stays a multiple of its weight, and the sum is truncated as a whole. */
  lemma WrapAbove(i: nat, res: nat, b: nat)
    requires i <= 4 && b < 128 && res < Bits.Pow2(7 * i)
    ensures Bits.Trunc(32, b * Bits.Pow2(7 * i)) % Bits.Pow2(7 * i) == 0
    ensures res + Bits.Trunc(32, b * Bits.Pow2(7 * i)) == (res + b * Bits.Pow2(7 * i)) % WORD
  {
    Powers();
    if i == 4 {
      WrapTop(res, b);
    } else {
      WrapBelow(Bits.Pow2(7 * i), res, b);
    }
  }

  lemma WrapBelow(p: nat, res: nat, b: nat)
    requires 0 < p <= 0x20_0000 && b < 128 && res < p
    ensures (b * p) % WORD % p == 0 && res + (b * p) % WORD == (res + b * p) % WORD
  {
    assert b * p <= 127 * p;
    Bits.DivModUnique(b * p, p, b, 0);
    Bits.DivModUnique(b * p, WORD, 0, b * p);
    Bits.DivModUnique(res + b * p, WORD, 0, res + b * p);
  }

  lemma WrapTop(res: nat, b: nat)
    requires b < 128 && res < 0x1000_0000
    ensures (b * 0x1000_0000) % WORD % 0x1000_0000 == 0
    ensures res + (b * 0x1000_0000) % WORD == (res + b * 0x1000_0000) % WORD
  {
    var top := b % 16 * 0x1000_0000;
    assert b * 0x1000_0000 == WORD * (b / 16) + top;
    Bits.DivModUnique(b * 0x1000_0000, WORD, b / 16, top);
    Bits.DivModUnique(res + b * 0x1000_0000, WORD, b / 16, res + top);
  }
}
