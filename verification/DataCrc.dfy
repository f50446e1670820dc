// The accessory data CRC (si_joybus.cpp): a 32-bit accumulator that is never masked, against
// polynomials over GF(2).
module DataCrc {
  import opened Words

  // --- The accumulator -----------------------------------------------------------------------

  // One bit in: test bit 7, shift, bring the bit in, subtract the polynomial.
  function Step(crc: bv32, bit: bool): bv32 {
    var xorv: bv32 := if crc & 0x80 != 0 then 0x85 else 0;
    (if bit then (crc << 1) | 1 else crc << 1) ^ xorv
  }

  // The low byte, bit by bit.
  datatype Reg = Reg(b7: bool, b6: bool, b5: bool, b4: bool, b3: bool, b2: bool, b1: bool, b0: bool)

  function LowBits(crc: bv32): Reg {
    Reg(crc & 0x80 != 0, crc & 0x40 != 0, crc & 0x20 != 0, crc & 0x10 != 0,
        crc & 0x08 != 0, crc & 0x04 != 0, crc & 0x02 != 0, crc & 0x01 != 0)
  }

  function Weight(b: bool, p: nat): nat { if b then p else 0 }

  function Value3(r: Reg): (v: nat) ensures v < 8 { Weight(r.b2, 4) + Weight(r.b1, 2) + Weight(r.b0, 1) }
  function Value5(r: Reg): (v: nat) ensures v < 32 { Weight(r.b4, 0x10) + Weight(r.b3, 8) + Value3(r) }

  function Value(r: Reg): (v: byte) { Weight(r.b7, 0x80) + Weight(r.b6, 0x40) + Weight(r.b5, 0x20) + Value5(r) }

  lemma ValueInjective(r: Reg, s: Reg)
    requires Value(r) == Value(s)
    ensures r == s
  {
    assert Value5(r) == Value5(s) && r.b7 == s.b7 && r.b6 == s.b6 && r.b5 == s.b5 by { hide Value5; }
    assert Value3(r) == Value3(s) && r.b4 == s.b4 && r.b3 == s.b3 by { hide Value3; }
  }

  function Next(r: Reg, bit: bool): Reg {
    Reg(r.b6 != r.b7, r.b5, r.b4, r.b3, r.b2, r.b1 != r.b7, r.b0, bit != r.b7)
  }

  // Only the low byte of the accumulator matters: what is shifted above it never comes back.
  lemma StepIs(crc: bv32, bit: bool)
    ensures LowBits(Step(crc, bit)) == Next(LowBits(crc), bit)
  {}

  // --- The message, bit by bit -----------------------------------------------------------------

  // byte & mask, for a mask of one bit.
  predicate Masked(b: byte, mask: nat)
    requires mask > 0
  {
    b / mask % 2 == 1
  }

  function MaskAt(j: nat): nat { if j == 0 then 0x80 else MaskAt(j - 1) / 2 }

  lemma Masks()
    ensures MaskAt(0) == 0x80 && MaskAt(1) == 0x40 && MaskAt(2) == 0x20 && MaskAt(3) == 0x10
    ensures MaskAt(4) == 8 && MaskAt(5) == 4 && MaskAt(6) == 2 && MaskAt(7) == 1 && MaskAt(8) == 0
  {
    assert MaskAt(2) == 0x20;
    assert MaskAt(4) == 8;
    assert MaskAt(6) == 2;
  }

  // Bit n of the message, most significant bit of the first byte first; zeroes follow it.
  predicate MessageBit(data: seq<byte>, n: nat) {
    Masks();
    n / 8 < |data| && Masked(data[n / 8], MaskAt(n % 8))
  }

  // The accumulator once n bits have gone in.
  function Accumulated(data: seq<byte>, n: nat): bv32 {
    if n == 0 then 0 else Step(Accumulated(data, n - 1), MessageBit(data, n - 1))
  }

  // A block's CRC: one more byte of zeroes goes in after the data.
  function Crc(data: seq<byte>): byte { Value(LowBits(Accumulated(data, 8 * |data| + 8))) }

  method ShiftIn(acc: bv32, bit: bool) returns (next: bv32)
    ensures next == Step(acc, bit)
  {
    var xorv: bv32 := if acc & 0x80 != 0 then 0x85 else 0;
    next := if bit then (acc << 1) | 1 else acc << 1;
    next := next ^ xorv;
  }

  method ComputeCrc(data: seq<byte>) returns (crc: byte)
    ensures crc == Crc(data)
  {
    hide Step, Accumulated, MessageBit, Value, LowBits, MaskAt, Masked;
    var acc: bv32 := 0;
    NoBits(data);
    for i := 0 to |data| + 1
      invariant acc == Accumulated(data, 8 * i)
    {
      var mask := 0x80;
      ghost var j := 0;
      Masks();
      while mask != 0
        invariant 0 <= j <= 8 && mask == MaskAt(j)
        invariant acc == Accumulated(data, 8 * i + j)
        decreases mask
      {
        NextBit(data, i, j);
        acc := ShiftIn(acc, i < |data| && Masked(data[i], mask));
        mask, j := mask / 2, j + 1;
      }
    }
    crc := Value(LowBits(acc));
  }

  lemma NoBits(data: seq<byte>)
    ensures Accumulated(data, 0) == 0
  {}

  lemma NextBit(data: seq<byte>, i: nat, j: nat)
    requires MaskAt(j) != 0 && j <= 8
    ensures j < 8 && MaskAt(j + 1) == MaskAt(j) / 2
    ensures Accumulated(data, 8 * i + j + 1) ==
            Step(Accumulated(data, 8 * i + j), i < |data| && Masked(data[i], MaskAt(j)))
  {
    Masks();
    hide Step, Masked;
    assert (8 * i + j) / 8 == i && (8 * i + j) % 8 == j;
  }

  // --- Polynomials over GF(2), as the exponents present ------------------------------------------

  type Poly = set<nat>

  function Plus(a: Poly, b: Poly): (r: Poly)
    ensures forall e {:trigger e in r} :: e in r <==> (e in a) != (e in b)
  {
    (a - b) + (b - a)
  }

  // a times x to the k
  function Shift(a: Poly, k: nat): (r: Poly)
    ensures forall e {:trigger e in r} :: e in r <==> e >= k && e - k in a
  {
    set e | e in a :: e + k
  }

  // q times x^8 + x^7 + x^2 + 1
  function TimesG(q: Poly): Poly { Plus(Plus(Shift(q, 8), Shift(q, 7)), Plus(Shift(q, 2), q)) }

  lemma InTimesG(q: Poly, e: nat)
    ensures e in TimesG(q) <==>
            (((e >= 8 && e - 8 in q) != (e >= 7 && e - 7 in q)) != ((e >= 2 && e - 2 in q) != (e in q)))
  {
    hide Plus, Shift;
  }

  lemma TimesGPlus(p: Poly, q: Poly)
    ensures TimesG(Plus(p, q)) == Plus(TimesG(p), TimesG(q))
  {
    hide TimesG, Plus, Shift;
    forall e: nat ensures e in TimesG(Plus(p, q)) <==> e in Plus(TimesG(p), TimesG(q)) {
      InTimesG(Plus(p, q), e);
      InTimesG(p, e);
      InTimesG(q, e);
    }
  }

  predicate Small(r: Poly) { forall e :: e in r ==> e < 8 }

  // r is what p leaves when divided by x^8 + x^7 + x^2 + 1.
  ghost predicate Remainder(p: Poly, r: Poly) { Small(r) && exists q :: p == Plus(TimesG(q), r) }

  // --- Uniqueness -------------------------------------------------------------------------------------

  lemma {:induction false} Greatest(p: Poly) returns (m: nat)
    requires p != {}
    ensures m in p && forall e :: e in p ==> e <= m
    decreases |p|
  {
    m :| m in p;
    if p != {m} {
      var rest := p - {m};
      assert p == rest + {m} && rest != {};
      var k := Greatest(rest);
      if k > m { m := k; }
    }
  }

  lemma {:induction false} Least(p: Poly) returns (m: nat)
    requires p != {}
    ensures m in p && forall e :: e in p ==> m <= e
    decreases |p|
  {
    m :| m in p;
    if p != {m} {
      var rest := p - {m};
      assert p == rest + {m} && rest != {};
      var k := Least(rest);
      if k < m { m := k; }
    }
  }

  // A nonzero multiple of the polynomial spans nine places or more.
  lemma MultipleSpans(q: Poly) returns (low: nat, high: nat)
    requires q != {}
    ensures low in TimesG(q) && high in TimesG(q) && high >= low + 8
  {
    hide TimesG;
    var m := Least(q);
    var d := Greatest(q);
    InTimesG(q, m);
    InTimesG(q, d + 8);
    low, high := m, d + 8;
  }

  lemma RemainderUnique(p: Poly, r: Poly, s: Poly)
    requires Remainder(p, r) && Remainder(p, s)
    ensures r == s
  {
    var a :| p == Plus(TimesG(a), r);
    var b :| p == Plus(TimesG(b), s);
    TimesGPlus(a, b);
    hide TimesG, Plus;
    assert TimesG(Plus(a, b)) == Plus(r, s);
    if Plus(a, b) != {} {
      var low, high := MultipleSpans(Plus(a, b));
      assert false;
    }
    assert a == b;
  }

  // --- The CRC is a remainder -----------------------------------------------------------------------

  predicate BitOf(r: Reg, e: nat) {
    (e == 0 && r.b0) || (e == 1 && r.b1) || (e == 2 && r.b2) || (e == 3 && r.b3)
    || (e == 4 && r.b4) || (e == 5 && r.b5) || (e == 6 && r.b6) || (e == 7 && r.b7)
  }

  function PolyOf(r: Reg): (p: Poly)
    ensures Small(p) && forall e: nat {:trigger e in p} :: e in p <==> BitOf(r, e)
  {
    set e | 0 <= e < 8 && BitOf(r, e)
  }

  function Constant(bit: bool): Poly { if bit then {0} else {} }

  // The first n bits of the message, the last of them constant.
  function Prefix(data: seq<byte>, n: nat): (p: Poly)
    ensures forall e: nat {:trigger e in p} :: e in p <==> e < n && MessageBit(data, n - 1 - e)
  {
    set e | 0 <= e < n && BitAt(data, n, e)
  }

  // The bit that stands at exponent e once n bits have gone in.
  predicate BitAt(data: seq<byte>, n: nat, e: nat) { e < n && MessageBit(data, n - 1 - e) }

  lemma PrefixStep(data: seq<byte>, n: nat)
    ensures Prefix(data, n + 1) == Plus(Shift(Prefix(data, n), 1), Constant(MessageBit(data, n)))
  {
    hide MessageBit, Plus, Shift, Prefix;
  }

  lemma ShiftTimesG(q: Poly)
    ensures Shift(TimesG(q), 1) == TimesG(Shift(q, 1))
  {
    hide TimesG, Shift;
    forall e: nat ensures e in Shift(TimesG(q), 1) <==> e in TimesG(Shift(q, 1)) {
      InTimesG(Shift(q, 1), e);
      if e >= 1 { InTimesG(q, e - 1); }
    }
  }

  lemma TimesGConstant(bit: bool)
    ensures TimesG(Constant(bit)) == if bit then {8, 7, 2, 0} else {}
  {
    hide TimesG;
    forall e: nat ensures e in TimesG(Constant(bit)) <==> bit && e in {8, 7, 2, 0} { InTimesG(Constant(bit), e); }
  }

  lemma NextIs(r: Reg, bit: bool)
    ensures Plus(Shift(PolyOf(r), 1), Constant(bit)) == Plus(TimesG(Constant(r.b7)), PolyOf(Next(r, bit)))
  {
    TimesGConstant(r.b7);
    hide TimesG, Plus, Shift, PolyOf, BitOf, Next;
    forall e: nat
      ensures e in Plus(Shift(PolyOf(r), 1), Constant(bit)) <==> e in Plus(TimesG(Constant(r.b7)), PolyOf(Next(r, bit)))
    {
      assert e >= 1 ==> (e - 1 in PolyOf(r) <==> BitOf(r, e - 1));
      NextBits(r, bit, e);
    }
  }

  lemma NextBits(r: Reg, bit: bool, e: nat)
    ensures ((e >= 1 && BitOf(r, e - 1)) != (bit && e == 0)) <==>
              ((r.b7 && e in {8, 7, 2, 0}) != BitOf(Next(r, bit), e))
  {}

  lemma ShiftPlus(a: Poly, b: Poly, k: nat)
    ensures Shift(Plus(a, b), k) == Plus(Shift(a, k), Shift(b, k))
  {
    hide Plus, Shift;
  }

  lemma {:induction false} AccumulatedIs(data: seq<byte>, n: nat)
    ensures Remainder(Prefix(data, n), PolyOf(LowBits(Accumulated(data, n))))
    decreases n
  {
    hide Step, LowBits, MessageBit, Remainder, PolyOf, Prefix, Plus, Shift, Next, Constant;
    if n == 0 {
      NothingYet(data);
    } else {
      var r, bit := LowBits(Accumulated(data, n - 1)), MessageBit(data, n - 1);
      AccumulatedIs(data, n - 1);
      StepIs(Accumulated(data, n - 1), bit);
      PrefixStep(data, n - 1);
      RemainderStep(Prefix(data, n - 1), r, bit);
    }
  }

  lemma NothingYet(data: seq<byte>)
    ensures Remainder(Prefix(data, 0), PolyOf(LowBits(0)))
  {
    TimesGConstant(false);
    hide TimesG, Plus;
    var none: Poly := {};
    assert PolyOf(LowBits(0)) == none;
    assert Prefix(data, 0) == Plus(TimesG(none), none);
  }

  lemma RemainderStep(p: Poly, r: Reg, bit: bool)
    requires Remainder(p, PolyOf(r))
    ensures Remainder(Plus(Shift(p, 1), Constant(bit)), PolyOf(Next(r, bit)))
  {
    var q :| p == Plus(TimesG(q), PolyOf(r));
    var q', rest := Plus(Shift(q, 1), Constant(r.b7)), PolyOf(Next(r, bit));
    hide *;
    ShiftPlus(TimesG(q), PolyOf(r), 1);
    ShiftTimesG(q);
    TimesGPlus(Shift(q, 1), Constant(r.b7));
    NextIs(r, bit);
    PlusAssociative(TimesG(Shift(q, 1)), Shift(PolyOf(r), 1), Constant(bit));
    PlusAssociative(TimesG(Shift(q, 1)), TimesG(Constant(r.b7)), rest);
    DividesInto(Plus(Shift(p, 1), Constant(bit)), q', rest);
  }

  lemma PlusAssociative(a: Poly, b: Poly, c: Poly)
    ensures Plus(Plus(a, b), c) == Plus(a, Plus(b, c))
  {
    hide Plus;
  }

  lemma DividesInto(p: Poly, q: Poly, r: Poly)
    requires p == Plus(TimesG(q), r) && Small(r)
    ensures Remainder(p, r)
  {}

  // The block as a polynomial: its first bit leads.
  function Message(data: seq<byte>): Poly { Prefix(data, 8 * |data|) }

  // The CRC is the block times x^8, modulo x^8 + x^7 + x^2 + 1.
  lemma CrcIsRemainder(data: seq<byte>) returns (r: Reg)
    ensures Crc(data) == Value(r) && Remainder(Shift(Message(data), 8), PolyOf(r))
  {
    var n := 8 * |data|;
    AccumulatedIs(data, n + 8);
    forall e: nat ensures e in Prefix(data, n + 8) <==> e in Shift(Message(data), 8) {
      if e < 8 { assert !MessageBit(data, n + 8 - 1 - e); }
    }
    assert Prefix(data, n + 8) == Shift(Message(data), 8);
    r := LowBits(Accumulated(data, n + 8));
  }

  // --- What follows ---------------------------------------------------------------------------------

  function XorReg(a: Reg, b: Reg): Reg {
    Reg(a.b7 != b.b7, a.b6 != b.b6, a.b5 != b.b5, a.b4 != b.b4, a.b3 != b.b3, a.b2 != b.b2, a.b1 != b.b1, a.b0 != b.b0)
  }

  // Bit by bit, c is the exclusive or of a and b.
  ghost predicate IsXor(a: seq<byte>, b: seq<byte>, c: seq<byte>) {
    && |a| == |b| == |c|
    && forall n: nat :: n < 8 * |a| ==> (MessageBit(c, n) <==> MessageBit(a, n) != MessageBit(b, n))
  }

  // The CRC of an exclusive or is the exclusive or of the CRCs.
  lemma CrcLinear(a: seq<byte>, b: seq<byte>, c: seq<byte>) returns (ra: Reg, rb: Reg)
    requires IsXor(a, b, c)
    ensures Crc(a) == Value(ra) && Crc(b) == Value(rb) && Crc(c) == Value(XorReg(ra, rb))
  {
    ra := CrcIsRemainder(a);
    rb := CrcIsRemainder(b);
    var rc := CrcIsRemainder(c);
    var pa, pb, pc := Shift(Message(a), 8), Shift(Message(b), 8), Shift(Message(c), 8);
    assert Message(c) == Plus(Message(a), Message(b)) by { hide MessageBit; }
    ShiftPlus(Message(a), Message(b), 8);
    RemainderPlus(pa, PolyOf(ra), pb, PolyOf(rb));
    XorIs(ra, rb);
    RemainderUnique(pc, PolyOf(rc), PolyOf(XorReg(ra, rb)));
    PolyOfInjective(rc, XorReg(ra, rb));
  }

  lemma RemainderPlus(p: Poly, r: Poly, q: Poly, s: Poly)
    requires Remainder(p, r) && Remainder(q, s)
    ensures Remainder(Plus(p, q), Plus(r, s))
  {
    var a :| p == Plus(TimesG(a), r);
    var b :| q == Plus(TimesG(b), s);
    TimesGPlus(a, b);
    hide TimesG;
    assert Plus(p, q) == Plus(TimesG(Plus(a, b)), Plus(r, s));
  }

  lemma XorIs(a: Reg, b: Reg)
    ensures PolyOf(XorReg(a, b)) == Plus(PolyOf(a), PolyOf(b))
  {
    hide *;
    forall e: nat ensures BitOf(XorReg(a, b), e) <==> BitOf(a, e) != BitOf(b, e) { XorBit(a, b, e); }
  }

  lemma XorBit(a: Reg, b: Reg, e: nat)
    ensures BitOf(XorReg(a, b), e) <==> BitOf(a, e) != BitOf(b, e)
  {
    hide *;
    if BitOf(a, e) { XorSet(a, b, e); } else { XorClear(a, b, e); }
  }

  lemma XorSet(a: Reg, b: Reg, e: nat)
    requires BitOf(a, e)
    ensures BitOf(XorReg(a, b), e) <==> !BitOf(b, e)
  {}

  lemma XorClear(a: Reg, b: Reg, e: nat)
    requires !BitOf(a, e)
    ensures BitOf(XorReg(a, b), e) <==> BitOf(b, e)
  {}

  lemma PolyOfInjective(a: Reg, b: Reg)
    requires PolyOf(a) == PolyOf(b)
    ensures a == b
  {
    assert forall e: nat :: BitOf(a, e) <==> BitOf(b, e) by {
      forall e: nat ensures BitOf(a, e) <==> BitOf(b, e) { assert e in PolyOf(a) <==> e in PolyOf(b); }
    }
    assert BitOf(a, 0) == BitOf(b, 0) && BitOf(a, 1) == BitOf(b, 1) && BitOf(a, 2) == BitOf(b, 2) && BitOf(a, 3) == BitOf(b, 3);
    assert BitOf(a, 4) == BitOf(b, 4) && BitOf(a, 5) == BitOf(b, 5) && BitOf(a, 6) == BitOf(b, 6) && BitOf(a, 7) == BitOf(b, 7);
  }

  // Two blocks of one length that differ, and only within eight consecutive bits.
  ghost predicate BurstApart(a: seq<byte>, b: seq<byte>, t: nat) {
    && |a| == |b|
    && (exists n: nat :: n < 8 * |a| && MessageBit(a, n) != MessageBit(b, n))
    && (forall n: nat :: n < 8 * |a| && MessageBit(a, n) != MessageBit(b, n) ==> t <= n < t + 8)
  }

  // Every single-bit error and every burst of up to eight bits changes the CRC.
  lemma BurstDetected(a: seq<byte>, b: seq<byte>, t: nat)
    requires BurstApart(a, b, t)
    ensures Crc(a) != Crc(b)
  {
    if Crc(a) == Crc(b) {
      var ra := CrcIsRemainder(a);
      var rb := CrcIsRemainder(b);
      ValueInjective(ra, rb);
      RemainderPlus(Shift(Message(a), 8), PolyOf(ra), Shift(Message(b), 8), PolyOf(rb));
      ShiftPlus(Message(a), Message(b), 8);
      BurstNotMultiple(a, b, t);
      assert false;
    }
  }

  lemma BurstNotMultiple(a: seq<byte>, b: seq<byte>, t: nat)
    requires BurstApart(a, b, t)
    ensures !Remainder(Shift(Plus(Message(a), Message(b)), 8), {})
  {
    hide MessageBit, TimesG;
    var d := Plus(Message(a), Message(b));
    var n: nat :| n < 8 * |a| && MessageBit(a, n) != MessageBit(b, n);
    assert 8 * |a| - 1 - n in d;
    assert forall e :: e in d ==> t <= 8 * |a| - 1 - e < t + 8;
    if Remainder(Shift(d, 8), {}) {
      var q :| Shift(d, 8) == Plus(TimesG(q), {});
      assert Plus(TimesG(q), {}) == TimesG(q);
      assert 8 * |a| - 1 - n + 8 in Shift(d, 8);
      if q == {} { TimesGConstant(false); }
      var low, high := MultipleSpans(q);
      assert false;
    }
  }
}
