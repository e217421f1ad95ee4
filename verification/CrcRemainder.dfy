/** crc8_check computes the remainder of the message, times x^8, modulo the generator
    x^8 + x^2 + x + 1 over GF(2). A polynomial is the set of its exponents. */
module CrcRemainder {
  import opened Crc8

  type Poly = set<nat>

  function Add(p: Poly, q: Poly): Poly {
    (p - q) + (q - p)
  }

  /** p times x */
  function Up(p: Poly): Poly {
    set e | e in p :: e + 1
  }

  /** p times x^k */
  function Raise(p: Poly, k: nat): Poly {
    if k == 0 then p else Up(Raise(p, k - 1))
  }

  function TimesGenerator(q: Poly): Poly {
    Add(Raise(q, 8), Add(Raise(q, 2), Add(Raise(q, 1), q)))
  }

  /** The first bit of a message is the coefficient of its highest power. */
  function MessagePoly(bits: Bits): Poly {
    if bits == [] then {} else Add(Up(MessagePoly(bits[..|bits| - 1])), Constant(bits[|bits| - 1]))
  }

  function Mask(e: nat): bv8 {
    if e == 0 then 0x01 else if e == 1 then 0x02 else if e == 2 then 0x04 else if e == 3 then 0x08
    else if e == 4 then 0x10 else if e == 5 then 0x20 else if e == 6 then 0x40 else if e == 7 then 0x80 else 0x00
  }

  predicate HasBit(crc: bv8, e: nat) {
    crc & Mask(e) != 0
  }

  function RegisterPoly(crc: bv8): Poly {
    set e: nat | e < 8 && HasBit(crc, e) :: e
  }

  lemma LeftBit(b: bv8, e: nat)
    requires e < 7
    ensures HasBit(b << 1, e + 1) == HasBit(b, e)
  {
  }

  lemma {:induction false} TopBitAt(b: bv8, n: nat, j: nat)
    requires j < n <= 8
    ensures TopBits(b, n)[j] == HasBit(b, 7 - j)
    decreases n
  {
    if j > 0 {
      TopBitAt(b << 1, n - 1, j - 1);
      LeftBit(b, 7 - j);
    }
  }

  /** The message bits are those of its bytes in order, the most significant bit first. */
  lemma {:induction false} MessageBitAt(buffer: seq<bv8>, i: nat, j: nat)
    requires i < |buffer| && j < 8
    ensures 8 * i + j < |MessageBits(buffer)| && MessageBits(buffer)[8 * i + j] == HasBit(buffer[i], 7 - j)
  {
    if i == 0 {
      TopBitAt(buffer[0], 8, j);
    } else {
      MessageBitAt(buffer[1..], i - 1, j);
    }
  }

  function Constant(bit: bool): Poly {
    if bit then {0} else {}
  }

  // ---------- Arithmetic ----------

  lemma AddAssociative(p: Poly, q: Poly, r: Poly)
    ensures Add(Add(p, q), r) == Add(p, Add(q, r))
  {
  }

  lemma UpAt(p: Poly, e: nat)
    ensures e in Up(p) <==> e >= 1 && e - 1 in p
  {
    if e >= 1 && e - 1 in p {
      assert (e - 1) + 1 in Up(p);
    }
  }

  lemma {:induction false} RaiseAt(p: Poly, k: nat, e: nat)
    ensures e in Raise(p, k) <==> e >= k && e - k in p
    decreases k
  {
    if k > 0 {
      UpAt(Raise(p, k - 1), e);
      if e >= 1 {
        RaiseAt(p, k - 1, e - 1);
      }
    }
  }

  predicate At(p: Poly, e: int) {
    e >= 0 && e in p
  }

  lemma GeneratorAt(q: Poly, e: nat)
    ensures e in TimesGenerator(q) <==> (At(q, e - 8) != (At(q, e - 2) != (At(q, e - 1) != At(q, e))))
  {
    RaiseAt(q, 8, e);
    RaiseAt(q, 2, e);
    RaiseAt(q, 1, e);
  }

  lemma AddUp(p: Poly, q: Poly)
    ensures Up(Add(p, q)) == Add(Up(p), Up(q))
  {
    forall e: nat
      ensures e in Up(Add(p, q)) <==> e in Add(Up(p), Up(q))
    {
      UpAt(Add(p, q), e);
      UpAt(p, e);
      UpAt(q, e);
    }
  }

  lemma {:induction false} AddRaise(p: Poly, q: Poly, k: nat)
    ensures Raise(Add(p, q), k) == Add(Raise(p, k), Raise(q, k))
    decreases k
  {
    if k > 0 {
      AddRaise(p, q, k - 1);
      AddUp(Raise(p, k - 1), Raise(q, k - 1));
    }
  }

  lemma {:induction false} RaiseUp(p: Poly, k: nat)
    ensures Raise(Up(p), k) == Up(Raise(p, k))
    decreases k
  {
    if k > 0 {
      RaiseUp(p, k - 1);
    }
  }

  lemma AddGenerator(p: Poly, q: Poly)
    ensures TimesGenerator(Add(p, q)) == Add(TimesGenerator(p), TimesGenerator(q))
  {
    forall e: nat
      ensures e in TimesGenerator(Add(p, q)) <==> e in Add(TimesGenerator(p), TimesGenerator(q))
    {
      GeneratorAt(Add(p, q), e);
      GeneratorAt(p, e);
      GeneratorAt(q, e);
    }
  }

  lemma UpGenerator(q: Poly)
    ensures Up(TimesGenerator(q)) == TimesGenerator(Up(q))
  {
    forall e: nat
      ensures e in Up(TimesGenerator(q)) <==> e in TimesGenerator(Up(q))
    {
      UpAt(TimesGenerator(q), e);
      GeneratorAt(Up(q), e);
      UpAt(q, e);
      if e >= 1 {
        UpAt(q, e - 1);
        GeneratorAt(q, e - 1);
      }
      if e >= 2 {
        UpAt(q, e - 2);
      }
      if e >= 8 {
        UpAt(q, e - 8);
      }
    }
  }

  // ---------- One bit ----------

  lemma ShiftAt(crc: bv8, e: nat)
    requires e < 8
    ensures HasBit(Shift(crc), e) <==> (e > 0 && HasBit(crc, e - 1)) != (HasBit(crc, 7) && e <= 2)
  {
  }

  lemma FlipAt(crc: bv8, e: nat)
    requires e < 8
    ensures HasBit(crc ^ 0x80, e) <==> HasBit(crc, e) != (e == 7)
  {
  }

  lemma FeedAt(crc: bv8, bit: bool, e: nat)
    requires e < 8
    ensures HasBit(Feed(crc, bit), e) <==>
              (e > 0 && HasBit(crc, e - 1)) != ((HasBit(crc, 7) != bit) && e <= 2)
  {
    if bit {
      ShiftAt(crc ^ 0x80, e);
      FlipAt(crc, 7);
      if e > 0 {
        FlipAt(crc, e - 1);
      }
    } else {
      ShiftAt(crc, e);
    }
  }

  /** Feeding a bit multiplies the register by x and reduces. */
  lemma FeedReduces(crc: bv8, bit: bool)
    ensures Add(Up(RegisterPoly(crc)), Raise(Constant(bit), 8))
            == Add(TimesGenerator(Constant(HasBit(crc, 7) != bit)), RegisterPoly(Feed(crc, bit)))
  {
    var carry := Constant(HasBit(crc, 7) != bit);
    forall e: nat
      ensures e in Add(Up(RegisterPoly(crc)), Raise(Constant(bit), 8))
              <==> e in Add(TimesGenerator(carry), RegisterPoly(Feed(crc, bit)))
    {
      GeneratorAt(carry, e);
      UpAt(RegisterPoly(crc), e);
      RaiseAt(Constant(bit), 8, e);
      if e < 8 {
        FeedAt(crc, bit, e);
      }
    }
  }

  // ---------- The whole message ----------

  ghost predicate Divides(dividend: Poly, quotient: Poly, remainder: Poly) {
    dividend == Add(TimesGenerator(quotient), remainder)
  }

  lemma RaiseAppended(m: Poly, bit: bool)
    ensures Raise(Add(Up(m), Constant(bit)), 8) == Add(Up(Raise(m, 8)), Raise(Constant(bit), 8))
  {
    AddRaise(Up(m), Constant(bit), 8);
    RaiseUp(m, 8);
  }

  lemma UpDividend(d: Poly, q: Poly, r: Poly)
    requires Divides(d, q, r)
    ensures Divides(Up(d), Up(q), Up(r))
  {
    AddUp(TimesGenerator(q), r);
    UpGenerator(q);
  }

  lemma AddDividend(d: Poly, q: Poly, r: Poly, d': Poly, q': Poly, r': Poly)
    requires Divides(d, q, r) && Add(r, d') == Add(TimesGenerator(q'), r')
    ensures Divides(Add(d, d'), Add(q, q'), r')
  {
    AddAssociative(TimesGenerator(q), r, d');
    AddAssociative(TimesGenerator(q), TimesGenerator(q'), r');
    AddGenerator(q, q');
  }

  /** One step of long division. */
  lemma BringDown(m: Poly, q: Poly, r: Poly, bit: bool, carry: Poly, r': Poly)
    requires Divides(Raise(m, 8), q, r)
    requires Add(Up(r), Raise(Constant(bit), 8)) == Add(TimesGenerator(carry), r')
    ensures Divides(Raise(Add(Up(m), Constant(bit)), 8), Add(Up(q), carry), r')
  {
    RaiseAppended(m, bit);
    UpDividend(Raise(m, 8), q, r);
    AddDividend(Up(Raise(m, 8)), Up(q), Up(r), Raise(Constant(bit), 8), carry, r');
  }

  lemma {:induction false} RegisterIsRemainder(bits: Bits) returns (q: Poly)
    ensures Divides(Raise(MessagePoly(bits), 8), q, RegisterPoly(FeedAll(0, bits)))
  {
    if bits == [] {
      q := {};
      NothingRaised(8);
      assert TimesGenerator({}) == {} by {
        NothingRaised(2);
        NothingRaised(1);
      }
    } else {
      var rest, last := bits[..|bits| - 1], bits[|bits| - 1];
      assert bits == rest + [last];
      FeedAllAppend(0, rest, [last]);
      var crc := FeedAll(0, rest);
      var before := RegisterIsRemainder(rest);
      FeedReduces(crc, last);
      var carry := Constant(HasBit(crc, 7) != last);
      BringDown(MessagePoly(rest), before, RegisterPoly(crc), last, carry, RegisterPoly(Feed(crc, last)));
      q := Add(Up(before), carry);
    }
  }

  lemma {:induction false} NothingRaised(k: nat)
    ensures Raise({}, k) == {}
    decreases k
  {
    if k > 0 {
      NothingRaised(k - 1);
    }
  }

  // ---------- The remainder is unique ----------

  ghost predicate Reduced(r: Poly) {
    forall e :: e in r ==> e < 8
  }

  lemma RegisterReduced(crc: bv8)
    ensures Reduced(RegisterPoly(crc))
  {
  }

  lemma {:induction false} Highest(p: Poly) returns (top: nat)
    requires p != {}
    ensures top in p && forall e :: e in p ==> e <= top
    decreases |p|
  {
    var x :| x in p;
    if p == {x} {
      top := x;
    } else {
      var rest := p - {x};
      assert p == rest + {x};
      top := Highest(rest);
      if top < x {
        top := x;
      }
    }
  }

  lemma MultipleIsLong(q: Poly)
    requires Reduced(TimesGenerator(q))
    ensures q == {}
  {
    if q != {} {
      var top := Highest(q);
      GeneratorAt(q, top + 8);
    }
  }

  lemma UpInjective(p: Poly, q: Poly)
    requires Up(p) == Up(q)
    ensures p == q
  {
    forall e: nat
      ensures e in p <==> e in q
    {
      UpAt(p, e + 1);
      UpAt(q, e + 1);
    }
  }

  function Down(p: Poly): Poly {
    set e | e in p && e >= 1 :: e - 1
  }

  lemma UpDown(p: Poly)
    requires 0 !in p
    ensures Up(Down(p)) == p
  {
    forall e: nat
      ensures e in Up(Down(p)) <==> e in p
    {
      UpAt(Down(p), e);
      if e >= 1 && e in p {
        assert e - 1 in Down(p);
      }
    }
  }

  ghost predicate IsMultiple(p: Poly) {
    exists q :: p == TimesGenerator(q)
  }

  /** The generator has a constant term, so a factor x never matters. */
  lemma UpMultiple(p: Poly)
    ensures IsMultiple(Up(p)) <==> IsMultiple(p)
  {
    if q :| p == TimesGenerator(q) {
      UpGenerator(q);
    }
    if q :| Up(p) == TimesGenerator(q) {
      UpAt(p, 0);
      GeneratorAt(q, 0);
      UpDown(q);
      UpGenerator(Down(q));
      UpInjective(p, TimesGenerator(Down(q)));
    }
  }

  lemma {:induction false} RaiseMultiple(p: Poly, k: nat)
    ensures IsMultiple(Raise(p, k)) <==> IsMultiple(p)
    decreases k
  {
    if k > 0 {
      RaiseMultiple(p, k - 1);
      UpMultiple(Raise(p, k - 1));
    }
  }

  lemma UniqueRemainder(d: Poly, q: Poly, r: Poly, q': Poly, r': Poly)
    requires Divides(d, q, r) && Divides(d, q', r') && Reduced(r) && Reduced(r')
    ensures q == q' && r == r'
  {
    AddGenerator(q, q');
    assert Add(TimesGenerator(q), TimesGenerator(q')) == Add(r, r');
    MultipleIsLong(Add(q, q'));
    assert q == q';
    assert r == Add(d, TimesGenerator(q));
    assert r' == Add(d, TimesGenerator(q'));
  }

  ghost predicate IsRemainder(dividend: Poly, r: Poly) {
    Reduced(r) && exists q :: Divides(dividend, q, r)
  }

  /** crc8_check returns the remainder, and nothing else could be it. */
  lemma CrcIsTheRemainder(buffer: seq<bv8>, r: Poly)
    ensures IsRemainder(Raise(MessagePoly(MessageBits(buffer)), 8), r) <==> r == RegisterPoly(Crc(buffer))
  {
    var d := Raise(MessagePoly(MessageBits(buffer)), 8);
    var q := RegisterIsRemainder(MessageBits(buffer));
    RegisterReduced(Crc(buffer));
    assert IsRemainder(d, RegisterPoly(Crc(buffer)));
    if IsRemainder(d, r) {
      var q' :| Divides(d, q', r);
      UniqueRemainder(d, q', r, q, RegisterPoly(Crc(buffer)));
    }
  }

  /** Bits feed the register to zero exactly when the generator divides their polynomial. */
  lemma FedToZeroExactly(bits: Bits)
    ensures FeedAll(0, bits) == 0 <==> IsMultiple(MessagePoly(bits))
  {
    var d, crc := Raise(MessagePoly(bits), 8), FeedAll(0, bits);
    var q := RegisterIsRemainder(bits);
    RaiseMultiple(MessagePoly(bits), 8);
    RegisterReduced(crc);
    NoRegister(crc);
    if crc == 0 {
      assert d == TimesGenerator(q);
    }
    if q' :| d == TimesGenerator(q') {
      assert Divides(d, q', {});
      UniqueRemainder(d, q, RegisterPoly(crc), q', {});
    }
  }

  lemma NoRegister(crc: bv8)
    ensures RegisterPoly(crc) == {} <==> crc == 0
  {
    assert forall e: nat :: e < 8 && HasBit(crc, e) ==> e in RegisterPoly(crc);
    SomeBitSet(crc);
  }

  lemma SomeBitSet(crc: bv8)
    ensures crc == 0 <==> !(HasBit(crc, 0) || HasBit(crc, 1) || HasBit(crc, 2) || HasBit(crc, 3)
                            || HasBit(crc, 4) || HasBit(crc, 5) || HasBit(crc, 6) || HasBit(crc, 7))
  {
  }
}
