/** Numeric one-time codes drawn by rejection sampling (internal/crypto/tokens.go). */
module NumericCode {
  import opened Wrappers
  import opened Text
  import opened Base64
  import opened Arith

  const UINT32: nat := 0x1_0000_0000
  const UINT64: nat := 0x1_0000_0000_0000_0000

  type Draw = (Byte, Byte, Byte, Byte)

  /** The number of codes, computed in uint64 arithmetic. */
  function Space(digits: nat): (space: nat)
    ensures space < UINT64
  {
    if digits == 0 then 1 else Space(digits - 1) * 10 % UINT64
  }

  /** Draws at or above the limit belong to the incomplete last block of residues. */
  function Limit(space: nat): (limit: nat)
    requires space > 0
    ensures limit <= UINT32
  {
    UINT32 - UINT32 % space
  }

  function DrawValue(draw: Draw): (v: nat)
    ensures v < UINT32
  {
    draw.0 as int * 0x100_0000 + draw.1 as int * 0x1_0000 + draw.2 as int * 0x100 + draw.3 as int
  }

  lemma LimitIsWholeBlocks(space: nat)
    requires 0 < space <= UINT32
    ensures Limit(space) == Limit(space) / space * space
    ensures UINT32 - space < Limit(space)
  {
    var q := UINT32 / space;
    assert Limit(space) == q * space + 0;
    QuotientRemainder(q, space, 0);
  }

  /** The first accepted draw of a stream, if any. */
  ghost predicate FirstBelow(draws: seq<Draw>, limit: nat, used: nat) {
    && 0 < used <= |draws|
    && DrawValue(draws[used - 1]) < limit
    && forall i :: 0 <= i < used - 1 ==> DrawValue(draws[i]) >= limit
  }

  /**
   * The sampler over a stream of four-byte draws. It stops at the first draw below the limit and
   * prints its residue; `None` means the stream ended first. A zero modulus panics in the program.
   */
  method NewNumericCode(digits: nat, draws: seq<Draw>) returns (code: Option<string>, used: nat)
    requires Space(digits) > 0
    ensures code.Some? ==>
              && FirstBelow(draws, Limit(Space(digits)), used)
              && code == Some(ZeroPad(digits, DrawValue(draws[used - 1]) % Space(digits)))
    ensures code.None? ==>
              used == |draws| && forall i :: 0 <= i < |draws| ==> DrawValue(draws[i]) >= Limit(Space(digits))
  {
    var space := ComputeSpace(digits);
    var limit := UINT32 - UINT32 % space;
    assert limit == Limit(space);
    used := 0;
    while used < |draws|
      invariant used <= |draws|
      invariant forall i :: 0 <= i < used ==> DrawValue(draws[i]) >= limit
    {
      var v := DrawValue(draws[used]);
      used := used + 1;
      if v < limit {
        return Some(ZeroPad(digits, v % space)), used;
      }
    }
    code := None;
  }

  method ComputeSpace(digits: nat) returns (space: nat)
    ensures space == Space(digits) == Pow10(digits) % UINT64
  {
    space := 1;
    for i := 0 to digits
      invariant space == Space(i)
    {
      space := space * 10 % UINT64;
    }
    SpaceWraps(digits);
  }

  /** The computed space is the power of ten modulo 2^64. */
  lemma {:induction false} SpaceWraps(digits: nat)
    ensures Space(digits) == Pow10(digits) % UINT64
  {
    if digits > 0 {
      SpaceWraps(digits - 1);
      var x := Pow10(digits - 1);
      var k, r := x / UINT64, x % UINT64;
      var k', r' := r * 10 / UINT64, r * 10 % UINT64;
      assert x * 10 == (10 * k + k') * UINT64 + r';
      QuotientRemainder(10 * k + k', UINT64, r');
    }
  }

  lemma SpaceIsPow10(digits: nat)
    requires digits <= 19
    ensures Space(digits) == Pow10(digits)
  {
    SpaceWraps(digits);
    Pow10Below19(digits);
    SmallRemainder(Pow10(digits), UINT64);
  }

  lemma {:induction false} Pow10Monotone(a: nat, b: nat)
    requires a <= b
    ensures Pow10(a) <= Pow10(b)
  {
    if a < b {
      Pow10Monotone(a, b - 1);
    }
  }

  lemma Pow10Below19(digits: nat)
    requires digits <= 19
    ensures Pow10(digits) < UINT64
  {
    Pow10Values();
    Pow10Monotone(digits, 19);
    assert Pow10(12) == 10 * Pow10(11) && Pow10(11) == 10 * Pow10(10);
    assert Pow10(14) == 10 * Pow10(13) && Pow10(13) == 10 * Pow10(12);
    assert Pow10(16) == 10 * Pow10(15) && Pow10(15) == 10 * Pow10(14);
    assert Pow10(18) == 10 * Pow10(17) && Pow10(17) == 10 * Pow10(16);
    assert Pow10(19) == 10 * Pow10(18);
  }

  /** The draws below `q` whole blocks that leave residue `r`. */
  ghost function Preimages(q: nat, space: nat, r: nat): set<nat>
    requires space > 0
  {
    set v: nat | v < q * space && v % space == r
  }

  /** The residues of one block run from 0 to `space` - 1 in order. */
  lemma InBlock(block: nat, space: nat, base: nat, v: nat)
    requires space > 0 && base == block * space && base <= v < base + space
    ensures v % space == v - base
  {
    QuotientRemainder(block, space, v - base);
  }

  lemma {:induction false} BlockCount(q: nat, space: nat, r: nat)
    requires r < space
    ensures |Preimages(q, space, r)| == q
  {
    if q == 0 {
      assert Preimages(0, space, r) == {};
    } else {
      BlockCount(q - 1, space, r);
      OneMoreBlock(q - 1, space, r);
    }
  }

  lemma OneMoreBlock(q: nat, space: nat, r: nat)
    requires r < space
    ensures |Preimages(q + 1, space, r)| == |Preimages(q, space, r)| + 1
  {
    var base := q * space;
    MulSum(q, 1, space);
    assert (q + 1) * space == base + space;
    var top := base + r;
    InBlock(q, space, base, top);
    forall v: nat | v in Preimages(q + 1, space, r) && v !in Preimages(q, space, r) ensures v == top {
      InBlock(q, space, base, v);
    }
    assert Preimages(q + 1, space, r) == Preimages(q, space, r) + {top};
  }

  lemma MoreThanHalf(digits: nat)
    requires 1 <= digits <= 9
    ensures Space(digits) == Pow10(digits) && 0 < Space(digits) <= UINT32 && Limit(Space(digits)) > UINT32 / 2
  {
    Pow10Values();
    Pow10Monotone(digits, 9);
    SpaceIsPow10(digits);
    LimitIsWholeBlocks(Space(digits));
  }

  /** The four bytes of a value, most significant first. */
  function DrawOf(v: nat): (draw: Draw)
    requires v < UINT32
    ensures DrawValue(draw) == v
  {
    var hi := v / 0x1_0000;
    var lo := v % 0x1_0000;
    (hi / 0x100, hi % 0x100, lo / 0x100, lo % 0x100)
  }

  /** Four bytes and 32-bit values correspond one to one, the first byte counting most. */
  lemma DrawsAreValues(draw: Draw)
    ensures DrawOf(DrawValue(draw)) == draw && DrawValue(draw) == BytesValue([draw.0, draw.1, draw.2, draw.3])
  {
    FourBytes(draw.0, draw.1, draw.2, draw.3);
    var hi, lo := draw.0 * 0x100 + draw.1, draw.2 * 0x100 + draw.3;
    assert DrawValue(draw) == hi * 0x1_0000 + lo;
    assert DrawValue(draw) / 0x1_0000 == hi && DrawValue(draw) % 0x1_0000 == lo;
  }

  /** The accepted draws that print residue `r`. */
  ghost function AcceptedDraws(space: nat, r: nat): set<Draw>
    requires space > 0
  {
    set v: nat | v < Limit(space) && v % space == r :: DrawOf(v)
  }

  predicate Prints(space: nat, r: nat, draw: Draw)
    requires space > 0
  {
    DrawValue(draw) < Limit(space) && DrawValue(draw) % space == r
  }

  lemma AcceptedDrawsAre(space: nat, r: nat, draw: Draw)
    requires space > 0
    ensures draw in AcceptedDraws(space, r) <==> Prints(space, r, draw)
  {
    var v: nat := DrawValue(draw);
    DrawsAreValues(draw);
    if v < Limit(space) && v % space == r {
      assert DrawOf(v) in AcceptedDraws(space, r);
    }
  }

  lemma {:induction false} ImageSize(values: set<nat>, draws: set<Draw>)
    requires forall v :: v in values ==> v < UINT32
    requires draws == set v | v in values :: DrawOf(v)
    ensures |draws| == |values|
    decreases values
  {
    if v :| v in values {
      var rest := set w | w in values - {v} :: DrawOf(w);
      ImageSize(values - {v}, rest);
      forall w | w in values - {v} ensures DrawOf(w) != DrawOf(v) {
        assert DrawValue(DrawOf(w)) == w && DrawValue(DrawOf(v)) == v;
      }
      assert draws == rest + {DrawOf(v)};
    }
  }

  /**
   * No bias: for one to nine digits more than half of all draws are accepted, and every residue is printed by
   * the same number of accepted four-byte draws.
   */
  lemma EveryCodeEquallyLikely(digits: nat, r: nat)
    requires 1 <= digits <= 9 && r < Pow10(digits)
    ensures var space := Space(digits);
            && space == Pow10(digits)
            && Limit(space) > UINT32 / 2
            && |AcceptedDraws(space, r)| == Limit(space) / space
            && forall draw :: draw in AcceptedDraws(space, r) <==> Prints(space, r, draw)
  {
    MoreThanHalf(digits);
    var space := Space(digits);
    LimitIsWholeBlocks(space);
    var q := Limit(space) / space;
    AcceptedCount(space, q, r);
    forall draw ensures draw in AcceptedDraws(space, r) <==> Prints(space, r, draw) {
      AcceptedDrawsAre(space, r, draw);
    }
  }

  lemma AcceptedCount(space: nat, q: nat, r: nat)
    requires r < space && Limit(space) == q * space
    ensures |AcceptedDraws(space, r)| == q
  {
    var values := set v: nat | v < Limit(space) && v % space == r;
    assert values == Preimages(q, space, r);
    BlockCount(q, space, r);
    ImageSize(values, AcceptedDraws(space, r));
  }

  /** The printed code has exactly the requested width and reads back as the residue. */
  lemma CodeReadsBack(digits: nat, v: nat)
    requires 1 <= digits <= 19
    ensures Space(digits) > 0
    ensures var code := ZeroPad(digits, v % Space(digits));
            |code| == digits && AllDigits(code) && Val(code) == v % Space(digits)
  {
    SpaceIsPow10(digits);
    ZeroPadExact(digits, v % Pow10(digits));
  }

  predicate Odd(m: nat) { m % 2 == 1 }

  lemma OddRemainder(m: nat, even: nat)
    requires Odd(m) && even >= 1 && even % 2 == 0
    ensures Odd(m % even)
  {
    var k, half := m / even, even / 2;
    assert m == k * even + m % even;
    assert k * even == 2 * (k * half);
  }

  /** One more digit on an odd multiple of `p`, modulo `2 * p * q` for an even `q`. */
  lemma OddStep(p: nat, m: nat, q: nat, modulus: nat, space: nat) returns (m': nat)
    requires p >= 1 && Odd(m) && q >= 1 && q % 2 == 0 && modulus == (2 * p) * q && modulus >= 1 && space == p * m
    ensures space * 10 % modulus == (2 * p) * m' && Odd(m')
  {
    var five, double := 5 * m, 2 * p;
    m' := five % q;
    OddRemainder(five, q);
    TenTimes(p, m);
    RemainderOfProduct(double, five, q, modulus);
  }

  lemma RemainderOfProduct(p: nat, x: nat, q: nat, modulus: nat)
    requires p >= 1 && q >= 1 && modulus >= 1 && modulus == p * q
    ensures p * x % modulus == p * (x % q)
  {
    var k, r := x / q, x % q;
    Euclid(x, q);
    MulStrict(p, r, q);
    MulStrict(p, -1, r);
    Distribute(p, k, q, r);
    var y := p * r;
    QuotientRemainder(k, modulus, y);
  }

  lemma TenTimes(p: nat, m: nat)
    ensures p * m * 10 == (2 * p) * (5 * m)
  {
  }

  /** Below 64 digits the wrapped space is an odd multiple of 2^digits. */
  lemma {:induction false} SpaceIsOddMultiple(digits: nat) returns (m: nat)
    requires digits <= 63
    ensures Space(digits) == Pow2(digits) * m && Odd(m)
  {
    if digits == 0 {
      m := 1;
    } else {
      var m' := SpaceIsOddMultiple(digits - 1);
      var p, q := Pow2(digits - 1), Pow2(64 - digits);
      PowersOf64(digits);
      m := OddStep(p, m', q, UINT64, Space(digits - 1));
    }
  }

  lemma TwiceIsEven(x: nat)
    ensures (2 * x) % 2 == 0
  {
  }

  lemma PowersOf64(digits: nat)
    requires 1 <= digits <= 63
    ensures UINT64 == (2 * Pow2(digits - 1)) * Pow2(64 - digits)
    ensures Pow2(digits) == 2 * Pow2(digits - 1) && Pow2(64 - digits) % 2 == 0
  {
    Pow2Sum(digits, 64 - digits);
    Pow2Of64();
    TwiceIsEven(Pow2(63 - digits));
  }

  lemma Pow2Of64()
    ensures Pow2(64) == UINT64
  {
    Pow2Values();
    Pow2Sum(32, 32);
  }

  lemma OddMultipleIsLarge(digits: nat)
    requires digits <= 63
    ensures Space(digits) >= Pow2(digits)
  {
    var m := SpaceIsOddMultiple(digits);
    MulAtLeast(m, Pow2(digits));
    Commute(m, Pow2(digits));
  }

  lemma Commute(a: int, b: int)
    ensures a * b == b * a
  {
  }

  /** Doubling the last half power wraps to nothing. */
  lemma LastDoubling(p: nat, m: nat, space: nat)
    requires UINT64 == 2 * p && space == p * m
    ensures space * 10 % UINT64 == 0
  {
    TenTimes(p, m);
    Commute(2 * p, 5 * m);
    var k := 5 * m;
    QuotientRemainder(k, UINT64, 0);
  }

  lemma SpaceOf64()
    ensures Space(64) == 0
  {
    var last: nat := 63;
    var m := SpaceIsOddMultiple(last);
    assert UINT64 == 2 * Pow2(last) by { Pow2Of64(); }
    LastDoubling(Pow2(last), m, Space(last));
    assert Space(last + 1) == Space(last) * 10 % UINT64;
  }

  /** The modulus is zero, and the program panics, exactly from 64 digits on. */
  lemma {:induction false} SpaceVanishesFrom64(digits: nat)
    ensures Space(digits) == 0 <==> digits >= 64
  {
    if digits <= 63 {
      OddMultipleIsLarge(digits);
    } else if digits == 64 {
      SpaceOf64();
    } else {
      SpaceVanishesFrom64(digits - 1);
    }
  }

  /** The wrapped spaces from 19 to 32 digits. */
  const WIDE: seq<nat> := [
    10000000000000000000, 7766279631452241920, 3875820019684212736, 1864712049423024128, 200376420520689664,
    2003764205206896640, 1590897978359414784, 15908979783594147840, 11515845246265065472, 4477988020393345024,
    7886392056514347008, 5076944270305263616, 13875954555633532928, 9632337040368467968]

  lemma {:induction false} WideSpace(i: nat)
    requires i <= 13
    ensures Space(19 + i) == WIDE[i] && WIDE[i] > UINT32
  {
    if i == 0 {
      SpaceOf19();
    } else {
      WideSpace(i - 1);
    }
  }

  lemma WideSpaces(digits: nat)
    requires 10 <= digits <= 32
    ensures Space(digits) > UINT32
  {
    if digits <= 19 {
      Pow10Values();
      Pow10Monotone(10, digits);
      SpaceIsPow10(digits);
    } else {
      WideSpace(digits - 19);
    }
  }

  lemma SpaceOf19()
    ensures Space(19) == 10_000_000_000_000_000_000
  {
    SpaceIsPow10(19);
    Pow10Values();
    assert Pow10(12) == 10 * Pow10(11) && Pow10(11) == 10 * Pow10(10);
    assert Pow10(14) == 10 * Pow10(13) && Pow10(13) == 10 * Pow10(12);
    assert Pow10(16) == 10 * Pow10(15) && Pow10(15) == 10 * Pow10(14);
    assert Pow10(18) == 10 * Pow10(17) && Pow10(17) == 10 * Pow10(16);
    assert Pow10(19) == 10 * Pow10(18);
  }

  /** Wherever the sampler does not panic: no draw is ever accepted exactly from ten digits on. */
  lemma TenDigitsNeverAccept(digits: nat)
    requires Space(digits) > 0
    ensures Limit(Space(digits)) == 0 <==> digits >= 10
  {
    SpaceVanishesFrom64(digits);
    if 10 <= digits <= 32 {
      WideSpaces(digits);
      SmallRemainder(UINT32, Space(digits));
    } else if digits >= 33 {
      OddMultipleIsLarge(digits);
      Pow2Values();
      Pow2Monotone(33, digits);
      assert Pow2(33) == 2 * Pow2(32);
      SmallRemainder(UINT32, Space(digits));
    } else if digits >= 1 {
      MoreThanHalf(digits);
    } else {
      assert Space(0) == 1;
    }
  }
}
