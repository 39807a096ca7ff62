/** The compact difficulty codec and the clamped retarget, on exact integers. */
module Difficulty {
  import opened Collections

  const RETARGET_TARGET_SECONDS: nat := 1_209_600
  const MANTISSA_LIMIT: nat := 0x100_0000

  function Pow256(n: nat): (p: nat)
    ensures p > 0
  {
    if n == 0 then 1 else 256 * Pow256(n - 1)
  }

  /** Number of base-256 digits. */
  function ByteLength(t: nat): nat {
    if t == 0 then 0 else 1 + ByteLength(t / 256)
  }

  /** The leading three bytes, left-aligned when there are fewer, then masked to 24 bits. */
  function Mantissa(t: nat): nat {
    var size := ByteLength(t);
    (if size > 3 then Quotient(t, Pow256(size - 3)) else t * Pow256(3 - size)) % MANTISSA_LIMIT
  }

  /** None stands for the RangeError. */
  function Encode(t: int): Option<nat> {
    if t <= 0 || ByteLength(t) > 0xff then None
    else Some(ByteLength(t) * MANTISSA_LIMIT + Mantissa(t))
  }

  function Quotient(n: nat, d: nat): nat
    requires d > 0
  {
    n / d
  }

  /** mantissa * 256^(exponent - 3), rounded down. */
  function Shifted(mantissa: nat, exponent: nat): nat {
    if exponent < 3 then Quotient(mantissa, Pow256(3 - exponent)) else mantissa * Pow256(exponent - 3)
  }

  function Decode(bits: int): Option<nat> {
    if bits < 0 || bits > 0xffff_ffff then None
    else Some(Shifted(bits % MANTISSA_LIMIT, bits / MANTISSA_LIMIT))
  }

  predicate IsCanonical(bits: int) {
    Decode(bits).Some? && Decode(bits).value > 0 && Encode(Decode(bits).value) == Some(bits)
  }

  method EncodeDifficultyBits(targetMicros: int) returns (bits: Option<nat>)
    ensures bits == Encode(targetMicros)
  {
    if targetMicros <= 0 {
      return None;
    }
    var size, temp := 0, targetMicros;
    while temp > 0
      invariant temp >= 0 && size + ByteLength(temp) == ByteLength(targetMicros)
    {
      temp := temp / 256;
      size := size + 1;
    }
    if size > 0xff {
      return None;
    }
    var mantissa;
    if size > 3 {
      mantissa := Quotient(targetMicros, Pow256(size - 3));
    } else {
      mantissa := targetMicros * Pow256(3 - size);
    }
    bits := Some(size * MANTISSA_LIMIT + mantissa % MANTISSA_LIMIT);
  }

  // ---------- Powers and digits ----------

  lemma {:induction false} Pow256Monotone(m: nat, n: nat)
    requires m <= n
    ensures Pow256(m) <= Pow256(n)
  {
    if m < n {
      Pow256Monotone(m, n - 1);
    }
  }

  lemma {:induction false} ByteLengthBounds(t: nat)
    requires t > 0
    ensures ByteLength(t) > 0 && Pow256(ByteLength(t) - 1) <= t < Pow256(ByteLength(t))
  {
    if t >= 256 {
      ByteLengthBounds(t / 256);
    } else {
      assert ByteLength(t / 256) == 0;
      assert Pow256(1) == 256 * Pow256(0);
    }
  }

  lemma ByteLengthUnique(t: nat, s: nat)
    requires s > 0 && Pow256(s - 1) <= t < Pow256(s)
    ensures ByteLength(t) == s
  {
    ByteLengthBounds(t);
    var k := ByteLength(t);
    if k < s {
      Pow256Monotone(k, s - 1);
    } else if k > s {
      Pow256Monotone(s, k - 1);
    }
  }

  lemma MulOrder(a: nat, b: nat, x: nat)
    requires a <= b
    ensures a * x <= b * x
  {
  }

  lemma QuotientBounds(n: nat, d: nat, lo: nat, hi: nat)
    requires d > 0 && lo * d <= n < hi * d
    ensures lo <= Quotient(n, d) < hi
    ensures Quotient(n, d) * d <= n < (Quotient(n, d) + 1) * d
  {
    var q := n / d;
    assert n == q * d + n % d;
    if q < lo {
      MulOrder(q + 1, lo, d);
    }
    if q >= hi {
      MulOrder(hi, q, d);
    }
  }

  lemma CancelFactor(m: nat, p: nat)
    requires p > 0
    ensures Quotient(m * p, p) == m
  {
    QuotientBounds(m * p, p, m, m + 1);
  }

  // ---------- The shape of an encoding ----------

  /** In units of the mantissa's last byte, a long target lies between 2^16 and 2^24. */
  lemma LeadingBytes(t: nat)
    requires ByteLength(t) >= 3
    ensures 0x1_0000 * Pow256(ByteLength(t) - 3) <= t < MANTISSA_LIMIT * Pow256(ByteLength(t) - 3)
  {
    ByteLengthBounds(t);
    PowShift(ByteLength(t) - 3);
  }

  lemma PowShift(n: nat)
    ensures Pow256(n + 2) == 0x1_0000 * Pow256(n) && Pow256(n + 3) == MANTISSA_LIMIT * Pow256(n)
  {
    assert Pow256(n + 1) == 256 * Pow256(n);
    assert Pow256(n + 2) == 256 * Pow256(n + 1);
  }

  /** For three bytes and more: the mantissa is the unmasked quotient and has a nonzero top byte. */
  lemma LongMantissa(t: nat)
    requires ByteLength(t) >= 3
    ensures Mantissa(t) == Quotient(t, Pow256(ByteLength(t) - 3))
    ensures 0x1_0000 <= Mantissa(t) < MANTISSA_LIMIT
    ensures Mantissa(t) * Pow256(ByteLength(t) - 3) <= t < (Mantissa(t) + 1) * Pow256(ByteLength(t) - 3)
  {
    var size := ByteLength(t);
    LeadingBytes(t);
    UnmaskedMantissa(t, size);
    hide Mantissa, ByteLength, Pow256;
    QuotientBounds(t, Pow256(size - 3), 0x1_0000, MANTISSA_LIMIT);
  }

  lemma UnmaskedMantissa(t: nat, size: nat)
    requires size == ByteLength(t) >= 3 && t < MANTISSA_LIMIT * Pow256(size - 3)
    ensures Mantissa(t) == Quotient(t, Pow256(size - 3))
  {
    hide ByteLength;
    QuotientBounds(t, Pow256(size - 3), 0, MANTISSA_LIMIT);
    if size == 3 {
      QuotientByOne(t);
    }
  }

  lemma QuotientByOne(t: nat)
    ensures Quotient(t, Pow256(0)) == t == t * Pow256(0)
  {
  }

  lemma ShortMantissa(t: nat)
    requires 1 <= ByteLength(t) < 3
    ensures 0x1_0000 <= Mantissa(t) < MANTISSA_LIMIT
    ensures Mantissa(t) == t * Pow256(3 - ByteLength(t))
    ensures Quotient(Mantissa(t), Pow256(3 - ByteLength(t))) == t
    ensures Mantissa(t) % Pow256(3 - ByteLength(t)) == 0
  {
    ByteLengthBounds(t);
    hide ByteLength;
    if ByteLength(t) == 1 {
      SmallMantissa(t, 0x1_0000);
    } else {
      SmallMantissa(t, 0x100);
    }
  }

  lemma SmallMantissa(t: nat, unit: nat)
    requires (unit == 0x1_0000 && 1 <= t < 0x100) || (unit == 0x100 && 0x100 <= t < 0x1_0000)
    ensures 0x1_0000 <= t * unit < MANTISSA_LIMIT && Quotient(t * unit, unit) == t && t * unit % unit == 0
  {
  }

  /** Splitting an encoding gives back the size and the mantissa. */
  lemma EncodedFields(t: nat)
    requires t > 0 && ByteLength(t) <= 0xff
    ensures Encode(t).Some? && 0 <= Encode(t).value <= 0xffff_ffff
    ensures Encode(t).value / MANTISSA_LIMIT == ByteLength(t)
    ensures Encode(t).value % MANTISSA_LIMIT == Mantissa(t)
  {
  }

  // ---------- Precision ----------

  /** Decoding an encoded target rounds down, by less than one part in 2^16,
      and not at all below 2^24. */
  lemma DecodeEncode(t: nat)
    requires t > 0 && ByteLength(t) <= 0xff
    ensures Encode(t).Some? && Decode(Encode(t).value).Some?
    ensures 0 < Decode(Encode(t).value).value <= t
    ensures (t - Decode(Encode(t).value).value) * 0x1_0000 < t
    ensures t < MANTISSA_LIMIT ==> Decode(Encode(t).value).value == t
  {
    EncodedFields(t);
    ShiftedMantissa(t, ByteLength(t));
    hide Mantissa, ByteLength, Pow256, Shifted, Encode;
  }

  lemma ShiftedMantissa(t: nat, size: nat)
    requires t > 0 && size == ByteLength(t)
    ensures 0 < Shifted(Mantissa(t), size) <= t
    ensures (t - Shifted(Mantissa(t), size)) * 0x1_0000 < t
    ensures t < MANTISSA_LIMIT ==> Shifted(Mantissa(t), size) == t
  {
    ByteLengthBounds(t);
    if size < 3 {
      ShortMantissa(t);
    } else {
      LongMantissa(t);
      LeadingBytes(t);
      RoundingLoss(t, Mantissa(t), Pow256(size - 3));
      ExactBelowLimit(t, size);
    }
    hide Mantissa, ByteLength, Pow256;
  }

  lemma ExactBelowLimit(t: nat, size: nat)
    requires size == ByteLength(t) >= 3
    ensures t < MANTISSA_LIMIT ==> size == 3 && Mantissa(t) * Pow256(0) == t
  {
    if t < MANTISSA_LIMIT {
      ByteLengthBounds(t);
      Pow256Monotone(3, if size > 3 then size - 1 else 3);
      PowShift(0);
      LongMantissa(t);
      QuotientByOne(t);
    }
    hide Mantissa, ByteLength;
  }

  lemma RoundingLoss(t: nat, m: nat, p: nat)
    requires m * p <= t < (m + 1) * p && 0x1_0000 * p <= t && m > 0 && p > 0
    ensures 0 < m * p <= t && (t - m * p) * 0x1_0000 < t
  {
    assert (m + 1) * p == m * p + p;
    MulOrder(1, m, p);
  }

  /** The canonical bit patterns, by their fields alone. */
  predicate CanonicalFields(bits: int) {
    0 <= bits <= 0xffff_ffff &&
    var exponent, mantissa := bits / MANTISSA_LIMIT, bits % MANTISSA_LIMIT;
    exponent >= 1 && mantissa >= 0x1_0000 &&
    (exponent == 1 ==> mantissa % 0x1_0000 == 0) && (exponent == 2 ==> mantissa % 0x100 == 0)
  }

  /** A three-byte mantissa shifted left is read back by its size and leading bytes. */
  lemma ShiftedFields(m: nat, e: nat)
    requires 0x1_0000 <= m < MANTISSA_LIMIT && e >= 3
    ensures ByteLength(Shifted(m, e)) == e && Mantissa(Shifted(m, e)) == m
  {
    ShiftedLength(m, e);
    LongMantissa(Shifted(m, e));
    CancelFactor(m, Pow256(e - 3));
  }

  lemma ShiftedLength(m: nat, e: nat)
    requires 0x1_0000 <= m < MANTISSA_LIMIT && e >= 3
    ensures ByteLength(Shifted(m, e)) == e
  {
    var p := Pow256(e - 3);
    PowShift(e - 3);
    MulOrder(0x1_0000, m, p);
    MulOrder(m + 1, MANTISSA_LIMIT, p);
    ByteLengthUnique(Shifted(m, e), e);
  }

  lemma FieldsDecode(bits: int)
    requires CanonicalFields(bits)
    ensures IsCanonical(bits) && ByteLength(Decode(bits).value) == bits / MANTISSA_LIMIT
    ensures Mantissa(Decode(bits).value) == bits % MANTISSA_LIMIT
  {
    var e, m := bits / MANTISSA_LIMIT, bits % MANTISSA_LIMIT;
    if e < 3 {
      assert Pow256(1) == 256 && Pow256(2) == 0x1_0000 && Pow256(0) == 1;
      ByteLengthUnique(Shifted(m, e), e);
    } else {
      ShiftedFields(m, e);
    }
  }

  /** Every encoding has canonical fields, so it is canonical. */
  lemma EncodeIsCanonical(t: nat)
    requires t > 0 && ByteLength(t) <= 0xff
    ensures Encode(t).Some? && CanonicalFields(Encode(t).value) && IsCanonical(Encode(t).value)
  {
    EncodedFields(t);
    ByteLengthBounds(t);
    assert Pow256(1) == 256 && Pow256(2) == 0x1_0000;
    if ByteLength(t) < 3 {
      ShortMantissa(t);
    } else {
      LongMantissa(t);
    }
    FieldsDecode(Encode(t).value);
  }

  lemma CanonicalFieldsOf(bits: int)
    ensures IsCanonical(bits) <==> CanonicalFields(bits)
  {
    if IsCanonical(bits) {
      EncodeIsCanonical(Decode(bits).value);
    }
    if CanonicalFields(bits) {
      FieldsDecode(bits);
    }
  }

  /** Two canonical encodings of one target are the same bits. */
  lemma CanonicalUnique(a: int, b: int)
    requires CanonicalFields(a) && CanonicalFields(b) && Decode(a) == Decode(b)
    ensures a == b
  {
    FieldsDecode(a);
    FieldsDecode(b);
  }

  /** Encoding picks the greatest representable target that does not exceed the given one. */
  lemma EncodeIsGreatest(t: nat, bits: int)
    requires t > 0 && ByteLength(t) <= 0xff
    requires CanonicalFields(bits) && Decode(bits).value <= t
    ensures Encode(t).Some? && Decode(Encode(t).value).Some?
    ensures Decode(bits).value <= Decode(Encode(t).value).value
  {
    EncodedFields(t);
    FieldsDecode(bits);
    GreatestShifted(bits % MANTISSA_LIMIT, bits / MANTISSA_LIMIT, t);
  }

  lemma GreatestShifted(m: nat, e: nat, t: nat)
    requires 0 < Shifted(m, e) <= t && ByteLength(Shifted(m, e)) == e
    ensures Shifted(m, e) <= Shifted(Mantissa(t), ByteLength(t))
  {
    ByteLengthMonotone(Shifted(m, e), t);
    if ByteLength(t) < 3 {
      ShortMantissa(t);
    } else if e < ByteLength(t) {
      ShorterIsBelow(Shifted(m, e), t);
    } else {
      SameLengthIsBelow(m, t);
    }
  }

  lemma SameLengthIsBelow(m: nat, t: nat)
    requires ByteLength(t) >= 3 && Shifted(m, ByteLength(t)) <= t
    ensures Shifted(m, ByteLength(t)) <= Shifted(Mantissa(t), ByteLength(t))
  {
    LongMantissa(t);
    GreatestMultiple(t, Mantissa(t), m, Pow256(ByteLength(t) - 3));
  }

  lemma ByteLengthMonotone(c: nat, t: nat)
    requires 0 < c <= t
    ensures ByteLength(c) <= ByteLength(t)
  {
    ByteLengthBounds(c);
    ByteLengthBounds(t);
    var top := if ByteLength(c) > ByteLength(t) then ByteLength(c) - 1 else ByteLength(t);
    Pow256Monotone(ByteLength(t), top);
  }

  /** A number with fewer bytes is below the rounded-down long target. */
  lemma ShorterIsBelow(c: nat, t: nat)
    requires c > 0 && ByteLength(c) < ByteLength(t) && ByteLength(t) >= 3
    ensures c <= Shifted(Mantissa(t), ByteLength(t))
  {
    var s := ByteLength(t);
    ByteLengthBounds(c);
    LongMantissa(t);
    Pow256Monotone(ByteLength(c), s - 1);
    AtLeastUnits(Mantissa(t), s - 3);
    hide Mantissa, ByteLength, Pow256;
  }

  lemma AtLeastUnits(m: nat, n: nat)
    requires 0x1_0000 <= m
    ensures Pow256(n + 2) <= m * Pow256(n)
  {
    PowShift(n);
    MulOrder(0x1_0000, m, Pow256(n));
  }

  lemma GreatestMultiple(t: nat, m: nat, n: nat, p: nat)
    requires t < (m + 1) * p && n * p <= t
    ensures n * p <= m * p
  {
    if n > m {
      MulOrder(m + 1, n, p);
    } else {
      MulOrder(n, m, p);
    }
  }

  // ---------- Retargeting ----------

  function Clamp(timespan: int): (c: nat)
    ensures RETARGET_TARGET_SECONDS / 4 <= c <= RETARGET_TARGET_SECONDS * 4
  {
    var actual := if timespan < 0 then 0 else timespan;
    if actual < RETARGET_TARGET_SECONDS / 4 then RETARGET_TARGET_SECONDS / 4
    else if actual > RETARGET_TARGET_SECONDS * 4 then RETARGET_TARGET_SECONDS * 4
    else actual
  }

  function NextTarget(prior: int, timespan: int): Option<nat> {
    if prior <= 0 then None
    else
      var next := Quotient(prior * RETARGET_TARGET_SECONDS, Clamp(timespan));
      Some(if next > 0 then next else 1)
  }

  lemma DivideOrder(n: nat, c: nat, d: nat)
    requires 0 < d <= c
    ensures Quotient(n, c) <= Quotient(n, d)
  {
    var q := Quotient(n, c);
    assert n == q * c + n % c;
    MulOrder(d, c, q);
    MulOrder(1, d, n + 1);
    QuotientBounds(n, d, q, n + 1);
  }

  lemma WithinFactorFour(prior: nat, c: nat)
    requires RETARGET_TARGET_SECONDS / 4 <= c <= RETARGET_TARGET_SECONDS * 4
    ensures prior / 4 <= Quotient(prior * RETARGET_TARGET_SECONDS, c) <= 4 * prior
  {
    MulOrder(c, RETARGET_TARGET_SECONDS * 4, prior / 4);
    MulOrder(RETARGET_TARGET_SECONDS / 4, c, 4 * prior + 1);
    QuotientBounds(prior * RETARGET_TARGET_SECONDS, c, prior / 4, 4 * prior + 1);
  }

  /** A retarget moves by at most a factor of four either way, and never reaches zero. */
  lemma RetargetBounds(prior: nat, timespan: int)
    requires prior > 0
    ensures NextTarget(prior, timespan).Some?
    ensures prior / 4 <= NextTarget(prior, timespan).value <= 4 * prior
    ensures NextTarget(prior, timespan).value >= 1
  {
    WithinFactorFour(prior, Clamp(timespan));
  }

  /** Slower blocks never raise the target; an on-time window keeps it. */
  lemma RetargetAntitone(prior: nat, fast: int, slow: int)
    requires prior > 0 && fast <= slow
    ensures NextTarget(prior, fast).Some? && NextTarget(prior, slow).Some?
    ensures NextTarget(prior, slow).value <= NextTarget(prior, fast).value
    ensures NextTarget(prior, RETARGET_TARGET_SECONDS) == Some(prior)
  {
    DivideOrder(prior * RETARGET_TARGET_SECONDS, Clamp(slow), Clamp(fast));
    CancelFactor(prior, RETARGET_TARGET_SECONDS);
  }

  /** The value of a retarget: the old target times the nominal two weeks, divided by the time the window
      took, which counts as at least half a week and at most eight; rounded down, but never to zero. */
  lemma RetargetValue(prior: nat, timespan: int, c: nat)
    requires prior > 0
    requires c == if timespan < 302_400 then 302_400 else if timespan > 4_838_400 then 4_838_400 else timespan
    ensures NextTarget(prior, timespan).Some?
    ensures var v := NextTarget(prior, timespan).value;
            (v * c <= prior * 1_209_600 < (v + 1) * c) || (v == 1 && prior * 1_209_600 < c)
  {
    assert Clamp(timespan) == c;
    var n := prior * 1_209_600;
    var q := Quotient(n, c);
    assert n == q * c + n % c;
    assert (q + 1) * c == q * c + c;
    if q == 0 {
      assert n < c;
    }
  }

  /** Twice as fast doubles the target, four times as fast or faster quadruples it, and half as fast halves
      it, rounded down. */
  lemma RetargetMoves(prior: nat)
    requires prior > 0
    ensures NextTarget(prior, 604_800) == Some(2 * prior)
    ensures forall timespan | timespan <= 302_400 :: NextTarget(prior, timespan) == Some(4 * prior)
    ensures prior >= 2 ==> NextTarget(prior, 2_419_200) == Some(prior / 2)
    ensures prior >= 4 ==> forall timespan | timespan >= 4_838_400 :: NextTarget(prior, timespan) == Some(prior / 4)
  {
    forall timespan | timespan <= 302_400
      ensures NextTarget(prior, timespan) == Some(4 * prior)
    {
      RetargetValue(prior, timespan, 302_400);
    }
    RetargetValue(prior, 604_800, 604_800);
    RetargetValue(prior, 2_419_200, 2_419_200);
    forall timespan | timespan >= 4_838_400 && prior >= 4
      ensures NextTarget(prior, timespan) == Some(prior / 4)
    {
      RetargetValue(prior, timespan, 4_838_400);
    }
  }

  /** What compact bits mean: the top byte counts the target's bytes, the rest are its leading three. */
  lemma DecodeMeans(exponent: nat, mantissa: nat)
    requires exponent <= 255 && mantissa <= 0xff_ffff
    ensures Decode(exponent * 0x100_0000 + mantissa).Some?
    ensures var value := Decode(exponent * 0x100_0000 + mantissa).value;
            && (exponent == 0 ==> value == 0) && (exponent == 1 ==> value == mantissa / 0x1_0000)
            && (exponent == 2 ==> value == mantissa / 0x100) && (exponent == 3 ==> value == mantissa)
            && (exponent > 3 ==> Some(value) == Times256(Decode((exponent - 1) * 0x100_0000 + mantissa)))
  {
    var bits := exponent * 0x100_0000 + mantissa;
    assert bits / 0x100_0000 == exponent && bits % 0x100_0000 == mantissa;
    assert Pow256(0) == 1 && Pow256(1) == 256 && Pow256(2) == 256 * Pow256(1) && Pow256(3) == 256 * Pow256(2);
    if exponent > 3 {
      var fewer := (exponent - 1) * 0x100_0000 + mantissa;
      assert fewer / 0x100_0000 == exponent - 1 && fewer % 0x100_0000 == mantissa;
      var p := Pow256(exponent - 4);
      assert Pow256(exponent - 3) == 256 * p;
      assert mantissa * (256 * p) == 256 * (mantissa * p);
    }
  }

  function Times256(value: Option<nat>): Option<nat> {
    if value.None? then None else Some(256 * value.value)
  }

  function NextBits(bits: int, timespan: int): Option<nat> {
    match Decode(bits)
    case None => None
    case Some(prior) =>
      match NextTarget(prior, timespan)
      case None => None
      case Some(next) => Encode(next)
  }

  /** The next bits are canonical, whatever bits they came from. They fail to exist exactly for bits that
      do not decode to a positive target, and when the next target needs more than 255 bytes. */
  lemma NextBitsCanonical(bits: int, timespan: int)
    ensures NextBits(bits, timespan).Some? <==>
              Decode(bits).Some? && Decode(bits).value > 0
              && ByteLength(NextTarget(Decode(bits).value, timespan).value) <= 0xff
    ensures NextBits(bits, timespan).Some? ==> IsCanonical(NextBits(bits, timespan).value)
    ensures Decode(bits).Some? && Decode(bits).value > 0 && ByteLength(Decode(bits).value) <= 0xfe ==>
              NextBits(bits, timespan).Some?
  {
    if Decode(bits).Some? && Decode(bits).value > 0 {
      var prior := Decode(bits).value;
      RetargetBounds(prior, timespan);
      var next := NextTarget(prior, timespan).value;
      if ByteLength(next) <= 0xff {
        EncodeIsCanonical(next);
      }
      ByteLengthFour(prior, next);
    }
  }

  lemma ByteLengthFour(prior: nat, next: nat)
    requires prior > 0 && 0 < next <= 4 * prior
    ensures ByteLength(next) <= ByteLength(prior) + 1
  {
    ByteLengthBounds(prior);
    ByteLengthBounds(next);
    var top := if ByteLength(next) > ByteLength(prior) + 1 then ByteLength(next) - 1 else ByteLength(prior) + 1;
    Pow256Monotone(ByteLength(prior) + 1, top);
  }
}
