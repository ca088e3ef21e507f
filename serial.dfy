/**
  Serial number arithmetic on 32-bit unsigned integers (RFC 1982, section 3.2).

  A `uint32_t` is the subset type `Uint32` of the integers 0 .. 2^32-1 and the
  three machine operations the comparisons use are written out:
    - `WrapSub(a, b)` is the unsigned subtraction `a - b`, reduced modulo 2^32;
    - `ToInt32(x)` is the cast `(int32_t)x`, the two's complement reading;
    - `FlipTop(b)` is `b ^ 0x80000000`, which flips bit 31 only and so adds
      2^31 when that bit is clear and subtracts 2^31 when it is set.
  Each comparison is related to the definition section 3.2 of RFC 1982 gives
  on the integers, `Rfc1982Lt` and `Rfc1982Gt`, with SERIAL_BITS = 32.
 */
module Serial {

  /** 2^31: half the serial number space. */
  const Half: int := 0x8000_0000

  /** 2^32: the size of the serial number space. */
  const Modulus: int := 0x1_0000_0000

  type Uint32 = x: int | 0 <= x < 0x1_0000_0000

  /** Unsigned 32-bit subtraction, wrapping around modulo 2^32. */
  function WrapSub(a: Uint32, b: Uint32): (d: Uint32)
    ensures (b + d) % Modulus == a
  {
    (a - b) % Modulus
  }

  /** The two's complement reading of a 32-bit word, as a cast to int32_t gives it. */
  function ToInt32(x: Uint32): (r: int)
    ensures -Half <= r < Half
    ensures r < 0 <==> x >= Half
  {
    if x < Half then x else x - Modulus
  }

  /** b ^ 0x80000000: the serial number exactly half the space away from b. */
  function FlipTop(b: Uint32): (r: Uint32)
    ensures r - b == Half || b - r == Half
  {
    if b < Half then b + Half else b - Half
  }

  /** "i1 is less than i2" as section 3.2 of RFC 1982 defines it. */
  predicate Rfc1982Lt(i1: Uint32, i2: Uint32)
  {
    (i1 < i2 && i2 - i1 < Half) || (i1 > i2 && i1 - i2 > Half)
  }

  /** "i1 is greater than i2" as section 3.2 of RFC 1982 defines it. */
  predicate Rfc1982Gt(i1: Uint32, i2: Uint32)
  {
    (i1 < i2 && i2 - i1 > Half) || (i1 > i2 && i1 - i2 < Half)
  }

  /** isc_serial_lt: false for the undefined pair, otherwise the sign of a - b. */
  function Lt(a: Uint32, b: Uint32): (r: bool)
    ensures r <==> Rfc1982Lt(a, b)
  {
    if a == FlipTop(b) then false
    else ToInt32(WrapSub(a, b)) < 0
  }

  /** isc_serial_gt: the sign of a - b, with no special case for the undefined pair. */
  function Gt(a: Uint32, b: Uint32): (r: bool)
    ensures r <==> Rfc1982Gt(a, b)
  {
    ToInt32(WrapSub(a, b)) > 0
  }

  /** isc_serial_le */
  function Le(a: Uint32, b: Uint32): (r: bool)
    ensures r <==> a == b || Rfc1982Lt(a, b)
  {
    if a == b then true else Lt(a, b)
  }

  /** isc_serial_ge */
  function Ge(a: Uint32, b: Uint32): (r: bool)
    ensures r <==> a == b || Rfc1982Gt(a, b)
  {
    if a == b then true else Gt(a, b)
  }

  /** isc_serial_eq: equal serial numbers are the ones neither below nor above each other, nor antipodal. */
  function Eq(a: Uint32, b: Uint32): (r: bool)
    ensures r <==> !Rfc1982Lt(a, b) && !Rfc1982Gt(a, b) && a != FlipTop(b)
  {
    a == b
  }

  /** isc_serial_ne */
  function Ne(a: Uint32, b: Uint32): (r: bool)
    ensures r <==> !Eq(a, b)
  {
    a != b
  }

  /** lt and gt are mirror images: a is below b exactly when b is above a. */
  lemma LtIsGtSwapped(a: Uint32, b: Uint32)
    ensures Lt(a, b) == Gt(b, a)
  {
  }

  /** Neither lt nor gt holds for the pair RFC 1982 leaves undefined. */
  lemma AntipodalIncomparable(a: Uint32, b: Uint32)
    requires a == FlipTop(b)
    ensures !Lt(a, b) && !Gt(a, b) && !Lt(b, a) && !Gt(b, a)
  {
  }

  /** lt is asymmetric and irreflexive; so is gt. */
  lemma LtGtStrict(a: Uint32, b: Uint32)
    ensures !(Lt(a, b) && Lt(b, a)) && !(Gt(a, b) && Gt(b, a))
    ensures !Lt(a, a) && !Gt(a, a)
  {
  }

  /** le and ge are lt and gt widened by equality, hence reflexive. */
  lemma LeGeWidenByEquality(a: Uint32, b: Uint32)
    ensures Le(a, b) == (a == b || Lt(a, b)) && Ge(a, b) == (a == b || Gt(a, b))
    ensures Le(a, a) && Ge(a, a)
  {
  }

  /** Outside the undefined pair, exactly one of eq, lt and gt holds. */
  lemma Trichotomy(a: Uint32, b: Uint32)
    requires a != FlipTop(b)
    ensures Eq(a, b) || Lt(a, b) || Gt(a, b)
    ensures !(Eq(a, b) && Lt(a, b)) && !(Eq(a, b) && Gt(a, b)) && !(Lt(a, b) && Gt(a, b))
  {
  }

  /** eq and ne are complements and agree with integer equality. */
  lemma EqNeComplement(a: Uint32, b: Uint32)
    ensures Eq(a, b) == (a == b) && Ne(a, b) == (a != b) && Eq(a, b) != Ne(a, b)
  {
  }
}
