/** Numeric columns: decodePostgresNumeric of internal/store/postgres_scan.go. */
module Numeric {
  import opened Domain
  import opened Postgres

  const MAX_EXPONENT := 78

  /** A decoded column: null, not a finite number, or a coefficient and a power of ten. */
  datatype Column = Null | NotFinite | Finite(coefficient: Option<int>, exp: int)

  function Power(base: nat, k: nat): (p: int)
    requires base > 0
    ensures p >= 1
  {
    if k == 0 then 1 else base * Power(base, k - 1)
  }

  lemma Associates(x: int, y: int, z: int)
    ensures x * y * z == x * (y * z)
  {
  }

  lemma {:induction false} PowersMultiply(base: nat, a: nat, b: nat)
    requires base > 0
    ensures Power(base, a + b) == Power(base, a) * Power(base, b)
  {
    if a > 0 {
      PowersMultiply(base, a - 1, b);
      Associates(base, Power(base, a - 1), Power(base, b));
      assert Power(base, a + b) == base * Power(base, a - 1 + b);
    }
  }

  lemma TwoTo64()
    ensures Power(2, 64) == MAX_UINT64 + 1
  {
    assert Power(2, 8) == 0x100;
    PowersMultiply(2, 8, 8);
    PowersMultiply(2, 16, 16);
    PowersMultiply(2, 32, 32);
  }

  lemma TwoTo256()
    ensures Power(2, 256) == TWO_TO_256
  {
    TwoTo64();
    PowersMultiply(2, 64, 64);
    PowersMultiply(2, 128, 128);
  }

  lemma TenTo26()
    ensures Power(10, 26) == 100_000_000_000_000_000_000_000_000
  {
    assert Power(10, 7) == 10_000_000;
    assert Power(10, 6) == 1_000_000;
    PowersMultiply(10, 6, 7);
    PowersMultiply(10, 13, 13);
  }

  lemma TenTo78()
    ensures Power(10, 78) == TEN_TO_78 > TWO_TO_256
  {
    TenTo26();
    PowersMultiply(10, 26, 26);
    PowersMultiply(10, 26, 52);
  }

  /** The number of bits of a non-negative integer. */
  function BitLen(x: nat): (n: nat) {
    if x == 0 then 0 else 1 + BitLen(x / 2)
  }

  lemma {:induction false} BitLenIsBound(x: nat, n: nat)
    ensures BitLen(x) <= n <==> x < Power(2, n)
  {
    if x > 0 && n > 0 {
      BitLenIsBound(x / 2, n - 1);
    }
  }

  /** The division that rounds toward zero. */
  function Quotient(a: int, b: int): (q: int)
    requires b > 0
  {
    if a >= 0 then a / b else -(-a / b)
  }

  function Shifted(coefficient: int, exp: int): (r: Option<int>) {
    if exp > 0 then Some(coefficient * Power(10, exp))
    else if exp < 0 then
      var q := Quotient(coefficient, Power(10, -exp));
      if coefficient - q * Power(10, -exp) != 0 then None else Some(q)
    else Some(coefficient)
  }

  function Decode(v: Column, required: bool): (r: Result<Option<int>>) {
    match v
    case Null => if required then Err(InconsistentData) else Ok(None)
    case NotFinite => Err(InconsistentData)
    case Finite(coefficient, exp) =>
      if exp < -MAX_EXPONENT || exp > MAX_EXPONENT then Err(InconsistentData) else
      var shifted := Shifted(if coefficient.None? then 0 else coefficient.value, exp);
      if shifted.None? || shifted.value < 0 || BitLen(shifted.value) > 256 then Err(InconsistentData)
      else Ok(Some(shifted.value))
  }

  method DecodePostgresNumeric(v: Column, required: bool) returns (r: Result<Option<int>>)
    ensures r == Decode(v, required)
  {
    if v.Null? {
      return if required then Err(InconsistentData) else Ok(None);
    }
    if v.NotFinite? {
      return Err(InconsistentData);
    }
    if v.exp < -MAX_EXPONENT || v.exp > MAX_EXPONENT {
      return Err(InconsistentData);
    }
    var integer := 0;
    if v.coefficient.Some? {
      integer := v.coefficient.value;
    }
    var power := Power(10, if v.exp < 0 then -v.exp else v.exp);
    if v.exp > 0 {
      integer := integer * power;
    } else if v.exp < 0 {
      var quotient := Quotient(integer, power);
      var remainder := integer - quotient * power;
      integer := quotient;
      if remainder != 0 {
        return Err(InconsistentData);
      }
    }
    if integer < 0 || BitLen(integer) > 256 {
      return Err(InconsistentData);
    }
    return Ok(Some(integer));
  }

  /** The column is the integer `k`: coefficient times ten to the exponent, without any division. */
  predicate Denotes(v: Column, k: int) {
    && v.Finite?
    && var c := if v.coefficient.None? then 0 else v.coefficient.value;
       if v.exp >= 0 then k == c * Power(10, v.exp) else c == k * Power(10, -v.exp)
  }

  lemma Exceeds(c: int, p: int, bound: int)
    requires c != 0 && p >= bound >= 0
    ensures c * p >= bound || c * p <= -bound
  {
    if c > 0 {
      assert c * p >= p;
    } else {
      assert c * p <= -p;
    }
  }

  lemma MultipleDivides(k: int, p: int)
    requires p > 0
    ensures k * p / p == k
  {
    var q := k * p / p;
    assert (k - q) * p == k * p % p;
    if k != q {
      Exceeds(k - q, p, p);
    }
  }

  lemma ExactQuotient(c: int, p: int, k: int)
    requires p > 0
    ensures c == k * p <==> (c == Quotient(c, p) * p && k == Quotient(c, p))
  {
    if c == k * p {
      MultipleDivides(if k >= 0 then k else -k, p);
      assert k < 0 ==> -c == (-k) * p;
    }
  }

  /** Shifting the decimal point finds the integer that the column denotes, if there is one. */
  lemma ShiftedIsDenoted(c: int, exp: int, k: int)
    ensures Shifted(c, exp) == Some(k) <==> Denotes(Finite(Some(c), exp), k)
  {
    if exp < 0 {
      ExactQuotient(c, Power(10, -exp), k);
    }
  }

  /** A column decodes to `k` exactly when it denotes `k`, an unsigned 256-bit integer, with a moderate exponent. */
  lemma DecodesExactly(v: Column, required: bool, k: int)
    ensures Decode(v, required) == Ok(Some(k)) <==>
            Denotes(v, k) && 0 <= k < TWO_TO_256 && -MAX_EXPONENT <= v.exp <= MAX_EXPONENT
  {
    if v.Finite? {
      var c := if v.coefficient.None? then 0 else v.coefficient.value;
      ShiftedIsDenoted(c, v.exp, k);
      TwoTo256();
      if k >= 0 {
        BitLenIsBound(k, 256);
      }
    }
  }

  lemma {:induction false} PowerGrows(low: nat, high: nat)
    requires low <= high
    ensures Power(10, low) <= Power(10, high)
  {
    if low < high {
      PowerGrows(low, high - 1);
    }
  }

  /** The upper limit turns away no value but zero: a larger power of ten does not fit 256 bits. */
  lemma UpperLimitLosesOnlyZero(v: Column, k: int)
    requires Denotes(v, k) && 0 <= k < TWO_TO_256 && v.exp >= MAX_EXPONENT
    ensures k == 0
  {
    var c := if v.coefficient.None? then 0 else v.coefficient.value;
    PowerGrows(78, v.exp);
    TenTo78();
    if c != 0 {
      Exceeds(c, Power(10, v.exp), TEN_TO_78);
    }
  }

  /** The lower limit turns away only zero and integers written with at least 79 zeros behind the point. */
  lemma LowerLimitLosesOnlyPadding(v: Column, k: int)
    requires Denotes(v, k) && 0 < k < TWO_TO_256 && v.exp < -MAX_EXPONENT
    ensures v.coefficient.Some? && v.coefficient.value >= 10 * TEN_TO_78
  {
    PowerGrows(79, -v.exp);
    TenTo78();
    Exceeds(k, Power(10, -v.exp), Power(10, 79));
  }

  /** Both limits do turn away columns that denote an unsigned 256-bit integer. */
  lemma LimitsAreLossy()
    ensures Denotes(Finite(Some(10 * TEN_TO_78), -79), 1)
    ensures Decode(Finite(Some(10 * TEN_TO_78), -79), true) == Err(InconsistentData)
    ensures Denotes(Finite(Some(0), 79), 0)
    ensures Decode(Finite(Some(0), 79), true) == Err(InconsistentData)
  {
    TenTo78();
    assert Power(10, 79) == 10 * Power(10, 78);
  }

  /** The value that is written: exponent zero. */
  function Encode(v: Option<int>): (c: Column) {
    if v.None? then Null else Finite(v, 0)
  }

  /** Reading gives back what was written exactly for the values that the update check lets through. */
  lemma RoundTrip(v: Option<int>, required: bool)
    ensures Decode(Encode(v), required) == Ok(v) <==> InUint256(v, required)
  {
    if v.Some? {
      DecodesExactly(Encode(v), required, v.value);
    }
  }

  /** Writing the same integer with another exponent changes nothing that is read, within the limits. */
  lemma RescalingIsInvisible(v: Column, w: Column, k: int, required: bool)
    requires Denotes(v, k) && Denotes(w, k)
    requires -MAX_EXPONENT <= v.exp <= MAX_EXPONENT && -MAX_EXPONENT <= w.exp <= MAX_EXPONENT
    ensures Decode(v, required) == Decode(w, required)
  {
    DecodesExactly(v, required, k);
    DecodesExactly(w, required, k);
    ShiftedIsDenoted(if v.coefficient.None? then 0 else v.coefficient.value, v.exp, k);
    ShiftedIsDenoted(if w.coefficient.None? then 0 else w.coefficient.value, w.exp, k);
  }
}
