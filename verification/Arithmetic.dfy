/** Checked, saturating and fixed-point integer arithmetic.

    Amounts are unbounded `int`s; every operation the keeper performs with a checked or a
    saturating `i128` primitive goes through one of the functions below, so that an
    intermediate outside the 128-bit range is an explicit error or an explicit clamp. */
module Arithmetic {

  datatype Error = InternalError | OverOrUnderflow

  datatype Option<+T> = None | Some(value: T) {
    predicate IsFailure() {
      None?
    }

    function PropagateFailure<U>(): Option<U>
      requires None?
    {
      None
    }

    function Extract(): T
      requires Some?
    {
      value
    }
  }

  datatype Result<+T> = Ok(value: T) | Err(error: Error) {
    predicate IsFailure() {
      Err?
    }

    function PropagateFailure<U>(): Result<U>
      requires Err?
    {
      Err(error)
    }

    function Extract(): T
      requires Ok?
    {
      value
    }

    function ToOption(): Option<T> {
      if Ok? then Some(value) else None
    }
  }

  const BPS_FACTOR := 10_000
  const I128_MAX := 170_141_183_460_469_231_731_687_303_715_884_105_727
  const I128_MIN := -170_141_183_460_469_231_731_687_303_715_884_105_728

  predicate Fits(x: int) {
    I128_MIN <= x <= I128_MAX
  }

  function Min(a: int, b: int): int {
    if a <= b then a else b
  }

  function Max(a: int, b: int): int {
    if a >= b then a else b
  }

  /** Division rounding toward zero, as the machine does it. */
  function Quot(a: int, b: int): int
    requires b != 0
  {
    if a >= 0 then a / b else -((-a) / b)
  }

  function Checked(x: int): Result<int> {
    if Fits(x) then Ok(x) else Err(OverOrUnderflow)
  }

  function CheckedDiv(a: int, b: int): Result<int> {
    if b == 0 then Err(OverOrUnderflow) else Checked(Quot(a, b))
  }

  function Pow10(n: nat): (r: int)
    ensures r >= 1
  {
    if n == 0 then 1 else 10 * Pow10(n - 1)
  }

  function CheckedPow10(n: nat): Result<int> {
    Checked(Pow10(n))
  }

  /** Where a saturating operation ends up. */
  function Clamp(x: int): int {
    if x > I128_MAX then I128_MAX else if x < I128_MIN then I128_MIN else x
  }

  /** `a * k` checked, then divided by `d`. */
  function MulDiv(a: int, k: int, d: int): Result<int> {
    var product :- Checked(a * k);
    CheckedDiv(product, d)
  }

  /** `a * k` checked, `d - 1` added checked, then divided by `d`. */
  function MulDivCeil(a: int, k: int, d: int): Result<int> {
    var product :- Checked(a * k);
    var raised :- Checked(product + (d - 1));
    CheckedDiv(raised, d)
  }

  /** A basis-point share rounded toward zero; the product saturates first. */
  function FixedMulFloor(amount: int, bps: int): int {
    Quot(Clamp(amount * bps), BPS_FACTOR)
  }

  /** A basis-point share rounded up; product and rounding term each saturate first. */
  function FixedMulCeil(amount: int, bps: int): int {
    Quot(Clamp(Clamp(amount * bps) + (BPS_FACTOR - 1)), BPS_FACTOR)
  }

  /** `q` is `n / d` rounded down. */
  predicate Floors(q: int, n: int, d: int) {
    q * d <= n < (q + 1) * d
  }

  /** `q` is `n / d` rounded up. */
  predicate Ceils(q: int, n: int, d: int) {
    (q - 1) * d < n <= q * d
  }

  // ----- What the roundings mean

  /** A floor quotient is the greatest integer whose multiple fits under the numerator. */
  lemma FloorGalois(n: int, d: int, q: int)
    requires d > 0
    ensures q <= n / d <==> q * d <= n
  {
    var f := n / d;
    assert n == f * d + n % d;
    if q <= f {
      MulLe(q, f, d);
    } else {
      MulLe(f + 1, q, d);
      assert (f + 1) * d == f * d + d;
    }
  }

  /** A ceil quotient is the least integer whose multiple covers the numerator. */
  lemma CeilGalois(n: int, d: int, q: int)
    requires d > 0
    ensures (n + (d - 1)) / d <= q <==> n <= q * d
  {
    FloorGalois(n + (d - 1), d, q + 1);
    assert (q + 1) * d == q * d + d;
  }

  lemma MulLe(a: int, b: int, k: int)
    requires a <= b && k >= 0
    ensures a * k <= b * k
  {
  }

  lemma Assoc(a: int, b: int, c: int)
    ensures a * b * c == a * (b * c)
  {
  }

  lemma Cancel(x: int, y: int, k: int)
    requires k > 0
    ensures x * k <= y * k <==> x <= y
  {
    if x <= y {
      MulLe(x, y, k);
    } else {
      MulLe(y + 1, x, k);
      assert (y + 1) * k == y * k + k;
    }
  }

  lemma MulNonNegative(a: int, b: int)
    requires a >= 0 && b >= 0
    ensures a * b >= 0
  {
  }

  /** A checked floor division succeeds exactly when its product fits, and is then the
      greatest integer whose multiple stays under the product. */
  lemma MulDivSpec(a: int, k: int, d: int)
    requires a >= 0 && k >= 0 && d > 0
    ensures MulDiv(a, k, d).Ok? <==> a * k <= I128_MAX
    ensures MulDiv(a, k, d).Ok? ==>
              var v := MulDiv(a, k, d).value;
              && v >= 0
              && v == a * k / d
              && v * d <= a * k < v * d + d
  {
    MulNonNegative(a, k);
    var n := a * k;
    assert n == (n / d) * d + n % d;
    FloorGalois(n, d, 0);
    QuotientAtMost(n, d);
  }

  lemma QuotientAtMost(n: int, d: int)
    requires n >= 0 && d > 0
    ensures 0 <= n / d <= n
  {
    FloorGalois(n, d, 0);
    if n / d > n {
      FloorGalois(n, d, n + 1);
      MulLe(1, d, n + 1);
    }
  }

  /** A checked ceil division is the least integer whose multiple covers the product. */
  lemma MulDivCeilSpec(a: int, k: int, d: int)
    requires a >= 0 && k >= 0 && d > 0
    ensures MulDivCeil(a, k, d).Ok? <==> a * k + (d - 1) <= I128_MAX
    ensures MulDivCeil(a, k, d).Ok? ==>
              var v := MulDivCeil(a, k, d).value;
              && v >= 0
              && v == (a * k + (d - 1)) / d
              && a * k <= v * d < a * k + d
  {
    MulNonNegative(a, k);
    var n := a * k + (d - 1);
    assert n == (n / d) * d + n % d;
    QuotientAtMost(n, d);
  }

  lemma {:induction false} Pow10Adds(a: nat, b: nat)
    ensures Pow10(a + b) == Pow10(a) * Pow10(b)
  {
    if a > 0 {
      Pow10Adds(a - 1, b);
      assert Pow10(a + b) == 10 * Pow10(a + b - 1);
      assert 10 * (Pow10(a - 1) * Pow10(b)) == 10 * Pow10(a - 1) * Pow10(b);
    }
  }

  /** Floor scaling is monotone and defined below any point where it is defined. */
  lemma MulDivMonotone(a: int, b: int, k: int, d: int)
    requires 0 <= a <= b && k >= 0 && d > 0
    requires MulDiv(b, k, d).Ok?
    ensures MulDiv(a, k, d).Ok?
    ensures 0 <= MulDiv(a, k, d).value <= MulDiv(b, k, d).value
  {
    MulLe(a, b, k);
    MulDivSpec(a, k, d);
    MulDivSpec(b, k, d);
    FloorGalois(b * k, d, MulDiv(a, k, d).value);
  }

  lemma MulDivCeilMonotone(a: int, b: int, k: int, d: int)
    requires 0 <= a <= b && k >= 0 && d > 0
    requires MulDivCeil(b, k, d).Ok?
    ensures MulDivCeil(a, k, d).Ok?
    ensures 0 <= MulDivCeil(a, k, d).value <= MulDivCeil(b, k, d).value
  {
    MulLe(a, b, k);
    MulDivCeilSpec(a, k, d);
    MulDivCeilSpec(b, k, d);
    CeilGalois(a * k, d, MulDivCeil(b, k, d).value);
  }

  /** The saturating basis-point scalings never leave the non-negative range and never
      exceed the true rounding. */
  lemma FixedMulFloorSpec(amount: int, bps: int)
    requires amount >= 0 && bps >= 0
    ensures 0 <= FixedMulFloor(amount, bps) <= amount * bps / BPS_FACTOR
    ensures amount * bps <= I128_MAX ==> FixedMulFloor(amount, bps) == amount * bps / BPS_FACTOR
  {
    MulNonNegative(amount, bps);
  }

  lemma FixedMulCeilSpec(amount: int, bps: int)
    requires amount >= 0 && bps >= 0
    ensures 0 <= FixedMulCeil(amount, bps) <= (amount * bps + (BPS_FACTOR - 1)) / BPS_FACTOR
    ensures amount * bps + (BPS_FACTOR - 1) <= I128_MAX ==>
              FixedMulCeil(amount, bps) == (amount * bps + (BPS_FACTOR - 1)) / BPS_FACTOR
  {
    MulNonNegative(amount, bps);
  }

  // ----- The same, as one bracket

  lemma MulDivFloors(a: int, k: int, d: int)
    requires a >= 0 && k >= 0 && d > 0 && MulDiv(a, k, d).Ok?
    ensures MulDiv(a, k, d).value >= 0
    ensures Floors(MulDiv(a, k, d).value, a * k, d)
  {
    hide MulDiv;
    MulDivSpec(a, k, d);
  }

  lemma MulDivCeils(a: int, k: int, d: int)
    requires a >= 0 && k >= 0 && d > 0 && MulDivCeil(a, k, d).Ok?
    ensures MulDivCeil(a, k, d).value >= 0
    ensures Ceils(MulDivCeil(a, k, d).value, a * k, d)
  {
    hide MulDivCeil;
    MulDivCeilSpec(a, k, d);
  }

  lemma QuotFloors(n: int, d: int)
    requires n >= 0 && d > 0
    ensures 0 <= Quot(n, d) <= n
    ensures Floors(Quot(n, d), n, d)
  {
    FloorGalois(n, d, n / d);
    FloorGalois(n, d, n / d + 1);
    QuotientAtMost(n, d);
  }

  lemma FixedMulFloors(amount: int, bps: int)
    requires amount >= 0 && bps >= 0 && amount * bps <= I128_MAX
    ensures Floors(FixedMulFloor(amount, bps), amount * bps, BPS_FACTOR)
  {
    hide FixedMulFloor;
    FixedMulFloorSpec(amount, bps);
    QuotFloors(amount * bps, BPS_FACTOR);
  }

  lemma FixedMulCeils(amount: int, bps: int)
    requires amount >= 0 && bps >= 0 && amount * bps + (BPS_FACTOR - 1) <= I128_MAX
    ensures Ceils(FixedMulCeil(amount, bps), amount * bps, BPS_FACTOR)
  {
    hide FixedMulCeil;
    FixedMulCeilSpec(amount, bps);
    var q := (amount * bps + (BPS_FACTOR - 1)) / BPS_FACTOR;
    CeilGalois(amount * bps, BPS_FACTOR, q);
    CeilGalois(amount * bps, BPS_FACTOR, q - 1);
  }
}
