/** `format_bytes`: a byte count rendered with binary-prefix units. */
module Sizes {
  import opened Options

  /** The unit names, indexed by the number of divisions by 1024. */
  const Units: seq<string> := ["B", "KB", "MB", "GB", "TB", "PB", "EB", "ZB", "YB"]

  /** The largest unit index. */
  const MaxUnit: nat := 8

  /** The text `format_bytes` produces. `Literal` is returned verbatim;
      `Scaled(amount, unit)` is rendered as `amount` with two decimals, a
      space and `Units[unit]`. */
  datatype SizeText = Literal(text: string) | Scaled(amount: real, unit: nat)

  function Pow1024(k: nat): (p: nat)
    ensures p >= 1
  {
    if k == 0 then 1 else 1024 * Pow1024(k - 1)
  }

  lemma {:induction false} Pow1024Monotonic(j: nat, k: nat)
    requires j <= k
    ensures Pow1024(j) <= Pow1024(k)
    decreases k
  {
    if j < k {
      Pow1024Monotonic(j, k - 1);
    }
  }

  /** The amount held by `format_bytes` after `k` divisions of `n` by 1024
      (exact: the model divides rationals, see README). */
  function Amount(n: int, k: nat): real {
    n as real / Pow1024(k) as real
  }

  lemma AmountStep(n: int, k: nat)
    ensures Amount(n, k + 1) == Amount(n, k) / 1024.0
  {
    var q := Pow1024(k) as real;
    assert Pow1024(k + 1) as real == 1024.0 * q;
  }

  lemma MulMonotonic(a: real, b: real, q: real)
    requires q > 0.0 && a <= b
    ensures a * q <= b * q
  {
  }

  /** Dividing by a positive amount and comparing with `c` is comparing
      with `c` times that amount. */
  lemma QuotientAtLeast(x: real, q: real, c: real)
    requires q > 0.0
    ensures x / q >= c <==> x >= c * q
  {
    var a := x / q;
    assert a * q == x;
    if a >= c {
      MulMonotonic(c, a, q);
    } else {
      MulMonotonic(a, c, q);
      assert a * q != c * q;
    }
  }

  /** The tests on the scaled amount are tests on the byte count: dividing
      by 1024 is exact, so `n / 1024^k >= c` means `n >= c * 1024^k`. */
  lemma AmountBounds(n: int, k: nat)
    ensures Amount(n, k) >= 1.0 <==> n >= Pow1024(k)
    ensures Amount(n, k) >= 1024.0 <==> n >= Pow1024(k + 1)
  {
    var q := Pow1024(k) as real;
    QuotientAtLeast(n as real, q, 1.0);
    QuotientAtLeast(n as real, q, 1024.0);
    assert Pow1024(k + 1) as real == 1024.0 * q;
  }

  /** The loop of `format_bytes`: divide by 1024 while the amount is at
      least 1024 and a larger unit exists. Starting from `k` divisions of
      `n`, returns the number of divisions at which the loop stops. */
  function ScaleDown(n: int, k: nat): (u: nat)
    requires k <= MaxUnit
    ensures k <= u <= MaxUnit
    ensures u < MaxUnit ==> Amount(n, u) < 1024.0
    ensures u > k ==> Amount(n, u) >= 1.0
    decreases MaxUnit - k
  {
    if Amount(n, k) >= 1024.0 && k < MaxUnit then
      AmountStep(n, k);
      ScaleDown(n, k + 1)
    else
      k
  }

  /** Python `format_bytes(size_bytes)`, with `None` as the absent size. */
  function FormatBytes(size: Option<int>): (r: SizeText)
    ensures size.None? <==> r == Literal("N/A")
    ensures size == Some(0) <==> r == Literal("0 B")
    ensures size.Some? && size.value != 0 ==>
      && r.Scaled?
      && r.unit <= MaxUnit
      && r.amount == Amount(size.value, r.unit)
      && (r.unit > 0 ==> size.value >= Pow1024(r.unit))
      && (r.unit < MaxUnit ==> size.value < Pow1024(r.unit + 1))
  {
    match size
    case None => Literal("N/A")
    case Some(n) =>
      if n == 0 then Literal("0 B")
      else
        var unit := ScaleDown(n, 0);
        AmountBounds(n, unit);
        Scaled(Amount(n, unit), unit)
  }

  /** The chosen unit is the largest power of 1024 not above the size: for
      every unit index k, the size reaches 1024^k exactly when k is at most
      the chosen index. */
  lemma UnitIsLargestFittingPower(n: int, k: nat)
    requires n >= 1 && k <= MaxUnit
    ensures FormatBytes(Some(n)).Scaled?
    ensures n >= Pow1024(k) <==> k <= FormatBytes(Some(n)).unit
  {
    var u := FormatBytes(Some(n)).unit;
    if k <= u {
      Pow1024Monotonic(k, u);
    } else {
      Pow1024Monotonic(u + 1, k);
    }
  }

  /** Any size below 1024 bytes, including a negative one, is shown in "B". */
  lemma SmallSizesUseBytes(n: int)
    requires n != 0 && n < 1024
    ensures FormatBytes(Some(n)) == Scaled(n as real, 0)
  {
  }

  lemma FormatBytesExamples()
    ensures FormatBytes(None) == Literal("N/A")
    ensures FormatBytes(Some(0)) == Literal("0 B")
    ensures FormatBytes(Some(1536)) == Scaled(1.5, 1) && Units[1] == "KB"
    ensures FormatBytes(Some(1048576)) == Scaled(1.0, 2) && Units[2] == "MB"
  {
    OneAndAHalfKilobytes();
    OneMegabyte();
  }

  lemma OneAndAHalfKilobytes()
    ensures FormatBytes(Some(1536)) == Scaled(1.5, 1)
  {
    AmountBounds(1536, 1);
    assert ScaleDown(1536, 1) == 1;
  }

  lemma OneMegabyte()
    ensures FormatBytes(Some(1048576)) == Scaled(1.0, 2)
  {
    AmountBounds(1048576, 2);
    assert ScaleDown(1048576, 2) == 2;
  }
}
