/**
 * Fixed-point money arithmetic of the transfer controller
 * (app/Http/Controllers/Transaction/StoreController.php, lines 32-34).
 * Every amount is an integer number of cents.
 */
module Money {

  /** A decimal number as submitted in a request: `digits` x 10^-`scale`.
      100.00 is Decimal(10000, 2); 0.004 is Decimal(4, 3). */
  datatype Decimal = Decimal(digits: int, scale: nat)

  /** Helper: 10^n, used to scale a decimal to cents. */
  function Pow10(n: nat): (p: nat)
    ensures p >= 1
  {
    if n == 0 then 1 else 10 * Pow10(n - 1)
  }

  lemma {:induction false} Pow10Add(a: nat, b: nat)
    ensures Pow10(a + b) == Pow10(a) * Pow10(b)
  {
    if a > 0 {
      Pow10Add(a - 1, b);
      assert Pow10(a + b) == 10 * Pow10(a - 1 + b);
    }
  }

  /** n / d rounded to the nearest integer, halves away from zero
      (the rule of PHP's `round`). */
  function RoundHalfAway(n: int, d: int): (r: int)
    requires d > 0
    ensures n >= 0 ==> 0 <= r && 2 * d * r <= 2 * n + d < 2 * d * r + 2 * d
    ensures n < 0 ==> r <= 0 && 2 * n - d <= 2 * d * r < 2 * n - d + 2 * d
  {
    if n >= 0 then (2 * n + d) / (2 * d) else -((d - 2 * n) / (2 * d))
  }

  /** The nearest-integer property determines the rounded value uniquely. */
  lemma RoundHalfAwayUnique(n: int, d: int, r: int)
    requires d > 0 && n >= 0
    requires 2 * d * r <= 2 * n + d < 2 * d * r + 2 * d
    ensures r == RoundHalfAway(n, d)
  {
    var q := RoundHalfAway(n, d);
    BelowNextMultiple(2 * d, r, q);
    BelowNextMultiple(2 * d, q, r);
  }

  /** k*a < k*b + k forces a <= b when k is positive. */
  lemma BelowNextMultiple(k: int, a: int, b: int)
    requires k > 0 && k * a < k * b + k
    ensures a <= b
  {
    assert k * (a - b - 1) < 0;
  }

  /** The request amount rounded to cents, as `round((float) $amount, 2)`. */
  function ToCents(d: Decimal): (c: int)
    ensures d.digits >= 0 ==> 0 <= c
    ensures d.digits >= 0 ==>
      2 * Pow10(d.scale) * c <= 200 * d.digits + Pow10(d.scale) < 2 * Pow10(d.scale) * (c + 1)
    ensures d.digits > 0 && d.scale <= 2 ==> c > 0
  {
    var c := RoundHalfAway(100 * d.digits, Pow10(d.scale));
    if d.scale <= 2 then ToCentsExact(d); c else c
  }

  /** With at most two fractional digits nothing is lost: the amount is exact. */
  lemma ToCentsExact(d: Decimal)
    requires d.scale <= 2
    ensures RoundHalfAway(100 * d.digits, Pow10(d.scale)) * Pow10(d.scale) == 100 * d.digits
  {
    var p := Pow10(d.scale);
    Pow10Add(2 - d.scale, d.scale);
    assert Pow10(2) == 100;
    var k := d.digits * Pow10(2 - d.scale);
    assert 100 * d.digits == k * p;
    if d.digits >= 0 {
      assert k >= 0;
      RoundHalfAwayUnique(k * p, p, k);
    } else {
      assert -k >= 0;
      RoundHalfAwayUnique(-k * p, p, -k);
    }
  }

  /** The commission: 1.5% of the amount rounded half-up to cents,
      `round($amount * 0.015, 2)`. */
  function Commission(amount: int): (fee: int)
    ensures amount >= 0 ==> 0 <= fee <= amount
    ensures amount >= 0 ==> 1000 * fee <= 15 * amount + 500 < 1000 * fee + 1000
  {
    RoundHalfAway(15 * amount, 1000)
  }

  /** The total debited from the sender, `round($amount + $commission, 2)`:
      in cents the sum is exact, and it is the amount times 1.015 rounded half-up. */
  function TotalDebit(amount: int): (total: int)
    ensures total - amount == Commission(amount)
    ensures amount >= 0 ==> amount <= total
    ensures amount >= 0 ==> 1000 * total <= 1015 * amount + 500 < 1000 * total + 1000
  {
    amount + Commission(amount)
  }

  /** Amounts up to 0.33 carry no commission; from 0.34 on there is one. */
  lemma CommissionFreeUpTo33Cents(amount: int)
    requires amount >= 0
    ensures Commission(amount) == 0 <==> amount <= 33
  {
  }

  /** 100.00 pays 1.50 commission, 101.50 in all. */
  lemma CommissionExample()
    ensures Commission(10000) == 150 && TotalDebit(10000) == 10150
  {
  }

  /** 0.004 passes a "greater than zero" check yet rounds to 0.00; 1.005 rounds up to 1.01. */
  lemma ToCentsExamples()
    ensures ToCents(Decimal(4, 3)) == 0
    ensures ToCents(Decimal(1005, 3)) == 101
    ensures ToCents(Decimal(10000, 2)) == 10000
  {
    assert Pow10(3) == 1000;
    assert Pow10(2) == 100;
  }
}
