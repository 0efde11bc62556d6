/**
From requested tokens to stored amount to credited quota, when the shop displays prices in
tokens (controller/topup.go: `getMinTopup`, `RequestEpay`, the credit in `EpayNotify`).
`perUnit` is QuotaPerUnit, any positive number; decimal division is exact here.
*/
module EpayAmount {
  import opened Base
  import S = Settlement

  function MinTopup(minTopUp: int, perUnit: real): int {
    Truncate(minTopUp as real * perUnit)
  }

  /** The request passes the minimum; a positive pay money makes it positive too. */
  predicate Accepted(tokens: int, minTopUp: int, perUnit: real) {
    tokens >= MinTopup(minTopUp, perUnit) && tokens > 0
  }

  function StoredAmount(tokens: int, perUnit: real): int
    requires perUnit > 0.0
  {
    Truncate(tokens as real / perUnit)
  }

  function CreditedQuota(tokens: int, perUnit: real): int
    requires perUnit > 0.0
  {
    S.CreditOf(S.Order(0, StoredAmount(tokens, perUnit), 0.0, "", S.Epay, S.Success), perUnit)
  }

  predicate IsWhole(x: real) {
    x.Floor as real == x
  }

  lemma MulDiv(x: real, y: real)
    requires y > 0.0
    ensures x / y * y == x
  {}

  lemma Positive(x: real, y: real) returns (z: real)
    requires x > 0.0 && y > 0.0
    ensures z == x * y && z > 0.0
  {
    z := x * y;
  }

  /** (x - y) * z, with every product named. */
  lemma Distribute(d: real, x: real, y: real, z: real, dz: real, xz: real, yz: real)
    requires d == x - y && dz == d * z && xz == x * z && yz == y * z
    ensures dz == xz - yz
  {}

  lemma Less(x: real, y: real, z: real, xz: real, yz: real)
    requires z > 0.0 && x < y && xz == x * z && yz == y * z
    ensures xz < yz
  {
    var dz := Positive(y - x, z);
    Distribute(y - x, y, x, z, dz, yz, xz);
  }

  lemma CoverBetween(x: real, a: real, p: real, total: real, low: real)
    requires p > 0.0 && a <= x < a + 1.0 && x * p == total && low == a * p
    ensures low <= total < low + p
  {
    if a < x { Less(a, x, p, low, total); }
    var high: real := (a + 1.0) * p;
    Less(x, a + 1.0, p, total, high);
    Distribute(1.0, a + 1.0, a, p, p, high, low);
  }

  lemma PositiveFactor(x: real, p: real, xp: real)
    requires p > 0.0 && xp == x * p && xp > 0.0
    ensures x > 0.0
  {
    if x < 0.0 { Less(x, 0.0, p, xp, 0.0); }
  }

  /** The stored amount is the largest number of whole units the tokens cover. */
  lemma StoredAmountCovers(tokens: int, perUnit: real)
    requires perUnit > 0.0 && tokens > 0
    ensures var a := StoredAmount(tokens, perUnit);
            0 <= a && a as real * perUnit <= tokens as real < a as real * perUnit + perUnit
  {
    var x := tokens as real / perUnit;
    MulDiv(tokens as real, perUnit);
    PositiveFactor(x, perUnit, tokens as real);
    var a: real := StoredAmount(tokens, perUnit) as real;
    CoverBetween(x, a, perUnit, tokens as real, a * perUnit);
  }

  lemma StoredAtLeast(tokens: int, perUnit: real, n: int, min: real)
    requires perUnit > 0.0 && tokens > 0 && min == n as real * perUnit
    ensures StoredAmount(tokens, perUnit) >= n <==> tokens as real >= min
  {
    var a := StoredAmount(tokens, perUnit);
    var low: real := a as real * perUnit;
    StoredAmountCovers(tokens, perUnit);
    if a > n {
      Less(n as real, a as real, perUnit, min, low);
    } else if a < n {
      NextUnit(a as real, n as real, perUnit, low, min);
    }
  }

  lemma NextUnit(a: real, n: real, p: real, low: real, min: real)
    requires p > 0.0 && a + 1.0 <= n && low == a * p && min == n * p
    ensures low + p <= min
  {
    var high: real := (a + 1.0) * p;
    Distribute(1.0, a + 1.0, a, p, p, high, low);
    if a + 1.0 < n { Less(a + 1.0, n, p, high, min); }
  }

  /** Every accepted order stores at least MinTopUp units exactly when the minimum in tokens
      is a whole number, or is below one token (or there is no positive minimum). */
  lemma StoredMeetsMinimum(minTopUp: int, perUnit: real)
    requires perUnit > 0.0
    ensures (forall tokens | Accepted(tokens, minTopUp, perUnit) :: StoredAmount(tokens, perUnit) >= minTopUp)
            <==> (minTopUp as real * perUnit < 1.0 || IsWhole(minTopUp as real * perUnit))
  {
    var min := minTopUp as real * perUnit;
    if min < 1.0 || IsWhole(min) {
      forall tokens | Accepted(tokens, minTopUp, perUnit)
        ensures StoredAmount(tokens, perUnit) >= minTopUp
      {
        StoredAtLeast(tokens, perUnit, minTopUp, min);
      }
    } else {
      var tokens := min.Floor;
      assert Accepted(tokens, minTopUp, perUnit);
      StoredAtLeast(tokens, perUnit, minTopUp, min);
    }
  }

  /** A whole QuotaPerUnit: the guarantee holds for every minimum. */
  lemma WholeUnitMeetsMinimum(tokens: int, minTopUp: int, perUnit: nat)
    requires perUnit >= 1 && Accepted(tokens, minTopUp, perUnit as real)
    ensures StoredAmount(tokens, perUnit as real) >= minTopUp
  {
    var min: real := minTopUp as real * perUnit as real;
    WholeProduct(minTopUp, perUnit, min);
    StoredAtLeast(tokens, perUnit as real, minTopUp, min);
  }

  lemma WholeProduct(a: int, n: int, an: real)
    requires an == a as real * n as real
    ensures IsWhole(an) && an.Floor == a * n
  {
    assert an == (a * n) as real;
    assert ((a * n) as real).Floor == a * n;
  }

  /** The credit never exceeds the tokens asked for and falls short by less than a unit and
      one token; with a whole QuotaPerUnit, by less than a unit. */
  lemma CreditedQuotaBounds(tokens: int, perUnit: real)
    requires perUnit > 0.0 && tokens > 0
    ensures CreditedQuota(tokens, perUnit) <= tokens
    ensures tokens as real - perUnit - 1.0 < CreditedQuota(tokens, perUnit) as real
    ensures IsWhole(perUnit) ==> tokens as real - perUnit < CreditedQuota(tokens, perUnit) as real
  {
    var a := StoredAmount(tokens, perUnit);
    var paid: real := a as real * perUnit;
    StoredAmountCovers(tokens, perUnit);
    if a > 0 { Less(0.0, a as real, perUnit, 0.0, paid); }
    CreditIsFloor(tokens, perUnit, paid);
    if IsWhole(perUnit) { WholeProduct(a, perUnit.Floor, paid); }
  }

  lemma CreditIsFloor(tokens: int, perUnit: real, paid: real)
    requires perUnit > 0.0 && paid == StoredAmount(tokens, perUnit) as real * perUnit && paid >= 0.0
    ensures CreditedQuota(tokens, perUnit) == paid.Floor
  {}
}
