/** The paymaster: the USDC charge for gas, its cost cap and its uses. */
module SpendingPaymaster {
  import opened Evm

  const PREMIUM_BPS: uint256 := 500
  const BPS: uint256 := 10000
  const WAD: uint256 := 1_000_000_000_000_000_000
  const MAX_COST_CAP: uint256 := 10_000_000_000_000_000
  const MIN_POSTOP_GAS: uint256 := 100_000

  /** The charge in USDC units for `cost` wei of gas, over unbounded naturals. */
  function Charge(cost: nat, rate: nat): nat {
    Times(WithPremium(cost), rate) / WAD
  }

  function WithPremium(cost: nat): nat {
    cost + cost * PREMIUM_BPS / BPS
  }

  /** Checked evaluation of the charge stays inside a word. */
  predicate ChargeFits(cost: nat, rate: nat) {
    cost * PREMIUM_BPS < TWO_256 && Times(WithPremium(cost), rate) < TWO_256
  }

  /** What the paymaster requires of an operation before it agrees to pay for its gas: the sender's USDC
      balance must cover the charge for the maximum cost. `postOpGasLimit` is absent when the paymaster data is
      too short to hold one. Below the cap the premium cannot overflow; the product with the rate still can. */
  function ValidatePaymasterUserOp(
    postOpGasLimit: Option<uint128>, maxCost: uint256, rate: uint256, balance: uint256
  ): (r: Result<uint256>)
    ensures r.Ok? <==>
            && (postOpGasLimit.Some? ==> postOpGasLimit.value >= 100_000)
            && maxCost <= 10_000_000_000_000_000
            && ChargeFits(maxCost, rate)
            && Charge(maxCost, rate) <= balance
    ensures r.Ok? ==> r.value == Charge(maxCost, rate)
  {
    if postOpGasLimit.Some? && postOpGasLimit.value < MIN_POSTOP_GAS then Revert(PostOpGasTooLow) else
    if maxCost > MAX_COST_CAP then Revert(CostCapExceeded) else
    var costWithPremium: uint256 := maxCost + maxCost * PREMIUM_BPS / BPS;
    var product :- Mul(costWithPremium, rate);
    var costInUsdc := product / WAD;
    if balance < costInUsdc then Revert(InsufficientUsdcBalance) else
    Ok(costInUsdc)
  }

  /** The amount `_postOp` asks the account to pay. */
  function PostOpCharge(actualGasCost: uint256, rate: uint256): (r: Result<uint256>)
    ensures r.Ok? <==> ChargeFits(actualGasCost, rate)
    ensures r.Ok? ==> r.value == Charge(actualGasCost, rate)
  {
    TimesIsProduct(actualGasCost, PREMIUM_BPS);
    var scaled :- Mul(actualGasCost, PREMIUM_BPS);
    var costWithPremium: uint256 := actualGasCost + scaled / BPS;
    var product :- Mul(costWithPremium, rate);
    Ok(product / WAD)
  }

  /** The charge in plain numbers: five per cent on top of the cost, at the rate for 10^18 wei; and when it can be
      computed. */
  lemma ChargeLaw(cost: nat, rate: nat)
    ensures var paid := cost + 500 * cost / 10000;
            && Charge(cost, rate) == paid * rate / 1_000_000_000_000_000_000
            && (ChargeFits(cost, rate) <==> 500 * cost < TWO_256 && paid * rate < TWO_256)
  {
    TimesIsProduct(WithPremium(cost), rate);
  }

  lemma DivMono(a: nat, b: nat, d: nat)
    requires a <= b && d > 0
    ensures a / d <= b / d
  {
    assert a / d * d <= a <= b < (b / d + 1) * d;
    TimesCancel(a / d, b / d + 1, d);
  }

  /** The charge never falls when the cost rises, and neither does the room it needs. */
  lemma ChargeMonotone(low: nat, high: nat, rate: nat)
    requires low <= high
    ensures Charge(low, rate) <= Charge(high, rate)
    ensures ChargeFits(high, rate) ==> ChargeFits(low, rate)
  {
    DivMono(low * PREMIUM_BPS, high * PREMIUM_BPS, BPS);
    TimesMono(WithPremium(low), WithPremium(high), rate);
    TimesIsProduct(WithPremium(low), rate);
    TimesIsProduct(WithPremium(high), rate);
    DivMono(Times(WithPremium(low), rate), Times(WithPremium(high), rate), WAD);
  }

  /** Validation and settlement agree: an operation the paymaster accepted for `maxCost` is later charged, for
      any actual cost up to that maximum, without overflow and at most what its balance was checked for. */
  lemma SettlementCoveredByValidation(
    postOpGasLimit: Option<uint128>, maxCost: uint256, actualGasCost: uint256, rate: uint256, balance: uint256)
    requires actualGasCost <= maxCost
    requires ValidatePaymasterUserOp(postOpGasLimit, maxCost, rate, balance).Ok?
    ensures PostOpCharge(actualGasCost, rate).Ok?
    ensures PostOpCharge(actualGasCost, rate).value
         <= ValidatePaymasterUserOp(postOpGasLimit, maxCost, rate, balance).value
         <= balance
  {
    ChargeMonotone(actualGasCost, maxCost, rate);
  }

  /** Under the cost cap no charge exceeds 1.05% of the rate, and a cost at the cap is charged exactly that. */
  lemma CapBoundsCharge(cost: nat, rate: nat)
    requires cost <= MAX_COST_CAP
    ensures Charge(cost, rate) <= 105 * rate / 10000 == Charge(MAX_COST_CAP, rate)
  {
    ChargeMonotone(cost, MAX_COST_CAP, rate);
    assert WithPremium(MAX_COST_CAP) == 10_500_000_000_000_000;
    TimesIsProduct(WithPremium(MAX_COST_CAP), rate);
    CommonFactor(105 * rate);
  }

  lemma CommonFactor(x: nat)
    ensures x * 100_000_000_000_000 / WAD == x / 10000
  {
    var q, r := x / 10000, x % 10000;
    assert x * 100_000_000_000_000 == q * WAD + r * 100_000_000_000_000;
    DivModUnique(q, r * 100_000_000_000_000, WAD);
  }

  function Total(xs: seq<nat>): nat {
    if xs == [] then 0 else Total(xs[..|xs| - 1]) + xs[|xs| - 1]
  }

  function Charges(costs: seq<nat>, rate: nat): (charges: seq<nat>)
    ensures |charges| == |costs|
  {
    seq(|costs|, i requires 0 <= i < |costs| => Charge(costs[i], rate))
  }

  const SCALE: nat := 10_000_000_000_000_000_000_000

  /** One charge, cleared of its two floor divisions. */
  lemma ChargeRounding(cost: nat, rate: nat)
    ensures SCALE * Charge(cost, rate) <= 10500 * rate * cost < SCALE * Charge(cost, rate) + 10000 * rate + SCALE
  {
    var p := WithPremium(cost);
    TimesIsProduct(p, rate);
    assert WAD * Charge(cost, rate) <= p * rate < WAD * Charge(cost, rate) + WAD;
    PremiumRounding(cost, rate);
  }

  lemma PremiumRounding(cost: nat, rate: nat)
    ensures 10000 * (WithPremium(cost) * rate) <= 10500 * rate * cost
    ensures 10500 * rate * cost <= 10000 * (WithPremium(cost) * rate) + 10000 * rate
  {
    var p := WithPremium(cost);
    assert 10000 * p <= 10500 * cost <= 10000 * p + 10000;
    TimesMono(10000 * p, 10500 * cost, rate);
    TimesMono(10500 * cost, 10000 * p + 10000, rate);
    assert 10500 * cost * rate == 10500 * rate * cost;
    assert 10000 * p * rate == 10000 * (p * rate) && (10000 * p + 10000) * rate == 10000 * (p * rate) + 10000 * rate;
  }

  /** Over a whole run the payer is never over-charged, and what rounding loses is linear in the number of
      operations: less than one unit plus a ten-thousandth of the rate for each. */
  lemma {:induction false} ChargeRoundingOverRun(costs: seq<nat>, rate: nat)
    requires costs != []
    ensures var charged := SCALE * Total(Charges(costs, rate));
            charged <= 10500 * rate * Total(costs) < charged + |costs| * (10000 * rate + SCALE)
  {
    var n := |costs| - 1;
    var rest := costs[..n];
    ChargeRounding(costs[n], rate);
    assert Charges(costs, rate)[..n] == Charges(rest, rate);
    Distribute(10500 * rate, Total(rest), costs[n]);
    Distribute(10000 * rate + SCALE, n, 1);
    if n > 0 {
      ChargeRoundingOverRun(rest, rate);
    }
  }

  lemma Distribute(k: nat, a: nat, b: nat)
    ensures k * (a + b) == k * a + k * b
    ensures (a + b) * k == a * k + b * k
  {
  }
}
