/** What an accepted preflight promises about the execution and the gas payment that follow it. */
module Preflight {
  import opened Evm
  import opened SpendingPaymaster
  import opened AccountSpec
  import opened TestUtils
  import opened Batch
  import opened Safeguards
  import opened Runs

  /** The calls a user operation will execute; none if its call data is neither `execute` nor `executeBatch`. */
  function CallsOf(callData: CallData): seq<Call> {
    match callData
    case ExecuteCall(call) => [call]
    case BatchCall(calls) => calls
    case _ => []
  }

  predicate Executable(callData: CallData) {
    callData.ExecuteCall? || callData.BatchCall?
  }

  /** There is room for `amount` of USDC above the counters as they stand. */
  predicate UsdcRoom(cfg: Config, st: State, amount: nat) {
    st.dailyUsdcSpent + amount <= cfg.dailyUsdcLimit && st.monthlyUsdcSpent + amount <= cfg.monthlyUsdcLimit
  }

  /** Both windows, once looked at, end within the range of a word. */
  predicate WindowsEnd(st: State, now: uint256) {
    AnchorsFit(Touched(st, now).lastDailyReset, Touched(st, now).lastMonthlyReset)
  }

  lemma CallsParse(reader: SelectorReader, callData: CallData)
    requires Executable(callData)
    ensures TotalAmounts(reader, CallsOf(callData)) == ParseCallData(reader, callData)
  {
    if callData.ExecuteCall? {
      var call := callData.call;
      assert [call][..0] == [];
      assert TotalAmounts(reader, []) == Ok(Amounts(0, 0));
    }
  }

  /** A smaller USDC amount beside the same ETH is no larger, and cools down no longer. */
  lemma CooldownWithoutGas(cfg: Config, st: State, now: uint256, eth: uint256, usdc: uint256, more: uint256)
    requires usdc <= more && CooldownStep(cfg, st, now, eth, more) == Ok(st)
    requires !IsLarge(cfg, eth, more)
    ensures CooldownStep(cfg, st, now, eth, usdc) == Ok(st)
  {
  }

  /** A preflight that accepts an operation without marking it large leaves the account as it is. */
  lemma AcceptedPreflight(cfg: Config, st: State, now: uint256, op: Op)
    requires op.ValidateUserOp? && ValidateStep(cfg, st, cfg.entryPoint, now, op).Ok? && !LargeOp(cfg, op)
    ensures var spend := ParseCallData(cfg.reader, op.userOp.callData);
            var usdc := spend.value.usdc + ProjectedCharge(cfg, op.userOp, op.basefee);
            && spend.Ok? && usdc < TWO_256
            && !IsLarge(cfg, spend.value.eth, usdc)
            && PreflightStep(cfg, st, now, spend.value.eth, usdc) == Ok(st)
            && ValidateStep(cfg, st, cfg.entryPoint, now, op).value.state == st
  {
  }

  lemma SmallExecution(cfg: Config, st: State, now: uint256, op: Op)
    requires op.ValidateUserOp? && Executable(op.userOp.callData) && UsdcRoom(cfg, st, 0)
    requires ValidateStep(cfg, st, cfg.entryPoint, now, op).Ok? && !LargeOp(cfg, op)
    ensures var calls := CallsOf(op.userOp.callData);
            var spend := ParseCallData(cfg.reader, op.userOp.callData).value;
            var after := ExecuteStep(cfg, st, cfg.entryPoint, now, calls, |calls|);
            && (after.Ok? <==> UsdcRoom(cfg, st, spend.usdc) && WindowsEnd(st, now))
            && (after.Ok? ==> SpendSum(cfg, st, now, spend.eth, spend.usdc) == Ok(after.value.state))
  {
    AcceptedPreflight(cfg, st, now, op);
    CallsParse(cfg.reader, op.userOp.callData);
    var spend := ParseCallData(cfg.reader, op.userOp.callData).value;
    var usdc := spend.usdc + ProjectedCharge(cfg, op.userOp, op.basefee);
    CooldownWithoutGas(cfg, st, now, spend.eth, spend.usdc, usdc);
    PreflightCoversEth(cfg, st, now, spend.eth, usdc);
    SpendMeaning(cfg, st, now, spend.eth, spend.usdc);
  }

  /** A preflight that marks an operation large blocks its execution. */
  lemma LargeExecution(cfg: Config, st: State, now: uint256, op: Op, calls: seq<Call>)
    requires op.ValidateUserOp? && now > 0
    requires ValidateStep(cfg, st, cfg.entryPoint, now, op).Ok? && LargeOp(cfg, op)
    ensures var validated := ValidateStep(cfg, st, cfg.entryPoint, now, op).value.state;
            ExecuteStep(cfg, validated, cfg.entryPoint, now, calls, |calls|).Revert?
  {
    var ev := Event(cfg.entryPoint, now, op);
    var validated := ValidateStep(cfg, st, cfg.entryPoint, now, op).value.state;
    assert validated.lastLargeSpendTime == now by {
      assert Step(cfg, st, ev) == ValidateStep(cfg, st, cfg.entryPoint, now, op);
      StepStamp(cfg, st, ev);
    }
    assert forall eth, usdc :: CooldownStep(cfg, validated, now, eth, usdc).Revert?;
  }

  /** After an accepted preflight, and with all outside calls succeeding, the operation's execution at the same moment
      is accepted exactly when it is not large, its own USDC fits above the counters as they stand and the windows end
      in range. */
  lemma ExecutionAfterPreflight(cfg: Config, st: State, now: uint256, op: Op)
    requires op.ValidateUserOp? && Executable(op.userOp.callData) && UsdcRoom(cfg, st, 0)
    requires ValidateStep(cfg, st, cfg.entryPoint, now, op).Ok? && (now > 0 || !LargeOp(cfg, op))
    ensures var validated := ValidateStep(cfg, st, cfg.entryPoint, now, op).value.state;
            var calls := CallsOf(op.userOp.callData);
            var spend := ParseCallData(cfg.reader, op.userOp.callData).value;
            var after := ExecuteStep(cfg, validated, cfg.entryPoint, now, calls, |calls|);
            && (after.Ok? <==> !LargeOp(cfg, op) && UsdcRoom(cfg, st, spend.usdc) && WindowsEnd(st, now))
            && (after.Ok? ==> SpendSum(cfg, st, now, spend.eth, spend.usdc) == Ok(after.value.state))
  {
    if LargeOp(cfg, op) {
      LargeExecution(cfg, st, now, op, CallsOf(op.userOp.callData));
    } else {
      AcceptedPreflight(cfg, st, now, op);
      SmallExecution(cfg, st, now, op);
    }
  }

  lemma PreflightCoversEth(cfg: Config, st: State, now: uint256, eth: uint256, usdc: uint256)
    requires PreflightStep(cfg, st, now, eth, usdc) == Ok(st)
    ensures CooldownStep(cfg, st, now, eth, usdc) == Ok(st)
    ensures eth > 0 ==>
              DailyEth(st, now) + eth <= cfg.dailyEthLimit && MonthlyEth(st, now) + eth <= cfg.monthlyEthLimit
    ensures NothingExpired(st, now) ==> WindowsEnd(st, now) && (usdc == 0 || UsdcRoom(cfg, st, usdc))
  {
  }

  /** The gas payment that follows is accepted exactly when it fits on top. */
  lemma PaymentAfterExecution(cfg: Config, st: State, now: uint256, eth: uint256, usdc: uint256, charge: uint256)
    requires SpendSum(cfg, st, now, eth, usdc).Ok?
    ensures var after := SpendSum(cfg, st, now, eth, usdc).value;
            PayStep(cfg, after, cfg.paymaster, now, charge, true, true).Ok? <==> UsdcRoom(cfg, st, usdc + charge)
  {
    SpendMeaning(cfg, st, now, eth, usdc);
  }

  /** Executing `calls` with no failing outside call and then paying `charge` for gas both succeed at `now`. */
  predicate Settles(cfg: Config, st: State, now: uint256, calls: seq<Call>, charge: uint256) {
    var executed := ExecuteStep(cfg, st, cfg.entryPoint, now, calls, |calls|);
    executed.Ok? && PayStep(cfg, executed.value.state, cfg.paymaster, now, charge, true, true).Ok?
  }

  /** So does validating the operation first. */
  predicate Completes(cfg: Config, st: State, now: uint256, op: Op, charge: uint256)
    requires op.ValidateUserOp?
  {
    var validated := ValidateStep(cfg, st, cfg.entryPoint, now, op);
    validated.Ok? && Settles(cfg, validated.value.state, now, CallsOf(op.userOp.callData), charge)
  }

  lemma SettlesExactly(cfg: Config, st: State, now: uint256, calls: seq<Call>, spend: Amounts, charge: uint256)
    requires var after := ExecuteStep(cfg, st, cfg.entryPoint, now, calls, |calls|);
             && (after.Ok? <==> UsdcRoom(cfg, st, spend.usdc) && WindowsEnd(st, now))
             && (after.Ok? ==> SpendSum(cfg, st, now, spend.eth, spend.usdc) == Ok(after.value.state))
    ensures Settles(cfg, st, now, calls, charge) <==> UsdcRoom(cfg, st, spend.usdc + charge) && WindowsEnd(st, now)
  {
    var after := ExecuteStep(cfg, st, cfg.entryPoint, now, calls, |calls|);
    if after.Ok? {
      PaymentAfterExecution(cfg, st, now, spend.eth, spend.usdc, charge);
    }
  }

  /** The exact promise of preflight. An accepted operation is executed and its gas paid, at the same moment, if and
      only if it is not large and its USDC and the gas fit above the counters as they stand, although preflight itself
      forgives them when a window is over. */
  lemma PreflightExact(cfg: Config, st: State, now: uint256, op: Op, charge: uint256)
    requires op.ValidateUserOp? && Executable(op.userOp.callData) && UsdcRoom(cfg, st, 0)
    requires ValidateStep(cfg, st, cfg.entryPoint, now, op).Ok? && (now > 0 || !LargeOp(cfg, op))
    ensures var spend := ParseCallData(cfg.reader, op.userOp.callData).value;
            Completes(cfg, st, now, op, charge)
            <==> !LargeOp(cfg, op) && UsdcRoom(cfg, st, spend.usdc + charge) && WindowsEnd(st, now)
  {
    if LargeOp(cfg, op) {
      LargeExecution(cfg, st, now, op, CallsOf(op.userOp.callData));
    } else {
      AcceptedPreflight(cfg, st, now, op);
      SmallExecution(cfg, st, now, op);
      var spend := ParseCallData(cfg.reader, op.userOp.callData).value;
      SettlesExactly(cfg, st, now, CallsOf(op.userOp.callData), spend, charge);
    }
  }

  /** Preflight is sound when neither window is over, or when no USDC is involved: any payment up to the projected gas
      then goes through too. */
  lemma PreflightSound(cfg: Config, st: State, now: uint256, op: Op, charge: uint256)
    requires op.ValidateUserOp? && Executable(op.userOp.callData) && UsdcRoom(cfg, st, 0)
    requires ValidateStep(cfg, st, cfg.entryPoint, now, op).Ok? && !LargeOp(cfg, op)
    requires charge <= ProjectedCharge(cfg, op.userOp, op.basefee)
    requires var spend := ParseCallData(cfg.reader, op.userOp.callData).value;
             || NothingExpired(st, now)
             || (spend.usdc + ProjectedCharge(cfg, op.userOp, op.basefee) == 0 && WindowsEnd(st, now))
    ensures Completes(cfg, st, now, op, charge)
  {
    PreflightExact(cfg, st, now, op, charge);
    AcceptedPreflight(cfg, st, now, op);
    var spend := ParseCallData(cfg.reader, op.userOp.callData).value;
    PreflightCoversEth(cfg, st, now, spend.eth, spend.usdc + ProjectedCharge(cfg, op.userOp, op.basefee));
  }

  /** The whole flow of an operation that uses the paymaster, in any run: whatever gas is really used, up to the
      required gas at the operation's price, the paymaster's charge never overflows and the account pays it. */
  lemma PaymasterFlowCompletes(run: Run, n: nat, now: uint256, op: Op, actualGasCost: uint256)
    requires run.Valid() && n <= |run.events|
    requires op.ValidateUserOp? && Executable(op.userOp.callData) && UsesPaymaster(run.cfg, op.userOp)
    requires ValidateStep(run.cfg, run.states[n], run.cfg.entryPoint, now, op).Ok? && !LargeOp(run.cfg, op)
    requires NothingExpired(run.states[n], now)
    requires actualGasCost <= Times(RequiredGas(op.userOp), GasPrice(op.userOp, op.basefee))
    ensures var charge := PostOpCharge(actualGasCost, run.cfg.usdcPerEth);
            charge.Ok? && Completes(run.cfg, run.states[n], now, op, charge.value)
  {
    LifetimeUsdcBound(run, n);
    var projected := Times(RequiredGas(op.userOp), GasPrice(op.userOp, op.basefee));
    ChargeMonotone(actualGasCost, projected, run.cfg.usdcPerEth);
    PreflightSound(run.cfg, run.states[n], now, op, PostOpCharge(actualGasCost, run.cfg.usdcPerEth).value);
  }

  /** What the account projects is never more than what the paymaster requires for the same operation: the account
      reckons with the price of the block, the EntryPoint's maximum with the highest price the operation allows. */
  lemma ProjectionWithinRequirement(
    cfg: Config, userOp: UserOp, basefee: uint256, postOpGasLimit: Option<uint128>, maxCost: uint256, balance: uint256)
    requires UsesPaymaster(cfg, userOp) && maxCost == Times(RequiredGas(userOp), userOp.maxFeePerGas)
    requires ValidatePaymasterUserOp(postOpGasLimit, maxCost, cfg.usdcPerEth, balance).Ok?
    ensures ProjectedCharge(cfg, userOp, basefee)
         <= ValidatePaymasterUserOp(postOpGasLimit, maxCost, cfg.usdcPerEth, balance).value
         <= 105 * cfg.usdcPerEth / 10000
  {
    var price := GasPrice(userOp, basefee);
    TimesMono(price, userOp.maxFeePerGas, RequiredGas(userOp));
    TimesIsProduct(RequiredGas(userOp), price);
    TimesIsProduct(RequiredGas(userOp), userOp.maxFeePerGas);
    ChargeMonotone(Times(RequiredGas(userOp), price), maxCost, cfg.usdcPerEth);
    CapBoundsCharge(maxCost, cfg.usdcPerEth);
  }

  // ---------------------------------------------------------------- instances

  const GWEI: uint128 := 1_000_000_000

  /** Ten USDC a day and 3000 USDC for one ETH. */
  function Everyday(reader: SelectorReader): Config {
    Config(11, 12, 13, 3_000_000_000, WAD, 30 * WAD, 10_000_000, 100_000_000, reader)
  }

  const SPONSORED_CHARGE: uint256 := 1_417_500

  /** The EntryPoint knows a paymaster, the account's own, and it agrees to pay for the operation. */
  predicate PaymasterAgrees(cfg: Config, userOp: UserOp, balance: uint256) {
    && UsesPaymaster(cfg, userOp) && cfg.paymaster != 0
    && var postOpGas := BytesToNat(userOp.paymasterAndData[36..52]);
       var maxCost := Times(RequiredGas(userOp), userOp.maxFeePerGas);
       && postOpGas < TWO_128 && maxCost < TWO_256
       && ValidatePaymasterUserOp(Some(postOpGas), maxCost, cfg.usdcPerEth, balance).Ok?
  }

  lemma SponsoredCost()
    ensures Times(450_000, GWEI) == 450_000 * GWEI
    ensures ChargeFits(450_000 * GWEI, 3_000_000_000)
    ensures Charge(450_000 * GWEI, 3_000_000_000) == SPONSORED_CHARGE
  {
    TimesIsProduct(450_000, GWEI);
    TimesIsProduct(WithPremium(450_000 * GWEI), 3_000_000_000);
    assert WithPremium(450_000 * GWEI) == 472_500 * GWEI;
  }

  /** An operation that sends one wei and lets the paymaster pay for 450000 gas at one gwei. */
  predicate IsSponsored(cfg: Config, userOp: UserOp) {
    && userOp.callData == ExecuteCall(Call(5, 1, []))
    && userOp.maxPriorityFeePerGas == userOp.maxFeePerGas == GWEI
    && UsesPaymaster(cfg, userOp) && RequiredGas(userOp) == 450_000
    && BytesToNat(userOp.paymasterAndData[36..52]) == MIN_POSTOP_GAS
  }

  lemma Sponsored(cfg: Config) returns (userOp: UserOp)
    ensures IsSponsored(cfg, userOp)
  {
    var unpaid := UserOp(ExecuteCall(Call(5, 1, [])), 50_000, 100_000, 100_000, GWEI, GWEI, []);
    PackedOperationIsProjected(cfg, unpaid, cfg.paymaster, 100_000, MIN_POSTOP_GAS, []);
    PackedPaymasterDataReadsBack(ToBytes(cfg.paymaster, 20), 100_000, MIN_POSTOP_GAS, []);
    var data := PackPaymasterData(ToBytes(cfg.paymaster, 20), 100_000, MIN_POSTOP_GAS, []).value;
    userOp := unpaid.(paymasterAndData := data);
  }

  lemma SponsoredCharge(cfg: Config, userOp: UserOp)
    requires cfg == Everyday(cfg.reader) && IsSponsored(cfg, userOp)
    ensures PaymasterAgrees(cfg, userOp, SPONSORED_CHARGE)
    ensures ProjectionFits(cfg, userOp, 0) && ProjectedCharge(cfg, userOp, 0) == SPONSORED_CHARGE
  {
    assert GasPrice(userOp, 0) == GWEI;
    SponsoredCost();
  }

  /** It can pay all of its USDC limit for gas at once. */
  lemma LimitPaid(reader: SelectorReader) returns (run: Run)
    ensures run.Valid() && run.cfg == Everyday(reader)
    ensures |run.events| == 1 && run.log[0].accepted && run.log[0].now == 1
    ensures run.states[1] == Deployed(1).(dailyUsdcSpent := 10_000_000, monthlyUsdcSpent := 10_000_000)
  {
    var start, paid := Start(Everyday(reader), 1), Event(13, 1, PayForGasInUsdc(10_000_000, true, true));
    run := Next(start, paid);
    RunsGoOn(start, paid);
  }

  /** A properly signed operation is accepted when preflight passes its spend and its projected gas. */
  lemma AcceptedWhen(cfg: Config, st: State, now: uint256, op: Op, spend: Amounts, charge: uint256)
    requires op.ValidateUserOp? && op.signature == ByOwner && ParseCallData(cfg.reader, op.userOp.callData) == Ok(spend)
    requires ProjectionFits(cfg, op.userOp, op.basefee) && ProjectedCharge(cfg, op.userOp, op.basefee) == charge
    requires spend.usdc + charge < TWO_256 && PreflightStep(cfg, st, now, spend.eth, spend.usdc + charge).Ok?
    ensures ValidateStep(cfg, st, cfg.entryPoint, now, op).Ok?
    ensures LargeOp(cfg, op) <==> IsLarge(cfg, spend.eth, spend.usdc + charge)
  {
  }

  lemma PreflightForgives(cfg: Config, st: State)
    requires cfg == Everyday(cfg.reader)
    requires st == Deployed(1).(dailyUsdcSpent := 10_000_000, monthlyUsdcSpent := 10_000_000)
    ensures PreflightStep(cfg, st, 100000, 1, SPONSORED_CHARGE).Ok? && !IsLarge(cfg, 1, SPONSORED_CHARGE)
  {
    TimesIsProduct(1, cfg.usdcPerEth);
  }

  lemma GasCannotBePaid(cfg: Config, st: State, op: Op)
    requires cfg == Everyday(cfg.reader)
    requires st == Deployed(1).(dailyUsdcSpent := 10_000_000, monthlyUsdcSpent := 10_000_000)
    requires op.ValidateUserOp? && op.signature == ByOwner && op.basefee == 0 && IsSponsored(cfg, op.userOp)
    ensures UsdcRoom(cfg, st, 0) && WindowsEnd(st, 100000) && PaymasterAgrees(cfg, op.userOp, SPONSORED_CHARGE)
    ensures ProjectedCharge(cfg, op.userOp, op.basefee) == SPONSORED_CHARGE
    ensures ValidateStep(cfg, st, cfg.entryPoint, 100000, op).Ok? && !LargeOp(cfg, op)
    ensures !Completes(cfg, st, 100000, op, SPONSORED_CHARGE)
  {
    SponsoredCharge(cfg, op.userOp);
    PreflightForgives(cfg, st);
    AcceptedWhen(cfg, st, 100000, op, Amounts(1, 0), SPONSORED_CHARGE);
    PreflightExact(cfg, st, 100000, op, SPONSORED_CHARGE);
  }

  /** Preflight is not sound once a window is over, under either reader: here the account has paid all of its USDC limit
      for gas a day earlier. Preflight and the paymaster both accept an operation whose gas can then not be paid. */
  lemma PreflightTooGenerous(reader: SelectorReader) returns (run: Run, now: uint256, op: Op, charge: uint256)
    ensures run.Valid() && run.cfg.reader == reader && |run.events| == 1 && run.log[0].accepted
    ensures run.log[0].now <= now && UsdcRoom(run.cfg, run.states[1], 0) && WindowsEnd(run.states[1], now)
    ensures op.ValidateUserOp? && Executable(op.userOp.callData)
    ensures 0 < charge == ProjectedCharge(run.cfg, op.userOp, op.basefee)
    ensures PaymasterAgrees(run.cfg, op.userOp, charge)
    ensures ValidateStep(run.cfg, run.states[1], run.cfg.entryPoint, now, op).Ok? && !LargeOp(run.cfg, op)
    ensures !Completes(run.cfg, run.states[1], now, op, charge)
  {
    run := LimitPaid(reader);
    now, charge := 100000, SPONSORED_CHARGE;
    var userOp := Sponsored(run.cfg);
    op := Op.ValidateUserOp(userOp, ByOwner, 0, 0, true);
    GasCannotBePaid(run.cfg, run.states[1], op);
  }

  /** Preflight does accept large operations: a new account agrees to send half an ETH, and then cannot execute it. */
  lemma LargeOpIsAccepted(reader: SelectorReader) returns (run: Run, now: uint256, op: Op)
    ensures run.Valid() && run.cfg.reader == reader && run.events == [] && run.deployedAt <= now
    ensures op.ValidateUserOp? && Executable(op.userOp.callData)
    ensures ValidateStep(run.cfg, run.states[0], run.cfg.entryPoint, now, op).Ok? && LargeOp(run.cfg, op)
    ensures forall charge: uint256 :: !Completes(run.cfg, run.states[0], now, op, charge)
  {
    var amount: uint256 := WAD / 2;
    var userOp := UserOp(ExecuteCall(Call(5, amount, [])), 50_000, 100_000, 100_000, GWEI, GWEI, []);
    run, now, op := Start(Everyday(reader), 1), 1, Op.ValidateUserOp(userOp, ByOwner, 0, 0, true);
    TimesIsProduct(amount, run.cfg.usdcPerEth);
    forall charge: uint256
      ensures !Completes(run.cfg, run.states[0], now, op, charge)
    {
      PreflightExact(run.cfg, run.states[0], now, op, charge);
    }
  }
}
