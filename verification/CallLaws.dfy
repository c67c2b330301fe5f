/** When each external call of the account succeeds, and everything it changes, in plain terms: fields, limits and
    numbers. */
module CallLaws {
  import opened Evm
  import opened AccountSpec
  import opened Batch
  import opened Execution
  import opened Preflight
  import opened SpendingPaymaster
  import opened TestUtils

  // ---------------------------------------------------------------- plain terms

  /** A day, respectively thirty days, have passed since the anchor. */
  predicate DayOver(st: State, now: nat) {
    now >= st.lastDailyReset + 86400
  }

  predicate MonthOver(st: State, now: nat) {
    now >= st.lastMonthlyReset + 2592000
  }

  /** `eth` fits above counters that are forgiven once their window is over. */
  predicate EthFits(cfg: Config, st: State, now: nat, eth: nat) {
    eth > 0 ==>
      && eth + (if DayOver(st, now) then 0 else st.dailyEthSpent) <= cfg.dailyEthLimit
      && eth + (if MonthOver(st, now) then 0 else st.monthlyEthSpent) <= cfg.monthlyEthLimit
  }

  /** `usdc` fits above counters that are never forgiven. */
  predicate UsdcFits(cfg: Config, st: State, usdc: nat) {
    st.dailyUsdcSpent + usdc <= cfg.dailyUsdcLimit && st.monthlyUsdcSpent + usdc <= cfg.monthlyUsdcLimit
  }

  /** `usdc` fits above counters that are forgiven once their window is over. */
  predicate UsdcFitsForgiven(cfg: Config, st: State, now: nat, usdc: nat) {
    usdc > 0 ==>
      && usdc + (if DayOver(st, now) then 0 else st.dailyUsdcSpent) <= cfg.dailyUsdcLimit
      && usdc + (if MonthOver(st, now) then 0 else st.monthlyUsdcSpent) <= cfg.monthlyUsdcLimit
  }

  /** The windows, begun anew if they are over, end before the last moment a word can hold. */
  predicate WindowsFit(st: State, now: nat) {
    && (if DayOver(st, now) then now else st.lastDailyReset) + 86400 < TWO_256
    && (if MonthOver(st, now) then now else st.lastMonthlyReset) + 2592000 < TWO_256
  }

  /** The last large spend, if there was one, is at least an hour ago. */
  predicate Rested(st: State, now: nat) {
    st.lastLargeSpendTime == 0 || (st.lastLargeSpendTime + 3600 <= now && st.lastLargeSpendTime + 3600 < TWO_256)
  }

  /** The value of an amount in USDC, ETH taken at the fixed rate. */
  function ValueOf(cfg: Config, eth: nat, usdc: nat): nat {
    eth * cfg.usdcPerEth / 1_000_000_000_000_000_000 + usdc
  }

  /** Both windows have been looked at: an anchor moves to the present exactly when its window was over. */
  predicate AnchorsLooked(before: State, after: State, now: nat) {
    && after.lastDailyReset == (if DayOver(before, now) then now else before.lastDailyReset)
    && after.lastMonthlyReset == (if MonthOver(before, now) then now else before.lastMonthlyReset)
  }

  /** `eth` was added to the ETH counters, which start afresh when their window was over; without ETH they stay. */
  predicate EthAdded(before: State, after: State, now: nat, eth: nat) {
    if eth == 0 then after.dailyEthSpent == before.dailyEthSpent && after.monthlyEthSpent == before.monthlyEthSpent else
    && after.dailyEthSpent == eth + (if DayOver(before, now) then 0 else before.dailyEthSpent)
    && after.monthlyEthSpent == eth + (if MonthOver(before, now) then 0 else before.monthlyEthSpent)
  }

  predicate UsdcAdded(before: State, after: State, usdc: nat) {
    && after.dailyUsdcSpent == before.dailyUsdcSpent + usdc
    && after.monthlyUsdcSpent == before.monthlyUsdcSpent + usdc
  }

  // ---------------------------------------------------------------- limits and threshold

  /** A spend fits what is left exactly in these terms, and the state it leaves differs in exactly these fields. */
  lemma SpendLaw(cfg: Config, st: State, now: uint256, eth: nat, usdc: nat)
    ensures Accepts(cfg, st, now, eth, usdc) <==>
              WindowsFit(st, now) && EthFits(cfg, st, now, eth) && (usdc > 0 ==> UsdcFits(cfg, st, usdc))
    ensures Accepts(cfg, st, now, eth, usdc) ==>
              var after := Spent(cfg, st, now, eth, usdc);
              && AnchorsLooked(st, after, now) && EthAdded(st, after, now, eth) && UsdcAdded(st, after, usdc)
              && after.emergencyWithdrawRequestTime == st.emergencyWithdrawRequestTime
              && after.lastLargeSpendTime == st.lastLargeSpendTime
  {
  }

  /** Large is more than half of the daily USDC limit. */
  lemma ThresholdLaw(cfg: Config, eth: nat, usdc: nat)
    ensures IsLarge(cfg, eth, usdc) <==> ValueOf(cfg, eth, usdc) > cfg.dailyUsdcLimit / 2
    ensures UsdValueFits(cfg, eth, usdc) <==>
              && eth * cfg.usdcPerEth < TWO_256
              && ValueOf(cfg, eth, usdc) < TWO_256
              && cfg.dailyUsdcLimit * 5000 < TWO_256
  {
    TimesIsProduct(eth, cfg.usdcPerEth);
  }

  lemma RestLaw(st: State, now: uint256)
    ensures Unblocked(st, now) <==> Rested(st, now)
  {
  }

  /** The calls that are allowed, and what they move: ETH to any address but that of USDC, and, if selectors are read
      as intended, `transfer(address,uint256)` of USDC, recognised by its four bytes. */
  lemma AllowedLaw(reader: SelectorReader, call: Call)
    ensures var usdc := call.target == 0x833589fCD6eDb6E08f4c7C32D4f71b54bdA02913;
            && (ParseSpendAmounts(reader, call).Ok? <==>
                if !usdc then call.value > 0 else
                && reader == Intended && call.value == 0 && |call.data| >= 68
                && call.data[..4] == [0xa9, 0x05, 0x9c, 0xbb]
                && BytesToNat(call.data[4..36]) < 0x1_00000000_0000000000000000_0000000000000000)
            && (ParseSpendAmounts(reader, call).Ok? ==>
                ParseSpendAmounts(reader, call).value
                == Amounts(call.value, if usdc then Word(call.data, 36) else 0))
            && (ParseSpendAmounts(reader, call).Revert? ==>
                ParseSpendAmounts(reader, call).error
                == (if !usdc || call.value > 0 then InvalidTargetOrSelector
                    else if && reader == Intended && |call.data| >= 68 && call.data[..4] == [0xa9, 0x05, 0x9c, 0xbb]
                    then InvalidEncoding else InvalidSelector))
  {
    if |call.data| >= 68 {
      SelectorBytes(call.data[..4]);
    }
  }

  lemma SelectorBytes(bytes: seq<Byte>)
    requires |bytes| == 4
    ensures BytesToNat(bytes) == TRANSFER_SELECTOR <==> bytes == [0xa9, 0x05, 0x9c, 0xbb]
  {
    var selector: seq<Byte> := [0xa9, 0x05, 0x9c, 0xbb];
    assert selector[..3] == [0xa9, 0x05, 0x9c] && selector[..3][..2] == [0xa9, 0x05];
    assert BytesToNat([0xa9]) == 0xa9;
    assert BytesToNat([0xa9, 0x05]) == 0xa905;
    assert BytesToNat([0xa9, 0x05, 0x9c]) == 0xa9059c;
    assert BytesToNat(selector) == TRANSFER_SELECTOR;
    BytesAreUnique(bytes);
    BytesAreUnique(selector);
  }

  /** The gas an operation is projected to cost in USDC, and when that can be computed: nothing unless the first twenty
      bytes of its paymaster data are the account's paymaster. */
  lemma ProjectionLaw(cfg: Config, userOp: UserOp, basefee: uint256)
    ensures var data := userOp.paymasterAndData;
            if |data| < 52 || BytesToNat(data[..20]) != cfg.paymaster
            then ProjectionFits(cfg, userOp, basefee) && ProjectedCharge(cfg, userOp, basefee) == 0
            else
              var gas := userOp.preVerificationGas + userOp.verificationGasLimit + userOp.callGasLimit
                         + BytesToNat(data[20..36]) + BytesToNat(data[36..52]);
              var cost := gas * GasPrice(userOp, basefee);
              var paid := cost + 500 * cost / 10000;
              && (ProjectionFits(cfg, userOp, basefee) <==>
                  gas < TWO_256 && cost < TWO_256 && 500 * cost < TWO_256 && paid * cfg.usdcPerEth < TWO_256)
              && ProjectedCharge(cfg, userOp, basefee) == paid * cfg.usdcPerEth / 1_000_000_000_000_000_000
  {
    if UsesPaymaster(cfg, userOp) {
      TimesIsProduct(RequiredGas(userOp), GasPrice(userOp, basefee));
      ChargeLaw(RequiredGas(userOp) * GasPrice(userOp, basefee), cfg.usdcPerEth);
    }
  }

  // ---------------------------------------------------------------- who may call

  function Caller(cfg: Config, op: Op): Address {
    match op
    case ValidateUserOp(_, _, _, _, _) => cfg.entryPoint
    case Execute(_, _) => cfg.entryPoint
    case ExecuteBatch(_, _) => cfg.entryPoint
    case PayForGasInUsdc(_, _, _) => cfg.paymaster
    case RequestEmergencyWithdraw => cfg.vaultOwner
    case EmergencyWithdraw(_, _, _, _, _, _) => cfg.vaultOwner
  }

  function Stranger(op: Op): Error {
    match op
    case ValidateUserOp(_, _, _, _, _) => NotFromEntryPoint
    case Execute(_, _) => NotFromEntryPoint
    case ExecuteBatch(_, _) => NotFromEntryPoint
    case PayForGasInUsdc(_, _, _) => NotFromPaymaster
    case RequestEmergencyWithdraw => NotVaultOwner
    case EmergencyWithdraw(_, _, _, _, _, _) => NotVaultOwner
  }

  /** Each call is open to one party only; anyone else is told so before anything else is looked at. */
  lemma CallerLaw(cfg: Config, st: State, ev: Event)
    ensures ev.sender != Caller(cfg, ev.op) ==> Step(cfg, st, ev) == Revert(Stranger(ev.op))
    ensures Step(cfg, st, ev).Ok? ==> ev.sender == Caller(cfg, ev.op)
  {
  }

  // ---------------------------------------------------------------- execute and executeBatch

  predicate Makes(op: Op) {
    op.Execute? || op.ExecuteBatch?
  }

  function Made(op: Op): seq<Call>
    requires Makes(op)
  {
    match op
    case Execute(call, _) => [call]
    case ExecuteBatch(calls, _) => calls
  }

  predicate NoCallFails(op: Op)
    requires Makes(op)
  {
    match op
    case Execute(_, callOk) => callOk
    case ExecuteBatch(calls, firstFailure) => firstFailure >= |calls|
  }

  function Eth(calls: seq<Call>): nat {
    EthCalled(AllCalled(calls))
  }

  function Usdc(calls: seq<Call>): nat {
    UsdcCalled(AllCalled(calls))
  }

  /** `execute` and `executeBatch` succeed exactly for the entry point, when every call is allowed, no cooldown is on,
      the totals fit and no outside call fails. They send the calls in order, record their totals and stamp a large
      one, and change nothing else. */
  lemma ExecuteLaw(cfg: Config, st: State, ev: Event)
    requires Makes(ev.op)
    ensures var step, calls := Step(cfg, st, ev), Made(ev.op);
            && (step.Ok? <==>
                && ev.sender == cfg.entryPoint
                && (forall call <- calls :: ParseSpendAmounts(cfg.reader, call).Ok?)
                && Rested(st, ev.now) && UsdValueFits(cfg, Eth(calls), Usdc(calls)) && WindowsFit(st, ev.now)
                && EthFits(cfg, st, ev.now, Eth(calls)) && (Usdc(calls) > 0 ==> UsdcFits(cfg, st, Usdc(calls)))
                && NoCallFails(ev.op))
            && (step.Ok? ==>
                var after := step.value.state;
                && AnchorsLooked(st, after, ev.now)
                && EthAdded(st, after, ev.now, Eth(calls)) && UsdcAdded(st, after, Usdc(calls))
                && after.emergencyWithdrawRequestTime == st.emergencyWithdrawRequestTime
                && after.lastLargeSpendTime
                   == (if IsLarge(cfg, Eth(calls), Usdc(calls)) then ev.now else st.lastLargeSpendTime)
                && |step.value.effects| == |calls|
                && forall i :: 0 <= i < |calls| ==> step.value.effects[i] == Called(calls[i]))
  {
    var calls := Made(ev.op);
    ExecuteAsRecorded(cfg, st, ev);
    RecordMeaning(cfg, st, ev.now, Eth(calls), Usdc(calls));
    SpendLaw(cfg, st, ev.now, Eth(calls), Usdc(calls));
    RestLaw(st, ev.now);
  }

  lemma ExecuteAsRecorded(cfg: Config, st: State, ev: Event)
    requires Makes(ev.op)
    ensures var step, calls := Step(cfg, st, ev), Made(ev.op);
            var record := RecordStep(cfg, st, ev.now, Eth(calls), Usdc(calls));
            && (step.Ok? <==>
                && ev.sender == cfg.entryPoint
                && (forall call <- calls :: ParseSpendAmounts(cfg.reader, call).Ok?)
                && record.Ok? && NoCallFails(ev.op))
            && (step.Ok? ==> record == Ok(step.value.state) && step.value.effects == AllCalled(calls))
  {
    RecordedIsSent(cfg.reader, Made(ev.op));
  }

  // ---------------------------------------------------------------- validateUserOp

  /** Call data stands for calls of `execute` or `executeBatch` that are allowed and whose totals fit a word, or is too
      short to stand for anything. */
  predicate Understood(reader: SelectorReader, callData: CallData) {
    && !callData.OtherSelector? && !callData.Undecodable?
    && var calls := CallsOf(callData);
       && (forall call <- calls :: ParseSpendAmounts(reader, call).Ok?)
       && Eth(calls) < TWO_256 && Usdc(calls) < TWO_256
  }

  lemma CallDataLaw(reader: SelectorReader, callData: CallData)
    ensures var parsed, calls := ParseCallData(reader, callData), CallsOf(callData);
            && (parsed.Ok? <==> Understood(reader, callData))
            && (parsed.Ok? ==> parsed == Ok(Amounts(Eth(calls), Usdc(calls))))
  {
    var calls := CallsOf(callData);
    RecordedIsSent(reader, calls);
    if callData.ExecuteCall? {
      OneSent(callData.call);
    }
  }

  /** The answer `validateUserOp` gives to a signature, and what it sends. */
  predicate Answers(op: Op, outcome: Outcome, after: State)
    requires op.ValidateUserOp?
  {
    && outcome.state == after
    && outcome.validationData == (if op.signature == ByOwner then 0 else 1)
    && outcome.effects == (if op.missingFunds > 0 && op.prefundOk then [Prefunded(op.missingFunds)] else [])
  }

  /** `validateUserOp` succeeds exactly for the entry point, with a signature that names a signer, call data that is
      understood, no cooldown, and spend and projected gas that fit counters which windows that are over forgive. It
      answers 0 for the owner's signature and 1 for any other, stamps a large operation and changes nothing else. */
  lemma ValidateLaw(cfg: Config, st: State, ev: Event)
    requires ev.op.ValidateUserOp?
    ensures var step, op := Step(cfg, st, ev), ev.op;
            var eth := Eth(CallsOf(op.userOp.callData));
            var usdc := Usdc(CallsOf(op.userOp.callData)) + ProjectedCharge(cfg, op.userOp, op.basefee);
            && (step.Ok? <==>
                && ev.sender == cfg.entryPoint && op.signature != Malformed
                && Understood(cfg.reader, op.userOp.callData)
                && ProjectionFits(cfg, op.userOp, op.basefee) && usdc < TWO_256
                && st.lastDailyReset + 86400 < TWO_256 && st.lastMonthlyReset + 2592000 < TWO_256
                && EthFits(cfg, st, ev.now, eth) && UsdcFitsForgiven(cfg, st, ev.now, usdc)
                && Rested(st, ev.now) && UsdValueFits(cfg, eth, usdc))
            && (step.Ok? ==>
                Answers(op, step.value, if IsLarge(cfg, eth, usdc) then st.(lastLargeSpendTime := ev.now) else st))
  {
    var op := ev.op;
    var eth := Eth(CallsOf(op.userOp.callData));
    var usdc := Usdc(CallsOf(op.userOp.callData)) + ProjectedCharge(cfg, op.userOp, op.basefee);
    CallDataLaw(cfg.reader, op.userOp.callData);
    ValidateByParts(cfg, st, ev);
    if eth < TWO_256 && usdc < TWO_256 {
      PreflightLaw(cfg, st, ev.now, eth, usdc);
    }
  }

  lemma ValidateByParts(cfg: Config, st: State, ev: Event)
    requires ev.op.ValidateUserOp?
    ensures var step, op := Step(cfg, st, ev), ev.op;
            var spend := ParseCallData(cfg.reader, op.userOp.callData);
            var charge := ProjectedCharge(cfg, op.userOp, op.basefee);
            if && ev.sender == cfg.entryPoint && op.signature != Malformed && spend.Ok?
               && ProjectionFits(cfg, op.userOp, op.basefee) && spend.value.usdc + charge < TWO_256
            then
              var preflight := PreflightStep(cfg, st, ev.now, spend.value.eth, spend.value.usdc + charge);
              step.Ok? == preflight.Ok? && (step.Ok? ==> Answers(op, step.value, preflight.value))
            else step.Revert?
  {
  }

  lemma PreflightLaw(cfg: Config, st: State, now: uint256, eth: uint256, usdc: uint256)
    ensures var step := PreflightStep(cfg, st, now, eth, usdc);
            && (step.Ok? <==>
                && st.lastDailyReset + 86400 < TWO_256 && st.lastMonthlyReset + 2592000 < TWO_256
                && EthFits(cfg, st, now, eth) && UsdcFitsForgiven(cfg, st, now, usdc)
                && Rested(st, now) && UsdValueFits(cfg, eth, usdc))
            && (step.Ok? ==>
                step == Ok(if IsLarge(cfg, eth, usdc) then st.(lastLargeSpendTime := now) else st))
  {
    RestLaw(st, now);
  }

  // ---------------------------------------------------------------- payForGasInUsdc

  /** `payForGasInUsdc` succeeds exactly for the paymaster, with enough gas left, when the amount fits and the transfer
      succeeds. It looks at the windows, adds to the USDC counters and changes nothing else; ETH counters stay. */
  lemma PayLaw(cfg: Config, st: State, ev: Event)
    requires ev.op.PayForGasInUsdc?
    ensures var step, amount := Step(cfg, st, ev), ev.op.amount;
            && (step.Ok? <==>
                && ev.sender == cfg.paymaster && ev.op.enoughGas && ev.op.transferOk
                && WindowsFit(st, ev.now) && UsdcFits(cfg, st, amount))
            && (step.Ok? ==>
                var after := step.value.state;
                && AnchorsLooked(st, after, ev.now) && EthAdded(st, after, ev.now, 0) && UsdcAdded(st, after, amount)
                && after.emergencyWithdrawRequestTime == st.emergencyWithdrawRequestTime
                && after.lastLargeSpendTime == st.lastLargeSpendTime
                && step.value.effects == [GasPaid(amount)])
  {
  }

  /** Recording a payment is recording a spend of USDC alone, except that a zero amount is checked as well. */
  lemma GasSpendLaw(cfg: Config, st: State, now: uint256, amount: uint256)
    ensures GasSpendStep(cfg, st, now, amount).Ok? <==> WindowsFit(st, now) && UsdcFits(cfg, st, amount)
    ensures GasSpendStep(cfg, st, now, amount).Ok? ==>
              Accepts(cfg, st, now, 0, amount)
              && GasSpendStep(cfg, st, now, amount) == Ok(Spent(cfg, st, now, 0, amount))
  {
  }

  // ---------------------------------------------------------------- emergency withdrawal

  /** The owner may always request; only the request stamp changes. */
  lemma RequestLaw(cfg: Config, st: State, ev: Event)
    requires ev.op.RequestEmergencyWithdraw?
    ensures var step := Step(cfg, st, ev);
            && (step.Ok? <==> ev.sender == cfg.vaultOwner)
            && (step.Ok? ==>
                step.value.state == st.(emergencyWithdrawRequestTime := ev.now) && step.value.effects == [])
  {
  }

  /** `emergencyWithdraw` succeeds exactly for the owner, 48 hours after the request in force, when neither transfer
      fails. It sends what there is of both balances, takes back the request and changes nothing else. */
  lemma WithdrawLaw(cfg: Config, st: State, ev: Event)
    requires ev.op.EmergencyWithdraw?
    ensures var step, op, requested := Step(cfg, st, ev), ev.op, st.emergencyWithdrawRequestTime;
            var usdc := if op.usdcDeployed then op.usdcBalance else 0;
            && (step.Ok? <==>
                && ev.sender == cfg.vaultOwner
                && requested != 0 && requested + 172800 <= ev.now
                && (op.ethBalance > 0 ==> op.ethOk) && (usdc > 0 ==> op.usdcOk))
            && (step.Ok? ==>
                && step.value.state == st.(emergencyWithdrawRequestTime := 0)
                && step.value.effects ==
                     (if op.ethBalance > 0 then [EthWithdrawn(op.recipient, op.ethBalance)] else [])
                     + (if usdc > 0 then [UsdcWithdrawn(op.recipient, usdc)] else []))
  {
  }

  // ---------------------------------------------------------------- errors

  /** An active cooldown and an exceeded limit are reported as such, the day before the month and ETH before USDC. */
  lemma LimitErrorLaw(cfg: Config, st: State, now: uint256, eth: uint256, usdc: uint256)
    ensures var step, last := RecordStep(cfg, st, now, eth, usdc), st.lastLargeSpendTime;
            && (step == Revert(LargeSpendCooldownActive) <==> last != 0 && now < last + 3600 < TWO_256)
            && (Rested(st, now) && UsdValueFits(cfg, eth, usdc) && WindowsFit(st, now) ==>
                var day, month := if DayOver(st, now) then 0 else st.dailyEthSpent,
                                  if MonthOver(st, now) then 0 else st.monthlyEthSpent;
                && (eth > 0 && cfg.dailyEthLimit < day + eth < TWO_256 ==> step == Revert(DailyLimitExceeded))
                && (eth > 0 && day + eth <= cfg.dailyEthLimit && cfg.monthlyEthLimit < month + eth < TWO_256 ==>
                    step == Revert(MonthlyLimitExceeded))
                && (EthFits(cfg, st, now, eth) && usdc > 0 ==>
                    && (cfg.dailyUsdcLimit < st.dailyUsdcSpent + usdc < TWO_256 ==>
                        step == Revert(DailyLimitExceeded))
                    && (&& st.dailyUsdcSpent + usdc <= cfg.dailyUsdcLimit
                        && cfg.monthlyUsdcLimit < st.monthlyUsdcSpent + usdc < TWO_256 ==>
                        step == Revert(MonthlyLimitExceeded))))
  {
    RestLaw(st, now);
  }

  /** What the right caller is told when something else is wrong. */
  lemma ErrorLaw(cfg: Config, st: State, ev: Event)
    requires ev.sender == Caller(cfg, ev.op)
    ensures var step, op := Step(cfg, st, ev), ev.op;
            match op
            case ValidateUserOp(userOp, signature, _, _, _) =>
              && (signature == Malformed ==> step == Revert(InvalidSignature))
              && (signature != Malformed && userOp.callData == OtherSelector ==>
                  step == Revert(InvalidTargetOrSelector))
              && (signature != Malformed && userOp.callData == Undecodable ==> step == Revert(InvalidEncoding))
            case Execute(call, callOk) =>
              var parsed := ParseSpendAmounts(cfg.reader, call);
              if parsed.Revert? then step == Revert(parsed.error) else
              var record := RecordStep(cfg, st, ev.now, call.value, UsdcMoved(call));
              && (record.Revert? ==> step == Revert(record.error))
              && (record.Ok? && !callOk ==> step == Revert(CallFailed))
            case ExecuteBatch(calls, firstFailure) =>
              TotalAmounts(cfg.reader, calls).Ok? ==>
                var record := RecordStep(cfg, st, ev.now, Eth(calls), Usdc(calls));
                && (record.Revert? ==> step == Revert(record.error))
                && (record.Ok? && firstFailure < |calls| ==> step == Revert(CallFailed))
            case PayForGasInUsdc(amount, enoughGas, transferOk) =>
              && (!enoughGas ==> step == Revert(InsufficientGasForUsdcTransfer))
              && (enoughGas && WindowsFit(st, ev.now) && UsdcFits(cfg, st, amount) && !transferOk ==>
                  step == Revert(CallFailed))
            case RequestEmergencyWithdraw => step.Ok?
            case EmergencyWithdraw(_, ethBalance, ethOk, _, _, _) =>
              var requested := st.emergencyWithdrawRequestTime;
              && (requested == 0 ==> step == Revert(NoWithdrawRequested))
              && (requested != 0 && ev.now < requested + 172800 < TWO_256 ==> step == Revert(WithdrawTimelockNotMet))
              && (requested != 0 && requested + 172800 <= ev.now && step.Revert? ==> step.error == CallFailed)
  {
    match ev.op
    case Execute(call, _) => SingleCall(cfg.reader, call);
    case ExecuteBatch(calls, _) => RecordedIsSent(cfg.reader, calls);
    case _ =>
  }
}
