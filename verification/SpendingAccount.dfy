/** The account contract itself: storage fields, checked arithmetic and updates in the order the contract makes
    them. Every external call is proved to do exactly what AccountSpec.Step says, and a call that reverts leaves
    storage and the journal of outgoing value as they were. */
module SpendingAccount {
  import opened Evm
  import opened LimitPolicy
  import opened SpendingPaymaster
  import opened AccountSpec

  /** `_slice`: the bytes from `start` on, copied into a fresh buffer. */
  method Slice(data: array<Byte>, start: nat) returns (result: array<Byte>)
    requires start <= data.Length
    ensures fresh(result) && result[..] == data[start..]
  {
    result := new Byte[data.Length - start];
    for i := 0 to result.Length
      invariant result[..i] == data[start..start + i]
      invariant data[..] == old(data[..])
    {
      result[i] := data[start + i];
    }
    assert result[..] == result[..result.Length];
  }

  class SpendingAccount {
    const cfg: Config

    var dailyEthSpent: uint256
    var monthlyEthSpent: uint256
    var dailyUsdcSpent: uint256
    var monthlyUsdcSpent: uint256
    var lastDailyResetTimestamp: uint256
    var lastMonthlyResetTimestamp: uint256
    var emergencyWithdrawRequestTime: uint256
    var lastLargeSpendTime: uint256

    /** The value that has left the account, oldest first. Not part of contract storage. */
    ghost var journal: seq<Effect>

    function Storage(): State
      reads this
    {
      State(dailyEthSpent, monthlyEthSpent, dailyUsdcSpent, monthlyUsdcSpent,
            lastDailyResetTimestamp, lastMonthlyResetTimestamp, emergencyWithdrawRequestTime, lastLargeSpendTime)
    }

    /** The account is what `step` makes of the given earlier storage and journal: its outcome, or no change. */
    ghost predicate Settled(before: State, sent: seq<Effect>, step: Result<Outcome>)
      reads this
    {
      if step.Ok? then Storage() == step.value.state && journal == sent + step.value.effects
      else Storage() == before && journal == sent
    }

    constructor (cfg: Config, now: uint256)
      ensures this.cfg == cfg
      ensures Storage() == Deployed(now) && journal == []
    {
      this.cfg := cfg;
      dailyEthSpent, monthlyEthSpent, dailyUsdcSpent, monthlyUsdcSpent := 0, 0, 0, 0;
      lastDailyResetTimestamp, lastMonthlyResetTimestamp := now, now;
      emergencyWithdrawRequestTime, lastLargeSpendTime := 0, 0;
      journal := [];
    }

    /** What the EVM does to storage when a call reverts. */
    method Rollback(before: State, ghost sent: seq<Effect>)
      modifies this
      ensures Storage() == before && journal == sent
    {
      dailyEthSpent, monthlyEthSpent := before.dailyEthSpent, before.monthlyEthSpent;
      dailyUsdcSpent, monthlyUsdcSpent := before.dailyUsdcSpent, before.monthlyUsdcSpent;
      lastDailyResetTimestamp := before.lastDailyReset;
      lastMonthlyResetTimestamp := before.lastMonthlyReset;
      emergencyWithdrawRequestTime := before.emergencyWithdrawRequestTime;
      lastLargeSpendTime := before.lastLargeSpendTime;
      journal := sent;
    }

    // ------------------------------------------------------------ internal functions

    method CheckAndUpdatePanicCooldown(now: uint256, ethAmount: uint256, usdcAmount: uint256)
      returns (r: Result<()>)
      modifies this`lastLargeSpendTime
      ensures var step := CooldownStep(cfg, old(Storage()), now, ethAmount, usdcAmount);
              if step.Ok? then r.Ok? && Storage() == step.value else r == Revert(step.error)
    {
      if lastLargeSpendTime != 0 {
        var cooldownEnd :- Add(lastLargeSpendTime, COOLDOWN_PERIOD);
        if now < cooldownEnd {
          return Revert(LargeSpendCooldownActive);
        }
      }
      var scaled :- Mul(ethAmount, cfg.usdcPerEth);
      var totalUsdValue :- Add(scaled / WAD, usdcAmount);
      TimesIsProduct(cfg.dailyUsdcLimit, PANIC_THRESHOLD_BPS);
      var threshold :- Mul(cfg.dailyUsdcLimit, PANIC_THRESHOLD_BPS);
      if totalUsdValue > threshold / BPS {
        lastLargeSpendTime := now;
      }
      return Ok(());
    }

    method ValidatePreflightLimits(now: uint256, ethSpend: uint256, usdcSpend: uint256) returns (r: Result<()>)
      modifies this`lastLargeSpendTime
      ensures var step := PreflightStep(cfg, old(Storage()), now, ethSpend, usdcSpend);
              if step.Ok? then r.Ok? && Storage() == step.value else r == Revert(step.error)
    {
      var eth :- MaybeResetWindows(
        lastDailyResetTimestamp, lastMonthlyResetTimestamp, dailyEthSpent, monthlyEthSpent, now);
      var usdc := MaybeResetWindows(
        lastDailyResetTimestamp, lastMonthlyResetTimestamp, dailyUsdcSpent, monthlyUsdcSpent, now).value;
      if ethSpend > 0 {
        var _ :- ValidateSpend(
          eth.dailySpent, eth.monthlySpent, cfg.dailyEthLimit, cfg.monthlyEthLimit, ethSpend);
      }
      if usdcSpend > 0 {
        var _ :- ValidateSpend(
          usdc.dailySpent, usdc.monthlySpent, cfg.dailyUsdcLimit, cfg.monthlyUsdcLimit, usdcSpend);
      }
      r := CheckAndUpdatePanicCooldown(now, ethSpend, usdcSpend);
    }

    method ApplySpendAndUpdate(now: uint256, ethAmount: uint256, usdcAmount: uint256) returns (r: Result<()>)
      modifies this
      ensures journal == old(journal)
      ensures var step := SpendStep(cfg, old(Storage()), now, ethAmount, usdcAmount);
              if step.Ok? then r.Ok? && Storage() == step.value else r == Revert(step.error)
    {
      var eth :- MaybeResetWindows(
        lastDailyResetTimestamp, lastMonthlyResetTimestamp, dailyEthSpent, monthlyEthSpent, now);
      var usdc :- MaybeResetWindows(
        eth.dailyReset, eth.monthlyReset, dailyUsdcSpent, monthlyUsdcSpent, now);
      if ethAmount > 0 {
        var _ :- ValidateSpend(
          eth.dailySpent, eth.monthlySpent, cfg.dailyEthLimit, cfg.monthlyEthLimit, ethAmount);
        dailyEthSpent := eth.dailySpent + ethAmount;
        monthlyEthSpent := eth.monthlySpent + ethAmount;
      }
      if usdcAmount > 0 {
        var _ :- ValidateSpend(
          usdc.dailySpent, usdc.monthlySpent, cfg.dailyUsdcLimit, cfg.monthlyUsdcLimit, usdcAmount);
        dailyUsdcSpent := usdc.dailySpent + usdcAmount;
        monthlyUsdcSpent := usdc.monthlySpent + usdcAmount;
      }
      lastDailyResetTimestamp := eth.dailyReset;
      lastMonthlyResetTimestamp := eth.monthlyReset;
      return Ok(());
    }

    method ApplyUsdcSpend(now: uint256, amount: uint256) returns (r: Result<()>)
      modifies this
      ensures journal == old(journal)
      ensures var step := GasSpendStep(cfg, old(Storage()), now, amount);
              if step.Ok? then r.Ok? && Storage() == step.value else r == Revert(step.error)
    {
      var anchors :- MaybeResetWindows(
        lastDailyResetTimestamp, lastMonthlyResetTimestamp, dailyEthSpent, monthlyUsdcSpent, now);
      var usdc :- MaybeResetWindows(
        anchors.dailyReset, anchors.monthlyReset, dailyUsdcSpent, monthlyUsdcSpent, now);
      var _ :- ValidateSpend(usdc.dailySpent, usdc.monthlySpent, cfg.dailyUsdcLimit, cfg.monthlyUsdcLimit, amount);
      dailyUsdcSpent := usdc.dailySpent + amount;
      monthlyUsdcSpent := usdc.monthlySpent + amount;
      lastDailyResetTimestamp := anchors.dailyReset;
      lastMonthlyResetTimestamp := anchors.monthlyReset;
      return Ok(());
    }

    /** `_doCall`: the callee gets its value, or the whole transaction fails. */
    method DoCall(call: Call, callOk: bool) returns (r: Result<()>)
      modifies this`journal
      ensures if callOk then r == Ok(()) && journal == old(journal) + [Called(call)] else r == Revert(CallFailed)
    {
      if !callOk {
        return Revert(CallFailed);
      }
      journal := journal + [Called(call)];
      return Ok(());
    }

    /** `_parseSpendAmounts`, on a copy of the payload in memory: the arguments are decoded from the slice behind the
        selector. */
    method ParseCall(call: Call) returns (r: Result<Amounts>)
      ensures r == ParseSpendAmounts(cfg.reader, call)
    {
      var data := new Byte[|call.data|](i requires 0 <= i < |call.data| => call.data[i]);
      assert data[..] == call.data;
      if call.target == USDC {
        if call.value > 0 {
          return Revert(InvalidTargetOrSelector);
        }
        if data.Length < 4 || ReadSelector(cfg.reader, data[..]) != TRANSFER_SELECTOR || data.Length < 68 {
          return Revert(InvalidSelector);
        }
        var arguments := Slice(data, 4);
        if Word(arguments[..], 0) >= TWO_160 {
          return Revert(InvalidEncoding);
        }
        return Ok(Amounts(0, Word(arguments[..], 32)));
      } else if call.value == 0 {
        return Revert(InvalidTargetOrSelector);
      }
      return Ok(Amounts(call.value, 0));
    }

    /** The first loop of `executeBatch` and of the preflight parser. */
    method SumAmounts(calls: seq<Call>) returns (r: Result<Amounts>)
      ensures r == TotalAmounts(cfg.reader, calls)
    {
      var totalEth: uint256, totalUsdc: uint256 := 0, 0;
      for i := 0 to |calls|
        invariant TotalAmounts(cfg.reader, calls[..i]) == Ok(Amounts(totalEth, totalUsdc))
      {
        assert calls[..i + 1][..i] == calls[..i];
        if TotalAmounts(cfg.reader, calls[..i + 1]).Revert? {
          RevertedPrefix(cfg.reader, calls, i + 1);
        }
        var amounts :- ParseCall(calls[i]);
        totalEth :- Add(totalEth, amounts.eth);
        totalUsdc :- Add(totalUsdc, amounts.usdc);
      }
      assert calls[..|calls|] == calls;
      return Ok(Amounts(totalEth, totalUsdc));
    }

    // ------------------------------------------------------------ external functions

    method ValidateUserOp(sender: Address, now: uint256, userOp: UserOp, signature: Signature,
                          missingFunds: uint256, basefee: uint256, prefundOk: bool)
      returns (r: Result<uint256>)
      modifies this
      ensures var step := Step(cfg, old(Storage()), Event(sender, now,
                            Op.ValidateUserOp(userOp, signature, missingFunds, basefee, prefundOk)));
              && Settled(old(Storage()), old(journal), step)
              && r == (if step.Ok? then Ok(step.value.validationData) else Revert(step.error))
    {
      var before := Storage();
      ghost var sent := journal;
      r := ValidateUserOpBody(sender, now, userOp, signature, missingFunds, basefee, prefundOk);
      if r.Revert? {
        Rollback(before, sent);
      }
    }

    method ValidateUserOpBody(sender: Address, now: uint256, userOp: UserOp, signature: Signature,
                              missingFunds: uint256, basefee: uint256, prefundOk: bool)
      returns (r: Result<uint256>)
      modifies this
      ensures var step := Step(cfg, old(Storage()), Event(sender, now,
                            Op.ValidateUserOp(userOp, signature, missingFunds, basefee, prefundOk)));
              && (step.Ok? ==> Settled(old(Storage()), old(journal), step))
              && r == (if step.Ok? then Ok(step.value.validationData) else Revert(step.error))
    {
      if sender != cfg.entryPoint {
        return Revert(NotFromEntryPoint);
      }
      var validationData :- ValidateSignature(signature);
      var spend :- ParseSpendAmountsFromCallData(userOp.callData);
      var usdcGasCost :- UsdcGasCostIfPaymaster(cfg, userOp, basefee);
      var usdcSpend :- Add(spend.usdc, usdcGasCost);
      var _ :- ValidatePreflightLimits(now, spend.eth, usdcSpend);
      if missingFunds != 0 && prefundOk {
        journal := journal + [Prefunded(missingFunds)];
      }
      return Ok(validationData);
    }

    function ValidateSignature(signature: Signature): Result<uint256> {
      match signature
      case Malformed => Revert(InvalidSignature)
      case ByOwner => Ok(SIG_VALIDATION_SUCCESS)
      case ByOther => Ok(SIG_VALIDATION_FAILED)
    }

    method ParseSpendAmountsFromCallData(callData: CallData) returns (r: Result<Amounts>)
      ensures r == ParseCallData(cfg.reader, callData)
    {
      match callData
      case TooShort => r := Ok(Amounts(0, 0));
      case ExecuteCall(call) => r := ParseCall(call);
      case BatchCall(calls) => r := SumAmounts(calls);
      case OtherSelector => r := Revert(InvalidTargetOrSelector);
      case Undecodable => r := Revert(InvalidEncoding);
    }

    method Execute(sender: Address, now: uint256, call: Call, callOk: bool) returns (r: Result<()>)
      modifies this
      ensures var step := Step(cfg, old(Storage()), Event(sender, now, Op.Execute(call, callOk)));
              && Settled(old(Storage()), old(journal), step)
              && r == (if step.Ok? then Ok(()) else Revert(step.error))
    {
      var before := Storage();
      ghost var sent := journal;
      r := ExecuteBody(sender, now, call, callOk);
      if r.Revert? {
        Rollback(before, sent);
      }
    }

    method ExecuteBody(sender: Address, now: uint256, call: Call, callOk: bool) returns (r: Result<()>)
      modifies this
      ensures var step := Step(cfg, old(Storage()), Event(sender, now, Op.Execute(call, callOk)));
              && (step.Ok? ==> Settled(old(Storage()), old(journal), step))
              && r == (if step.Ok? then Ok(()) else Revert(step.error))
    {
      SingleCall(cfg.reader, call);
      if sender != cfg.entryPoint {
        return Revert(NotFromEntryPoint);
      }
      var spend :- ParseCall(call);
      var _ :- CheckAndUpdatePanicCooldown(now, spend.eth, spend.usdc);
      var _ :- ApplySpendAndUpdate(now, spend.eth, spend.usdc);
      r := DoCall(call, callOk);
      assert AllCalled([call]) == [Called(call)];
    }

    method ExecuteBatch(sender: Address, now: uint256, calls: seq<Call>, firstFailure: nat) returns (r: Result<()>)
      modifies this
      ensures var step := Step(cfg, old(Storage()), Event(sender, now, Op.ExecuteBatch(calls, firstFailure)));
              && Settled(old(Storage()), old(journal), step)
              && r == (if step.Ok? then Ok(()) else Revert(step.error))
    {
      var before := Storage();
      ghost var sent := journal;
      r := ExecuteBatchBody(sender, now, calls, firstFailure);
      if r.Revert? {
        Rollback(before, sent);
      }
    }

    method ExecuteBatchBody(sender: Address, now: uint256, calls: seq<Call>, firstFailure: nat)
      returns (r: Result<()>)
      modifies this
      ensures var step := Step(cfg, old(Storage()), Event(sender, now, Op.ExecuteBatch(calls, firstFailure)));
              && (step.Ok? ==> Settled(old(Storage()), old(journal), step))
              && r == (if step.Ok? then Ok(()) else Revert(step.error))
    {
      if sender != cfg.entryPoint {
        return Revert(NotFromEntryPoint);
      }
      var total :- SumAmounts(calls);
      var _ :- CheckAndUpdatePanicCooldown(now, total.eth, total.usdc);
      var _ :- ApplySpendAndUpdate(now, total.eth, total.usdc);
      ghost var applied := Storage();
      for i := 0 to |calls|
        invariant i <= firstFailure
        invariant Storage() == applied
        invariant journal == old(journal) + AllCalled(calls)[..i]
      {
        var _ :- DoCall(calls[i], i < firstFailure);
      }
      return Ok(());
    }

    method PayForGasInUsdc(sender: Address, now: uint256, amount: uint256, enoughGas: bool, transferOk: bool)
      returns (r: Result<()>)
      modifies this
      ensures var step := Step(cfg, old(Storage()),
                            Event(sender, now, Op.PayForGasInUsdc(amount, enoughGas, transferOk)));
              && Settled(old(Storage()), old(journal), step)
              && r == (if step.Ok? then Ok(()) else Revert(step.error))
    {
      var before := Storage();
      ghost var sent := journal;
      r := PayForGasInUsdcBody(sender, now, amount, enoughGas, transferOk);
      if r.Revert? {
        Rollback(before, sent);
      }
    }

    method PayForGasInUsdcBody(sender: Address, now: uint256, amount: uint256, enoughGas: bool, transferOk: bool)
      returns (r: Result<()>)
      modifies this
      ensures var step := Step(cfg, old(Storage()),
                            Event(sender, now, Op.PayForGasInUsdc(amount, enoughGas, transferOk)));
              && (step.Ok? ==> Settled(old(Storage()), old(journal), step))
              && r == (if step.Ok? then Ok(()) else Revert(step.error))
    {
      if sender != cfg.paymaster {
        return Revert(NotFromPaymaster);
      }
      if !enoughGas {
        return Revert(InsufficientGasForUsdcTransfer);
      }
      var _ :- ApplyUsdcSpend(now, amount);
      if !transferOk {
        return Revert(CallFailed);
      }
      journal := journal + [GasPaid(amount)];
      return Ok(());
    }

    method RequestEmergencyWithdraw(sender: Address, now: uint256) returns (r: Result<()>)
      modifies this`emergencyWithdrawRequestTime
      ensures var step := Step(cfg, old(Storage()), Event(sender, now, Op.RequestEmergencyWithdraw));
              && Settled(old(Storage()), old(journal), step)
              && r == (if step.Ok? then Ok(()) else Revert(step.error))
    {
      if sender != cfg.vaultOwner {
        return Revert(NotVaultOwner);
      }
      emergencyWithdrawRequestTime := now;
      return Ok(());
    }

    method EmergencyWithdraw(sender: Address, now: uint256, recipient: Address, ethBalance: uint256, ethOk: bool,
                             usdcDeployed: bool, usdcBalance: uint256, usdcOk: bool)
      returns (r: Result<()>)
      modifies this
      ensures var step := Step(cfg, old(Storage()), Event(sender, now,
                            Op.EmergencyWithdraw(recipient, ethBalance, ethOk, usdcDeployed, usdcBalance, usdcOk)));
              && Settled(old(Storage()), old(journal), step)
              && r == (if step.Ok? then Ok(()) else Revert(step.error))
    {
      var before := Storage();
      ghost var sent := journal;
      r := EmergencyWithdrawBody(
        sender, now, recipient, ethBalance, ethOk, usdcDeployed, usdcBalance, usdcOk);
      if r.Revert? {
        Rollback(before, sent);
      }
    }

    method EmergencyWithdrawBody(sender: Address, now: uint256, recipient: Address, ethBalance: uint256, ethOk: bool,
                                 usdcDeployed: bool, usdcBalance: uint256, usdcOk: bool)
      returns (r: Result<()>)
      modifies this
      ensures var step := Step(cfg, old(Storage()), Event(sender, now,
                            Op.EmergencyWithdraw(recipient, ethBalance, ethOk, usdcDeployed, usdcBalance, usdcOk)));
              && (step.Ok? ==> Settled(old(Storage()), old(journal), step))
              && r == (if step.Ok? then Ok(()) else Revert(step.error))
    {
      if sender != cfg.vaultOwner {
        return Revert(NotVaultOwner);
      }
      if emergencyWithdrawRequestTime == 0 {
        return Revert(NoWithdrawRequested);
      }
      var unlocked :- Add(emergencyWithdrawRequestTime, WITHDRAW_TIMELOCK);
      if now < unlocked {
        return Revert(WithdrawTimelockNotMet);
      }
      emergencyWithdrawRequestTime := 0;
      if ethBalance > 0 {
        if !ethOk {
          return Revert(CallFailed);
        }
        journal := journal + [EthWithdrawn(recipient, ethBalance)];
      }
      if usdcDeployed {
        if usdcBalance > 0 {
          if !usdcOk {
            return Revert(CallFailed);
          }
          journal := journal + [UsdcWithdrawn(recipient, usdcBalance)];
        }
      }
      return Ok(());
    }

    /** Any external call. */
    method Perform(ev: Event)
      modifies this
      ensures Settled(old(Storage()), old(journal), Step(cfg, old(Storage()), ev))
    {
      match ev.op
      case ValidateUserOp(userOp, signature, missingFunds, basefee, prefundOk) =>
        var _ := ValidateUserOp(ev.sender, ev.now, userOp, signature, missingFunds, basefee, prefundOk);
      case Execute(call, callOk) =>
        var _ := Execute(ev.sender, ev.now, call, callOk);
      case ExecuteBatch(calls, firstFailure) =>
        var _ := ExecuteBatch(ev.sender, ev.now, calls, firstFailure);
      case PayForGasInUsdc(amount, enoughGas, transferOk) =>
        var _ := PayForGasInUsdc(ev.sender, ev.now, amount, enoughGas, transferOk);
      case RequestEmergencyWithdraw =>
        var _ := RequestEmergencyWithdraw(ev.sender, ev.now);
      case EmergencyWithdraw(recipient, ethBalance, ethOk, usdcDeployed, usdcBalance, usdcOk) =>
        var _ := EmergencyWithdraw(
          ev.sender, ev.now, recipient, ethBalance, ethOk, usdcDeployed, usdcBalance, usdcOk);
    }
  }

  /** A list whose prefix reverts reverts in the same way. */
  lemma {:induction false} RevertedPrefix(reader: SelectorReader, calls: seq<Call>, n: nat)
    requires n <= |calls| && TotalAmounts(reader, calls[..n]).Revert?
    ensures TotalAmounts(reader, calls) == TotalAmounts(reader, calls[..n])
  {
    if n == |calls| {
      assert calls[..n] == calls;
    } else {
      var rest := calls[..|calls| - 1];
      assert rest[..n] == calls[..n];
      RevertedPrefix(reader, rest, n);
    }
  }
}
