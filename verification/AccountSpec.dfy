/** What each external call of the spending account does, as a function from state to outcome. Arithmetic is over
    unbounded naturals; the places where checked arithmetic can panic are written out as guards. */
module AccountSpec {
  import opened Evm
  import opened LimitPolicy
  import opened SpendingPaymaster

  const USDC: Address := 0x833589fCD6eDb6E08f4c7C32D4f71b54bdA02913
  const TRANSFER_SELECTOR: nat := 0xa9059cbb

  const COOLDOWN_PERIOD: uint256 := 3600
  const WITHDRAW_TIMELOCK: uint256 := 172800
  const PANIC_THRESHOLD_BPS: uint256 := 5000
  const PAYMASTER_DATA_OFFSET: nat := 52
  const SIG_VALIDATION_SUCCESS: uint256 := 0
  const SIG_VALIDATION_FAILED: uint256 := 1

  /** How the selector of a call to USDC is read: as the assembly block does, or as its comment intends. */
  datatype SelectorReader = Literal | Intended

  /** The immutables of a deployed account. */
  datatype Config = Config(
    entryPoint: Address, vaultOwner: Address, paymaster: Address, usdcPerEth: uint256,
    dailyEthLimit: uint256, monthlyEthLimit: uint256, dailyUsdcLimit: uint256, monthlyUsdcLimit: uint256,
    reader: SelectorReader)

  /** The storage of a deployed account. */
  datatype State = State(
    dailyEthSpent: uint256, monthlyEthSpent: uint256, dailyUsdcSpent: uint256, monthlyUsdcSpent: uint256,
    lastDailyReset: uint256, lastMonthlyReset: uint256,
    emergencyWithdrawRequestTime: uint256, lastLargeSpendTime: uint256)

  function Deployed(now: uint256): State {
    State(0, 0, 0, 0, now, now, 0, 0)
  }

  datatype Call = Call(target: Address, value: uint256, data: seq<Byte>)

  datatype Amounts = Amounts(eth: uint256, usdc: uint256)

  /** The decoded call data of a user operation. */
  datatype CallData = TooShort | ExecuteCall(call: Call) | BatchCall(calls: seq<Call>) | OtherSelector | Undecodable

  datatype UserOp = UserOp(
    callData: CallData, preVerificationGas: uint256, verificationGasLimit: uint128, callGasLimit: uint128,
    maxPriorityFeePerGas: uint128, maxFeePerGas: uint128, paymasterAndData: seq<Byte>)

  /** What recovering the signer of a user operation gives. */
  datatype Signature = ByOwner | ByOther | Malformed

  /** An external call with the answers its environment gives. `firstFailure` is the index of the first outside
      call that fails; every call succeeds when it is not below the number of calls. */
  datatype Op =
    | ValidateUserOp(userOp: UserOp, signature: Signature, missingFunds: uint256, basefee: uint256, prefundOk: bool)
    | Execute(call: Call, callOk: bool)
    | ExecuteBatch(calls: seq<Call>, firstFailure: nat)
    | PayForGasInUsdc(amount: uint256, enoughGas: bool, transferOk: bool)
    | RequestEmergencyWithdraw
    | EmergencyWithdraw(recipient: Address, ethBalance: uint256, ethOk: bool,
                        usdcDeployed: bool, usdcBalance: uint256, usdcOk: bool)

  datatype Event = Event(sender: Address, now: uint256, op: Op)

  /** Value leaving the account. */
  datatype Effect =
    | Called(call: Call)
    | GasPaid(amount: uint256)
    | Prefunded(amount: uint256)
    | EthWithdrawn(to: Address, amount: uint256)
    | UsdcWithdrawn(to: Address, amount: uint256)

  datatype Outcome = Outcome(state: State, effects: seq<Effect>, validationData: uint256)

  // ---------------------------------------------------------------- what a call spends

  /** The memory word the assembly block loads: it starts four bytes into the payload. What lies behind the payload is
      taken to be zero. */
  function LoadedWord(data: seq<Byte>): (word: seq<Byte>)
    requires |data| >= 4
    ensures |word| == 32
  {
    (data[4..] + seq(32, _ => 0))[..32]
  }

  /** The selector it yields: the word is shifted right by 224 bits, so that its first four bytes end up last, and a
      `bytes4` is the first four bytes of the result. */
  function LiteralSelector(word: seq<Byte>): nat
    requires |word| == 32
  {
    BytesToNat((seq(28, _ => 0) + word[..4])[..4])
  }

  function ReadSelector(reader: SelectorReader, data: seq<Byte>): nat
    requires |data| >= 4
  {
    match reader
    case Literal => LiteralSelector(LoadedWord(data))
    case Intended => BytesToNat(data[..4])
  }

  /** Whatever word is loaded, the literal reader sees selector 0, which is not `transfer`. */
  lemma LiteralReaderSeesZero(word: seq<Byte>)
    requires |word| == 32
    ensures LiteralSelector(word) == 0 != TRANSFER_SELECTOR
  {
    assert (seq(28, _ => 0) + word[..4])[..4] == seq(4, _ => 0);
    ZeroBytes(4);
  }

  /** The USDC a call moves, as the token contract itself decodes it. */
  function UsdcMoved(call: Call): uint256 {
    if call.target == USDC && |call.data| >= 68 && BytesToNat(call.data[..4]) == TRANSFER_SELECTOR
    then Word(call.data, 36)
    else 0
  }

  /** A call of `transfer(address,uint256)` with both arguments in place. */
  predicate IsTransfer(call: Call) {
    && |call.data| >= 68
    && BytesToNat(call.data[..4]) == TRANSFER_SELECTOR
    && Word(call.data, 4) < TWO_160
  }

  /** The spend recorded for one call. As the selector is read, only plain ETH is ever accepted; as intended, also a
      transfer of USDC that carries no ETH. Under either reader an accepted call is recorded at exactly the ETH it
      carries and the USDC the token moves for it. */
  function ParseSpendAmounts(reader: SelectorReader, call: Call): (r: Result<Amounts>)
    ensures r.Ok? ==> r.value == Amounts(call.value, UsdcMoved(call))
    ensures reader == Literal ==> (r.Ok? <==> call.target != USDC && call.value > 0)
    ensures reader == Intended ==>
              (r.Ok? <==> if call.target == USDC then call.value == 0 && IsTransfer(call) else call.value > 0)
  {
    if call.target == USDC then
      if call.value > 0 then Revert(InvalidTargetOrSelector)
      else if |call.data| < 4 then Revert(InvalidSelector)
      else
        LiteralReaderSeesZero(LoadedWord(call.data));
        if ReadSelector(reader, call.data) != TRANSFER_SELECTOR then Revert(InvalidSelector)
        else if |call.data| < 68 then Revert(InvalidSelector)
        else
          var arguments := call.data[4..];
          assert arguments[0..32] == call.data[4..36] && arguments[32..64] == call.data[36..68];
          if Word(arguments, 0) >= TWO_160 then Revert(InvalidEncoding)
          else Ok(Amounts(0, Word(arguments, 32)))
    else if call.value == 0 then Revert(InvalidTargetOrSelector)
    else Ok(Amounts(call.value, 0))
  }

  function AddAmounts(a: Amounts, b: Amounts): Result<Amounts> {
    var eth :- Add(a.eth, b.eth);
    var usdc :- Add(a.usdc, b.usdc);
    Ok(Amounts(eth, usdc))
  }

  /** The spend recorded for a list of calls, taken from the left. */
  function TotalAmounts(reader: SelectorReader, calls: seq<Call>): Result<Amounts> {
    if calls == [] then Ok(Amounts(0, 0)) else
    var total :- TotalAmounts(reader, calls[..|calls| - 1]);
    var last :- ParseSpendAmounts(reader, calls[|calls| - 1]);
    AddAmounts(total, last)
  }

  /** Executing one call is executing a batch of one. */
  lemma SingleCall(reader: SelectorReader, call: Call)
    ensures TotalAmounts(reader, [call]) == ParseSpendAmounts(reader, call)
  {
    assert [call][..0] == [];
    assert TotalAmounts(reader, []) == Ok(Amounts(0, 0));
  }

  function ParseCallData(reader: SelectorReader, callData: CallData): Result<Amounts> {
    match callData
    case TooShort => Ok(Amounts(0, 0))
    case ExecuteCall(call) => ParseSpendAmounts(reader, call)
    case BatchCall(calls) => TotalAmounts(reader, calls)
    case OtherSelector => Revert(InvalidTargetOrSelector)
    case Undecodable => Revert(InvalidEncoding)
  }

  // ---------------------------------------------------------------- projected gas

  /** The price the EntryPoint charges at; the addition is unchecked and wraps. */
  function GasPrice(userOp: UserOp, basefee: uint256): (price: uint256)
    ensures price <= userOp.maxFeePerGas && price <= WrappingAdd(userOp.maxPriorityFeePerGas, basefee)
    ensures price == userOp.maxFeePerGas || price == WrappingAdd(userOp.maxPriorityFeePerGas, basefee)
  {
    var tip := WrappingAdd(userOp.maxPriorityFeePerGas, basefee);
    if userOp.maxFeePerGas < tip then userOp.maxFeePerGas else tip
  }

  predicate UsesPaymaster(cfg: Config, userOp: UserOp) {
    && |userOp.paymasterAndData| >= PAYMASTER_DATA_OFFSET
    && BytesToNat(userOp.paymasterAndData[..20]) == cfg.paymaster
  }

  /** The gas the EntryPoint may charge for, over unbounded naturals. */
  function RequiredGas(userOp: UserOp): nat
    requires |userOp.paymasterAndData| >= PAYMASTER_DATA_OFFSET
  {
    userOp.preVerificationGas + userOp.verificationGasLimit + userOp.callGasLimit
    + BytesToNat(userOp.paymasterAndData[20..36]) + BytesToNat(userOp.paymasterAndData[36..52])
  }

  predicate ProjectionFits(cfg: Config, userOp: UserOp, basefee: uint256) {
    UsesPaymaster(cfg, userOp) ==>
      var cost := Times(RequiredGas(userOp), GasPrice(userOp, basefee));
      && RequiredGas(userOp) < TWO_256
      && cost < TWO_256
      && ChargeFits(cost, cfg.usdcPerEth)
  }

  /** The gas cost in USDC that preflight adds to the operation's own spend. */
  function ProjectedCharge(cfg: Config, userOp: UserOp, basefee: uint256): nat {
    if UsesPaymaster(cfg, userOp)
    then Charge(Times(RequiredGas(userOp), GasPrice(userOp, basefee)), cfg.usdcPerEth)
    else 0
  }

  /** `_getUsdcGasCostIfPaymaster`: zero for operations that pay their own gas, otherwise the projected charge;
      it reverts exactly when some intermediate value does not fit a word. */
  function UsdcGasCostIfPaymaster(cfg: Config, userOp: UserOp, basefee: uint256): (r: Result<uint256>)
    ensures r.Ok? <==> ProjectionFits(cfg, userOp, basefee)
    ensures r.Ok? ==> r.value == ProjectedCharge(cfg, userOp, basefee)
    ensures r.Revert? ==> r.error == Panic
  {
    var data := userOp.paymasterAndData;
    if |data| < PAYMASTER_DATA_OFFSET then Ok(0) else
    if BytesToNat(data[..20]) != cfg.paymaster then Ok(0) else
    BytesOfWord();
    var validationGasLimit: uint128 := BytesToNat(data[20..36]);
    var postOpGasLimit: uint128 := BytesToNat(data[36..52]);
    var gas1 :- Add(userOp.preVerificationGas, userOp.verificationGasLimit);
    var gas2 :- Add(gas1, userOp.callGasLimit);
    var gas3 :- Add(gas2, validationGasLimit);
    var requiredGas :- Add(gas3, postOpGasLimit);
    var maxCostEth :- Mul(requiredGas, GasPrice(userOp, basefee));
    TimesIsProduct(maxCostEth, PREMIUM_BPS);
    var scaled :- Mul(maxCostEth, PREMIUM_BPS);
    var costWithPremium: uint256 := maxCostEth + scaled / BPS;
    var product :- Mul(costWithPremium, cfg.usdcPerEth);
    Ok(product / WAD)
  }

  // ---------------------------------------------------------------- cooldown

  predicate CoolingDown(st: State, now: nat) {
    st.lastLargeSpendTime != 0 && now < st.lastLargeSpendTime + COOLDOWN_PERIOD
  }

  function UsdValue(cfg: Config, eth: nat, usdc: nat): nat {
    Times(eth, cfg.usdcPerEth) / WAD + usdc
  }

  /** More than half of the daily USDC limit, at the fixed rate. */
  predicate IsLarge(cfg: Config, eth: nat, usdc: nat) {
    UsdValue(cfg, eth, usdc) > cfg.dailyUsdcLimit * PANIC_THRESHOLD_BPS / BPS
  }

  predicate UsdValueFits(cfg: Config, eth: nat, usdc: nat) {
    && Times(eth, cfg.usdcPerEth) < TWO_256
    && UsdValue(cfg, eth, usdc) < TWO_256
    && cfg.dailyUsdcLimit * PANIC_THRESHOLD_BPS < TWO_256
  }

  function CooldownStep(cfg: Config, st: State, now: uint256, eth: uint256, usdc: uint256): Result<State> {
    if st.lastLargeSpendTime != 0 && st.lastLargeSpendTime + COOLDOWN_PERIOD >= TWO_256 then Revert(Panic) else
    if CoolingDown(st, now) then Revert(LargeSpendCooldownActive) else
    if !UsdValueFits(cfg, eth, usdc) then Revert(Panic) else
    Ok(if IsLarge(cfg, eth, usdc) then st.(lastLargeSpendTime := now) else st)
  }

  // ---------------------------------------------------------------- limits

  predicate AnchorsFit(daily: nat, monthly: nat) {
    daily + DAILY_WINDOW < TWO_256 && monthly + MONTHLY_WINDOW < TWO_256
  }

  /** The state once both windows have been looked at and their anchors stored; counters are not rewritten. */
  function Touched(st: State, now: uint256): State {
    st.(lastDailyReset := Reanchored(st.lastDailyReset, DAILY_WINDOW, now),
        lastMonthlyReset := Reanchored(st.lastMonthlyReset, MONTHLY_WINDOW, now))
  }

  function DailyEth(st: State, now: uint256): uint256 {
    Remaining(st.lastDailyReset, DAILY_WINDOW, st.dailyEthSpent, now)
  }

  function MonthlyEth(st: State, now: uint256): uint256 {
    Remaining(st.lastMonthlyReset, MONTHLY_WINDOW, st.monthlyEthSpent, now)
  }

  function CheckEth(cfg: Config, st: State, now: uint256, amount: uint256): Result<()> {
    if amount == 0 then Ok(()) else
    ValidateSpend(DailyEth(st, now), MonthlyEth(st, now), cfg.dailyEthLimit, cfg.monthlyEthLimit, amount)
  }

  /** USDC is checked and recorded against the counters as they stand: they are never reset. */
  function CheckUsdc(cfg: Config, st: State, amount: uint256): Result<()> {
    ValidateSpend(st.dailyUsdcSpent, st.monthlyUsdcSpent, cfg.dailyUsdcLimit, cfg.monthlyUsdcLimit, amount)
  }

  function RecordEth(cfg: Config, st: State, now: uint256, amount: uint256): State
    requires CheckEth(cfg, st, now, amount).Ok?
  {
    if amount == 0 then st else
    st.(dailyEthSpent := DailyEth(st, now) + amount, monthlyEthSpent := MonthlyEth(st, now) + amount)
  }

  function RecordUsdc(cfg: Config, st: State, amount: uint256): State
    requires CheckUsdc(cfg, st, amount).Ok?
  {
    st.(dailyUsdcSpent := st.dailyUsdcSpent + amount, monthlyUsdcSpent := st.monthlyUsdcSpent + amount)
  }

  /** Spending ETH and USDC at once. */
  function SpendStep(cfg: Config, st: State, now: uint256, eth: uint256, usdc: uint256): Result<State> {
    var touched := Touched(st, now);
    if !AnchorsFit(touched.lastDailyReset, touched.lastMonthlyReset) then Revert(Panic) else
    var _ :- CheckEth(cfg, st, now, eth);
    var recorded := RecordEth(cfg, st, now, eth);
    if usdc == 0 then Ok(Touched(recorded, now)) else
    var _ :- CheckUsdc(cfg, recorded, usdc);
    Ok(Touched(RecordUsdc(cfg, recorded, usdc), now))
  }

  /** Spending USDC on gas. Unlike `SpendStep` it checks a zero amount too. */
  function GasSpendStep(cfg: Config, st: State, now: uint256, amount: uint256): Result<State> {
    var touched := Touched(st, now);
    if !AnchorsFit(touched.lastDailyReset, touched.lastMonthlyReset) then Revert(Panic) else
    var _ :- CheckUsdc(cfg, st, amount);
    Ok(Touched(RecordUsdc(cfg, st, amount), now))
  }

  /** The check before gas is paid: here an expired window forgives USDC as well as ETH. */
  function PreflightStep(cfg: Config, st: State, now: uint256, eth: uint256, usdc: uint256): Result<State> {
    if !AnchorsFit(st.lastDailyReset, st.lastMonthlyReset) then Revert(Panic) else
    var _ :- CheckEth(cfg, st, now, eth);
    var _ :- if usdc == 0 then Ok(()) else ValidateSpend(
      Remaining(st.lastDailyReset, DAILY_WINDOW, st.dailyUsdcSpent, now),
      Remaining(st.lastMonthlyReset, MONTHLY_WINDOW, st.monthlyUsdcSpent, now),
      cfg.dailyUsdcLimit, cfg.monthlyUsdcLimit, usdc);
    CooldownStep(cfg, st, now, eth, usdc)
  }

  // ---------------------------------------------------------------- external calls

  function ValidateStep(cfg: Config, st: State, sender: Address, now: uint256, op: Op): Result<Outcome>
    requires op.ValidateUserOp?
  {
    if sender != cfg.entryPoint then Revert(NotFromEntryPoint) else
    if op.signature == Malformed then Revert(InvalidSignature) else
    var spend :- ParseCallData(cfg.reader, op.userOp.callData);
    var gas :- UsdcGasCostIfPaymaster(cfg, op.userOp, op.basefee);
    var usdc :- Add(spend.usdc, gas);
    var after :- PreflightStep(cfg, st, now, spend.eth, usdc);
    var prefund := if op.missingFunds != 0 && op.prefundOk then [Prefunded(op.missingFunds)] else [];
    Ok(Outcome(after, prefund, if op.signature == ByOwner then SIG_VALIDATION_SUCCESS else SIG_VALIDATION_FAILED))
  }

  /** Executing a list of calls: all of them or none. */
  function ExecuteStep(
    cfg: Config, st: State, sender: Address, now: uint256, calls: seq<Call>, firstFailure: nat
  ): Result<Outcome> {
    if sender != cfg.entryPoint then Revert(NotFromEntryPoint) else
    var spend :- TotalAmounts(cfg.reader, calls);
    var cooled :- CooldownStep(cfg, st, now, spend.eth, spend.usdc);
    var after :- SpendStep(cfg, cooled, now, spend.eth, spend.usdc);
    if firstFailure < |calls| then Revert(CallFailed) else
    Ok(Outcome(after, AllCalled(calls), 0))
  }

  function AllCalled(calls: seq<Call>): seq<Effect> {
    seq(|calls|, i requires 0 <= i < |calls| => Called(calls[i]))
  }

  function PayStep(
    cfg: Config, st: State, sender: Address, now: uint256, amount: uint256, enoughGas: bool, transferOk: bool
  ): Result<Outcome> {
    if sender != cfg.paymaster then Revert(NotFromPaymaster) else
    if !enoughGas then Revert(InsufficientGasForUsdcTransfer) else
    var after :- GasSpendStep(cfg, st, now, amount);
    if !transferOk then Revert(CallFailed) else
    Ok(Outcome(after, [GasPaid(amount)], 0))
  }

  function WithdrawStep(cfg: Config, st: State, sender: Address, now: uint256, op: Op): Result<Outcome>
    requires op.EmergencyWithdraw?
  {
    if sender != cfg.vaultOwner then Revert(NotVaultOwner) else
    var requested := st.emergencyWithdrawRequestTime;
    if requested == 0 then Revert(NoWithdrawRequested) else
    if requested + WITHDRAW_TIMELOCK >= TWO_256 then Revert(Panic) else
    if now < requested + WITHDRAW_TIMELOCK then Revert(WithdrawTimelockNotMet) else
    var eth := if op.ethBalance > 0 then [EthWithdrawn(op.recipient, op.ethBalance)] else [];
    var usdc := if op.usdcDeployed && op.usdcBalance > 0 then [UsdcWithdrawn(op.recipient, op.usdcBalance)] else [];
    if eth != [] && !op.ethOk then Revert(CallFailed) else
    if usdc != [] && !op.usdcOk then Revert(CallFailed) else
    Ok(Outcome(st.(emergencyWithdrawRequestTime := 0), eth + usdc, 0))
  }

  function Step(cfg: Config, st: State, ev: Event): Result<Outcome> {
    match ev.op
    case ValidateUserOp(_, _, _, _, _) => ValidateStep(cfg, st, ev.sender, ev.now, ev.op)
    case Execute(call, callOk) => ExecuteStep(cfg, st, ev.sender, ev.now, [call], if callOk then 1 else 0)
    case ExecuteBatch(calls, firstFailure) => ExecuteStep(cfg, st, ev.sender, ev.now, calls, firstFailure)
    case PayForGasInUsdc(amount, enoughGas, transferOk) =>
      PayStep(cfg, st, ev.sender, ev.now, amount, enoughGas, transferOk)
    case RequestEmergencyWithdraw =>
      if ev.sender != cfg.vaultOwner then Revert(NotVaultOwner)
      else Ok(Outcome(st.(emergencyWithdrawRequestTime := ev.now), [], 0))
    case EmergencyWithdraw(_, _, _, _, _, _) => WithdrawStep(cfg, st, ev.sender, ev.now, ev.op)
  }
}
