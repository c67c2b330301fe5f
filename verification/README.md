# A verified model of the bounded spending account

The spending account is an ERC-4337 smart account whose ETH and USDC spending is limited per day and per month. Its
two windows are shared by both assets and are re-anchored only when a call happens to look at them, so what the limits
mean over real time follows from whole runs, not from any one function. This project models the account, its limit
policy and its paymaster, and proves what they guarantee; it also models four self-contained algorithms from the
libraries the repository ships: wrapping into a range, packed storage fields, bisection and packing in the ERC-4337 test
helpers, and the insertion of group headers by the cheatcode script.

Check everything with `dafny verify dfyconfig.toml` (Dafny 4.11).

## How it is laid out

- `Evm.dfy`: words, checked arithmetic, reverts, big-endian bytes.
- `LimitPolicy.dfy`, `SpendingPaymaster.dfy`: the pure library and the charge formula, with its rounding.
- `AccountSpec.dfy`: the effect of every external call as a function `Step` from state to outcome. Arithmetic is over
  unbounded naturals; each place where checked arithmetic can panic is a written-out guard, so a revert is accounted for
  and never changes a result.
- `SpendingAccount.dfy`: the contract as a class, with its fields, its checked arithmetic, its order of updates and its
  loops. Each external method is proved to do to storage and to the outgoing value exactly what `Step` says, and to
  return exactly its error; internal methods update fields before a later check may fail, and the external method undoes
  that as the EVM does.
- `Batch.dfy`: what a batch sends and records, permutations, and when the limits alone take its calls one at a time.
- `Execution.dfy`: the same question for the whole of `execute` and `executeBatch`, cooldown included.
- `Runs.dfy`, `WindowBounds.dfy`, `Safeguards.dfy`: runs of arbitrary external calls at non-decreasing times, and what
  holds over every run: ETH bounds, lifetime USDC, cooldown, timelock. A run lists its calls, the storage around each
  and what each sent; every entry follows by `Step`, and a call that reverts changes nothing.
- `Witnesses.dfy`: runs that reach the bounds, what stale counters do, and where the order of calls matters.
- `History.dfy`: any history of calls on an object of the class is such a run, in storage and in outgoing value.
- `Preflight.dfy`: what validation promises about execution and gas payment.
- `CallLaws.dfy`: for each external call, who may make it, exactly when it succeeds and everything it changes, in plain
  fields and numbers; nothing there mentions how `Step` computes it.
- `StdUtils.dfy`, `StdStorage.dfy`, `TestUtils.dfy`, `VmScript.dfy`: the library algorithms.

## Assumptions

- Timestamps are positive and never decrease.
- Outside calls do not write the account's fields. Every writer checks its caller (src/SpendingAccount.sol:216, 231,
  256, 427, 435).
- Whether an outside call succeeds, who signed an operation, balances, the base fee and whether enough gas is left are
  inputs of each call. The USDC token moves what its `transfer` arguments say when the call succeeds.
- For the paymaster flow: the gas cost the EntryPoint reports is at most the required gas at the operation's price, and
  the maximum cost is the required gas at `maxFeePerGas`
  (lib/account-abstraction/contracts/core/EntryPoint.sol:459-471); paymaster and account are deployed with the same
  rate.

## Where the code differs from its documentation

The model follows the code.

- USDC counters are never reset: the second look at the windows gets anchors that were just updated
  (src/SpendingAccount.sol:334-340, 390-396). `LimitPolicy.SecondResetNeverFires` and `Safeguards.LifetimeUsdcBound`
  prove it.
- Preflight does reset them (src/SpendingAccount.sol:169-171), so it can accept what is then rejected.
  `Preflight.PreflightExact` gives the exact condition and `Preflight.PreflightTooGenerous` an instance.
- A call without ETH, or a gas payment, moves the anchors and leaves stale ETH counters behind
  (src/SpendingAccount.sol:342-368, 405-408). The counter is never less than what was sent since the anchor
  (`WindowBounds.SharedAnchor`); it exceeds that by exactly what was carried over from an earlier window
  (`WindowBounds.CounterExactly`), and by all of the smaller limit in `Witnesses.OverCounted`.
- The limits hold per lazily anchored window, not per sliding day: a day can send twice the smaller limit, within two
  seconds unless that is a large spend (`Witnesses.TwiceTheLimitIsReached`), and never more (`Witnesses.DayBound`).
- A large operation does not succeed and then cool down: validating it already starts the cooldown that its own
  execution runs into. Being small is part of the exact condition in `Preflight.PreflightExact`; in every run the block
  lasts an hour (`Safeguards.LargeOpsNeverComplete`); `Preflight.LargeOpIsAccepted` is an instance.
- Not every ETH transfer is counted, as INVARIANTS.md:9-17 has it: prefunds and emergency withdrawals are not
  (`Safeguards.EthRecordedExactly`).
- The selector of a call to USDC is read from the wrong place (src/SpendingAccount.sol:290-294), so every such call
  reverts (`Batch.LiteralReaderRejectsUsdc`). The reader is a field of `Config`, and results hold for the literal and
  for the intended reader alike except where they name one.
- A batch and its calls made one at a time are not the same even while no window is over: only the batch can make a
  small payment together with a large one in any order, because the cooldown comes between separate calls
  (`Witnesses.OrderMattersToCooldown`). `Execution.ExecutionIsCallByCall` says exactly when they are the same. The
  limits by themselves never mind the order as selectors are read (`Batch.OrderFreeLiterally`); as they are intended to
  be read they can (`Witnesses.OrderMattersAfterExpiry`).

## Model

| member | source | states |
|---|---|---|
| Evm.MulIsChecked | src/SpendingAccount.sol:135-138 | checked multiplication is the exact product, or a panic when that leaves a word |
| LimitPolicy.MaybeResetWindows | src/LimitPolicy.sol:35-60 | each window is re-anchored at the present moment and its counter zeroed exactly when it is over; the only failure is a window end beyond a word |
| LimitPolicy.SecondResetNeverFires | src/SpendingAccount.sol:329-340 | a second look at the same moment through the returned anchors changes no counter it is given |
| LimitPolicy.ValidateSpend | src/LimitPolicy.sol:65-96 | the checked comparison accepts exactly when the unbounded sums respect both limits, so overflow never flips the verdict; exactly when each limit error is raised |
| SpendingPaymaster.ValidatePaymasterUserOp | src/SpendingPaymaster.sol:41-64 | accepted exactly with at least 100000 post-op gas, at most 0.01 ether, a product in a word and enough balance, at the charge for the maximum cost |
| SpendingPaymaster.PostOpCharge | src/SpendingPaymaster.sol:66-78 | the settled amount is the same charge formula, and fails only when a product leaves a word |
| SpendingPaymaster.ChargeLaw | src/SpendingPaymaster.sol:74-75 | the charge in plain numbers: five per cent on top of the cost, at the rate for 10^18 wei; and exactly when it can be computed |
| SpendingPaymaster.ChargeMonotone | src/SpendingPaymaster.sol:74-75 | the charge, and whether it fits, are monotone in the gas cost at any rate |
| SpendingPaymaster.SettlementCoveredByValidation | src/SpendingPaymaster.sol:52-61 | an operation accepted for a maximum cost is later charged without overflow and at most what its balance was checked for |
| SpendingPaymaster.CapBoundsCharge | src/SpendingPaymaster.sol:28-56 | under the 0.01 ether cap no charge exceeds 105 * rate / 10000, and a cost at the cap is charged exactly that |
| SpendingPaymaster.ChargeRounding | src/SpendingPaymaster.sol:74-75 | one charge never exceeds the exact price and misses it by less than one unit plus a ten-thousandth of the rate, both floors cleared |
| SpendingPaymaster.ChargeRoundingOverRun | src/SpendingPaymaster.sol:74-75 | over any run of charges the payer is never over-charged and the total rounding loss is linear in the number of operations |
| AccountSpec.LiteralReaderSeesZero | src/SpendingAccount.sol:290-294 | whatever memory word the assembly loads, the selector it yields is zero and not that of transfer |
| AccountSpec.ParseSpendAmounts | src/SpendingAccount.sol:281-304 | which calls are accepted: as the selector is read only plain ETH, as intended also a well-formed transfer of USDC without ETH; an accepted call is recorded at exactly the ETH it carries and the USDC the token moves for it |
| AccountSpec.UsdcGasCostIfPaymaster | src/SpendingAccount.sol:126-139 | reverts exactly when some intermediate value leaves a word, and otherwise is the charge formula on required gas times price, or zero without this paymaster |
| AccountSpec.GasPrice | lib/account-abstraction/contracts/core/UserOperationLib.sol:23-30 | the price is the smaller of the highest price allowed and the priority fee plus base fee, a sum that wraps |
| SpendingAccount.Slice | src/SpendingAccount.sol:306-312 | the copied buffer is the suffix from the start index |
| SpendingAccount.SpendingAccount.ParseCall | src/SpendingAccount.sol:281-304 | decoding the arguments from the slice of a copied payload gives the amounts of the call, or its error |
| SpendingAccount.SpendingAccount.constructor | src/SpendingAccount.sol:77-97 | a new account has zero counters and stamps and both anchors at its deployment time |
| SpendingAccount.SpendingAccount.CheckAndUpdatePanicCooldown | src/SpendingAccount.sol:184-196 | blocks within an hour of the last large spend, and stamps exactly the large ones (CallLaws.ThresholdLaw and CallLaws.RestLaw say in numbers what that means) |
| SpendingAccount.SpendingAccount.ValidatePreflightLimits | src/SpendingAccount.sol:164-180 | checks both assets against forgiving counters and changes nothing but the cooldown stamp |
| SpendingAccount.SpendingAccount.ApplySpendAndUpdate | src/SpendingAccount.sol:314-369 | the step-by-step update with two window look-ups equals one spend whose USDC side is never reset |
| SpendingAccount.SpendingAccount.ApplyUsdcSpend | src/SpendingAccount.sol:371-410 | the two window look-ups and the update have the outcome that CallLaws.GasSpendLaw gives: anchors move, USDC counters grow, ETH counters stay |
| SpendingAccount.SpendingAccount.SumAmounts | src/SpendingAccount.sol:232-242 | the loop computes the total of all calls and reverts with the error of the first call or sum that fails |
| SpendingAccount.SpendingAccount.ParseSpendAmountsFromCallData | src/SpendingAccount.sol:142-160 | preflight sees the same amounts execution will, and rejects unknown selectors |
| SpendingAccount.SpendingAccount.ValidateUserOp | src/SpendingAccount.sol:103-114 | storage, outgoing value, result and error are those of Step, which CallLaws.ValidateLaw spells out; a revert changes nothing |
| SpendingAccount.SpendingAccount.Execute | src/SpendingAccount.sol:211-219 | the same for one call, which equals a batch of one (CallLaws.ExecuteLaw) |
| SpendingAccount.SpendingAccount.ExecuteBatch | src/SpendingAccount.sol:230-249 | the same for a batch: all calls are sent in order after one recording, or storage and outgoing value are untouched (CallLaws.ExecuteLaw) |
| SpendingAccount.SpendingAccount.PayForGasInUsdc | src/SpendingAccount.sol:255-268 | the same for a gas payment (CallLaws.PayLaw) |
| SpendingAccount.SpendingAccount.RequestEmergencyWithdraw | src/SpendingAccount.sol:426-430 | the same for a withdrawal request |
| SpendingAccount.SpendingAccount.EmergencyWithdraw | src/SpendingAccount.sol:434-458 | the same for a withdrawal: the request is consumed and both balances go out, or nothing changes |
| CallLaws.CallerLaw | src/SpendingAccount.sol:108-458 | each call is open to one party only: the entry point, the paymaster or the owner; anyone else gets the error for that before anything else is looked at |
| CallLaws.AllowedLaw | src/SpendingAccount.sol:281-304 | which calls are allowed by address, value and payload bytes, what each moves, and the error for every other |
| CallLaws.SpendLaw | src/SpendingAccount.sol:314-369 | when a spend fits, with windows of 86400 and 2592000 seconds, and every field it changes |
| CallLaws.ThresholdLaw | src/SpendingAccount.sol:182-196 | large means worth more than half of the daily USDC limit, ETH at the rate for 10^18 wei; and when that can be computed |
| CallLaws.RestLaw | src/SpendingAccount.sol:189-191 | a cooldown is on for 3600 seconds after a large spend |
| CallLaws.ProjectionLaw | src/SpendingAccount.sol:126-139 | the projected gas from the bytes of the paymaster data, in plain numbers, and exactly when it can be computed |
| CallLaws.ExecuteLaw | src/SpendingAccount.sol:211-249 | execute and executeBatch succeed exactly for the entry point, with allowed calls, no cooldown, totals that fit and no failing outside call; the calls they send, in order, and every field they change |
| CallLaws.CallDataLaw | src/SpendingAccount.sol:142-160 | which call data preflight understands, and the amounts it reads from it |
| CallLaws.ValidateLaw | src/SpendingAccount.sol:103-205 | validateUserOp succeeds exactly under the listed conditions, answers 0 for the owner's signature and 1 for any other, pays the missing funds and changes only the stamp of a large operation |
| CallLaws.GasSpendLaw | src/SpendingAccount.sol:371-410 | recording a gas payment is recording a spend of USDC alone, except that a zero amount is checked too |
| CallLaws.PayLaw | src/SpendingAccount.sol:255-268 | payForGasInUsdc succeeds exactly for the paymaster, with gas left, when the amount fits and the transfer succeeds; every field it changes |
| CallLaws.RequestLaw | src/SpendingAccount.sol:426-430 | the owner may always request, and only the request stamp changes |
| CallLaws.WithdrawLaw | src/SpendingAccount.sol:434-458 | emergencyWithdraw succeeds exactly for the owner, 172800 seconds after the request, when no transfer fails; what it sends, in order, and that only the request stamp changes |
| CallLaws.LimitErrorLaw | src/SpendingAccount.sol:188-369 | which error an active cooldown and each exceeded limit raise, and which comes first |
| CallLaws.ErrorLaw | src/SpendingAccount.sol:103-458 | what the right caller is told when something else is wrong |
| AccountSpec.SingleCall | src/SpendingAccount.sol:270-278 | the amounts of one call are those of a batch of one |
| Batch.RecordedIsSent | src/SpendingAccount.sol:230-249 | what the first loop records is what the second loop sends, in ETH and in USDC; recording fails exactly for a call that is not allowed or a sum beyond a word |
| Batch.LiteralReaderRejectsUsdc | src/SpendingAccount.sol:287-300 | with the selector read as written, any batch or preflight that contains a call to USDC reverts |
| Batch.PermutationKeepsAccounting | src/SpendingAccount.sol:232-242 | permuting a batch changes neither its acceptance nor its recorded amounts |
| Batch.PermutationKeepsBatch | src/SpendingAccount.sol:230-249 | so the whole of executeBatch ends in the same state and sends the same value |
| Batch.SpendMeaning | src/SpendingAccount.sol:314-369 | a spend of any two amounts is accepted exactly when both fit what is left, without overflow playing a part, and the state it leaves |
| Batch.TwoStepsAreOne | src/SpendingAccount.sol:314-369 | two spends at one moment equal one spend of the sums, unless a window was over and only the second carries ETH |
| Batch.CallByCall | src/SpendingAccount.sol:314-369 | recording any non-empty list call by call equals recording it at once, from the untouched state if the first call carries ETH and from the already touched state otherwise |
| Batch.CallByCallExactly | src/SpendingAccount.sol:314-369 | the two agree from the same state if and only if the first call carries ETH, or the list none, or no counter is stale, or the sums are rejected |
| Batch.BatchIsCallByCall | src/SpendingAccount.sol:314-369 | the limits alone: for every batch, state and order of its calls, _applySpendAndUpdate takes them one at a time exactly when it takes the totals, with the same final counters, if and only if a condition on the first call, the stale counters and the sums holds |
| Batch.OrderFreeWhileLive | src/SpendingAccount.sol:314-369 | so _applySpendAndUpdate takes any order like the totals while neither window is over |
| Batch.OrderFreeLiterally | src/SpendingAccount.sol:281-369 | and with the selector read as written it takes any order of a non-empty batch like the totals at any moment |
| Execution.RecordMeaning | src/SpendingAccount.sol:270-278 | cooldown and limits together accept two amounts exactly when no cooldown is active, the value fits a word and both fit what is left, and the state they leave |
| Execution.EachMeaning | src/SpendingAccount.sol:188-278 | amounts recorded one at a time are accepted exactly when none before the last is large and their sums fit what is left where the first starts from, and the state they leave |
| Execution.ExecutionIsCallByCall | src/SpendingAccount.sol:211-249 | for every batch, state, moment and order of its calls: execute call by call is accepted exactly when executeBatch is and leaves the same storage, if and only if, for an accepted batch, the limits start from the same place, no call before the last is large and the last is if the batch is |
| Execution.SmallCallsInOrder | src/SpendingAccount.sol:211-249 | for calls not large together that reduces to the condition for the limits alone, unless a cooldown rejects both |
| Execution.LiteralOrder | src/SpendingAccount.sol:211-304 | with the selector read as written, an order of an accepted batch does the same exactly when none before the last is large and the last is if the batch is |
| Runs.RunsGoOn | src/SpendingAccount.sol:103-440 | every run can go on with any call at any later time, and in only one way, so statements about all runs cover all histories |
| WindowBounds.StepMoves | src/SpendingAccount.sol:314-410 | every external call leaves each window alone, adds the ETH it really sends to the live window, or re-anchors it, and never beyond the limit |
| WindowBounds.IntervalBound | src/LimitPolicy.sol:52-59 | in every run, ETH sent by execute and executeBatch in any half-open interval of d seconds is at most 2 + (d - 1) / window limits |
| WindowBounds.SlidingWindowBound | src/LimitPolicy.sol:52-59 | in every run, ETH sent by execute and executeBatch in any half-open 24-hour or 30-day interval is at most twice the limit |
| WindowBounds.LongHorizonBound | src/SpendingAccount.sol:95-96 | in every run, ETH sent from deployment up to time t is at most one limit for each window begun |
| WindowBounds.SharedAnchor | src/SpendingAccount.sol:342-368 | in every reachable state, ETH sent since a window's anchor is at most its counter, which is at most its limit, whichever call moved the anchor |
| WindowBounds.CounterExactly | src/SpendingAccount.sol:342-368 | in every reachable state a counter is what was sent since its anchor plus what it carries over from a window whose end no spend of ETH looked at, so it is exact if and only if that is zero |
| WindowBounds.Track.SentSince | src/LimitPolicy.sol:52-59 | the invariant behind the interval bounds: without a reset the counter covers what was sent since any moment, and after one it misses at most a limit for each window over since |
| WindowBounds.Track.SinceAnchor | src/LimitPolicy.sol:52-59 | the invariant behind both anchor results: what was sent since the anchor and what was carried over make up the counter |
| WindowBounds.Track.NothingAfterWindow | src/LimitPolicy.sol:52-59 | nothing has been sent at or after the end of the live window |
| Witnesses.DayBound | src/LimitPolicy.sol:52-59 | no day of any run sends more than twice the smaller limit |
| Witnesses.TwiceTheLimitIsReached | src/LimitPolicy.sol:9-13 | for any limits and any rate at which the spend has a value, a run sends that much within two seconds, or an hour and a second if the spend is large |
| Witnesses.MonthBound | src/LimitPolicy.sol:52-59 | no month of any run sends more than two monthly and thirty-one daily limits |
| Witnesses.MonthMostIsReached | src/LimitPolicy.sol:9-13 | for any limits and any rate at which the spend has a value, some month of a run sends exactly the smaller of the two |
| Witnesses.AllowanceIsReached | src/SpendingAccount.sol:95-96 | the bound since deployment is reached for either window and after any number of whole windows, when the other limit has room |
| Witnesses.OverCounted | src/SpendingAccount.sol:371-410 | for any limits, any rate at which the spend has a value and either reader, a run after which both counters hold the smaller limit though nothing was sent since their anchors, so that no ETH can be sent for another day |
| Witnesses.OrderMattersToCooldown | src/SpendingAccount.sol:188-249 | in any state, of a large and a small payment that a batch may make, execute makes the small and then the large one as the batch does, and rejects the small one after the large |
| Witnesses.BigAndSmall | src/SpendingAccount.sol:188-249 | such payments exist on an account as deployed, for either reader |
| Witnesses.TransferIsParsed | src/SpendingAccount.sol:287-301 | as intended, the encoding of any transfer is accepted and recorded at its amount |
| Witnesses.OrderMattersAfterExpiry | src/SpendingAccount.sol:211-249 | with the intended reader, from a state that a run reaches after a window is over, execute rejects one order of two calls over the limit while it makes the other order and executeBatch makes both |
| Safeguards.LifetimeUsdcBound | src/SpendingAccount.sol:385-408 | in every reachable state both USDC counters equal all USDC ever moved by calls and gas payments, so that total never exceeds the smaller limit |
| Safeguards.EthRecordedExactly | src/SpendingAccount.sol:198-205 | all ETH leaving in a call is sent by recorded outside calls exactly when the call neither pays a prefund nor withdraws a balance |
| Safeguards.CooldownSpacing | src/SpendingAccount.sol:188-196 | in every run, after a large spend at time s every later validateUserOp, execute or executeBatch that succeeds comes at s + 3600 or later, whatever interleaves |
| Safeguards.LargeSpendsBound | src/SpendingAccount.sol:188-196 | an interval from s to t holds at most 1 + (t - s) / 3600 large spends |
| Safeguards.LargeOpsNeverComplete | src/SpendingAccount.sol:179-196 | if any execution succeeds within the hour after an operation was validated, that operation was at or below the threshold |
| Safeguards.WithdrawalTimelock | src/SpendingAccount.sol:426-440 | every successful withdrawal answers a request at least 48 hours old with no request and no withdrawal in between |
| Safeguards.WithdrawalExactly | src/SpendingAccount.sol:434-440 | after any run the owner's withdrawal succeeds exactly when a request at least 48 hours old is in force, when no transfer fails |
| Safeguards.WithdrawalsApart | src/SpendingAccount.sol:426-440 | two successful withdrawals are at least 48 hours apart |
| SpendingAccount.SpendingAccount.Perform | src/SpendingAccount.sol:103-458 | every external call on the object does to storage and outgoing value exactly what Step says |
| History.LogCountsEffects | src/SpendingAccount.sol:103-458 | the ETH and USDC the log of a run counts are those in the effects of its calls |
| History.EffectsWithinLimits | src/SpendingAccount.sol:103-458 | the ETH and USDC in the effects of any run stay within the allowance of either window and both USDC limits |
| History.Play | src/SpendingAccount.sol:77-458 | deploying an account and making any calls in order of time gives a valid run whose last state is the object's storage and whose effects are its journal; the ETH and USDC in it are within all four limits |
| Preflight.ExecutionAfterPreflight | src/SpendingAccount.sol:270-278 | after an accepted preflight, execution at the same moment is accepted exactly when the operation is not large, its own USDC fits above the counters as they stand and the windows end within a word |
| Preflight.PreflightExact | src/SpendingAccount.sol:164-180 | after an accepted preflight, execution and a gas payment both succeed exactly when the operation is not large, USDC spend plus gas fit above the counters as they stand and the windows end within a word |
| Preflight.PreflightSound | src/SpendingAccount.sol:102-114 | preflight of an operation that is not large is sound when neither window is over, or when no USDC is involved: any payment up to the projected gas goes through |
| Preflight.PreflightTooGenerous | src/SpendingAccount.sol:169-177 | for either reader, a run after which, once a window is over, account and paymaster accept an operation whose gas cannot be paid |
| Preflight.LargeOpIsAccepted | src/SpendingAccount.sol:188-196 | for either reader, a large operation that a new account accepts and cannot carry through |
| Preflight.PaymasterFlowCompletes | src/SpendingPaymaster.sol:66-78 | in any run, while neither window is over, an accepted operation that is not large and whose outside calls succeed is executed, settled at the account's rate and paid, for any gas really used up to the required gas |
| Preflight.ProjectionWithinRequirement | src/SpendingAccount.sol:126-139 | the account's projection never exceeds the paymaster's requirement for the same operation and rate, nor 105 * rate / 10000 |
| StdUtils.Bound | lib/forge-std/src/StdUtils.sol:26-51 | never overflows, fails only on an empty range, lands in the range, keeps values that are in it, and sends the four smallest and four largest words to the same distance from the ends |
| StdUtils.BoundIsWrap | lib/forge-std/src/StdUtils.sol:41-50 | outside the range and the edge cases the result is the one value of the range congruent to the input modulo its size |
| StdUtils.BoundSignedIsConjugate | lib/forge-std/src/StdUtils.sol:57-75 | the signed form is the unsigned one conjugated by the shift by 2^255: fails only on an empty range, in range, identity inside, the same edges and the same wrap outside |
| StdStorage.MaskBits | lib/forge-std/src/StdStorage.sol:319-325 | the assembly's mask, wrap-around included, has exactly the bits of the field |
| StdStorage.UpdateReadsBack | lib/forge-std/src/StdStorage.sol:328-334 | for every value that fits, masking the updated word reads it back and all bits outside the field are unchanged |
| StdStorage.FieldIsFound | lib/forge-std/src/StdStorage.sol:71-83 | for a getter of a non-empty field, the first visible bits from both sides are the field's offsets |
| StdStorage.OffsetsLeaveRoom | lib/forge-std/src/StdStorage.sol:85-94 | for any getter, two offsets that were found leave at least one bit between them |
| StdStorage.Target.FindOffset | lib/forge-std/src/StdStorage.sol:71-83 | returns the first offset whose probe the getter sees, or that there is none |
| StdStorage.Target.FindOffsets | lib/forge-std/src/StdStorage.sol:85-94 | restores the word, and returns exactly the offsets of the field the getter reads |
| StdStorage.Target.CheckedWrite | lib/forge-std/src/StdStorage.sol:412-446 | the getter returns the value afterwards or the word is restored; for a field getter it succeeds exactly when the value fits |
| TestUtils.FindMin | lib/account-abstraction/test/testutils.ts:375-394 | reports both error cases exactly, for any delta; otherwise, for a delta of at least 2, terminates and returns a passing value with a failing one less than delta away on the side of the start |
| TestUtils.FoundNearLeast | lib/account-abstraction/test/testutils.ts:374-394 | for a monotone test the result is within delta - 2 of the least passing value, so it is that value for delta 2 |
| TestUtils.SmallDeltaNeverEnds | lib/account-abstraction/test/testutils.ts:382-393 | for any smaller delta no number of rounds meets the exit test |
| TestUtils.PackedPaymasterDataReadsBack | lib/account-abstraction/test/testutils.ts:328-333 | the slices the account takes recover everything packed for a 20-byte paymaster; packing fails exactly for limits beyond 128 bits |
| TestUtils.PaymasterDataIsPacked | src/SpendingAccount.sol:127-133 | and any data long enough is the packing of its slices |
| TestUtils.PackedOperationIsProjected | src/SpendingAccount.sol:127-135 | the account recognises its paymaster in packed data exactly, and counts exactly the packed gas limits |
| TestUtils.PackedDigits | lib/account-abstraction/test/testutils.ts:368-372 | the packed word has the aggregator in its low 160 bits, then validUntil and then validAfter in 48 bits each |
| TestUtils.ParsedDigits | lib/account-abstraction/test/testutils.ts:350-366 | the slices of the hexadecimal form are those digits |
| TestUtils.ParsePackedInRange | lib/account-abstraction/test/testutils.ts:350-366 | for fields in range parsing undoes packing, with zero read as 2^48 - 1 |
| TestUtils.ParseUndoesPack | lib/account-abstraction/test/testutils.ts:368-372 | parsing returns what was packed exactly for fields in range with a last moment |
| TestUtils.PackUndoesParse | lib/account-abstraction/test/testutils.ts:350-372 | packing returns the parsed word exactly when it holds a last moment |
| VmScript.CompareFlips | lib/forge-std/scripts/vm.py:109-134 | swapping flips the sign, and zero means all four keys agree, so the three operators are consistent |
| VmScript.CompareIsTransitive | lib/forge-std/scripts/vm.py:125-134 | the order is transitive, so sorting by it is well defined |
| VmScript.LessMeaning | lib/forge-std/scripts/vm.py:125-134 | the order of strings: the first differing character decides, and a prefix comes first |
| VmScript.FirstKeyDecides | lib/forge-std/scripts/vm.py:125-134 | the first differing key among group, status, safety and identifier decides |
| VmScript.CheatList.PrefixWithGroupHeaders | lib/forge-std/scripts/vm.py:138-150 | the walk over the growing list terminates and leaves the prefixed list; it fails exactly at the first empty group name, with earlier headers in place |
| VmScript.PrefixedIsHeaded | lib/forge-std/scripts/vm.py:138-150 | one header for each group just before its first member and nowhere else, a copy of it without description that declares the banner; taking the headers out gives back the input |
| VmScript.HeadedIsPrefixed | lib/forge-std/scripts/vm.py:138-150 | no other list has that property |
| VmScript.GroupsLieBetweenHeaders | lib/forge-std/scripts/vm.py:43-54 | on a list sorted by the comparison every group lies wholly between its header and the next |

## Left out

- Signatures, hashes, CREATE2 addresses, the factory and the deployment script: the signer of an operation is an input.
- The EntryPoint, the USDC token and OpenZeppelin: environment, with the assumptions above.
- Byte-level decoding of the arguments of `execute` and `executeBatch`: calls are taken as decoded; the payload of a
  USDC transfer is decoded byte by byte.
- Gas thresholds (whether enough gas is left is an input), gas forwarding, events, and the payloads of custom errors.
- Reentrancy: outside calls are answers, not code; see the assumptions.
- A prefund transfer that fails: the contract ignores it, and so does the model; it then counts as not sent.
- Slot discovery by recorded reads, mappings and parents (`find`, `parent`, `root` in StdStorage.sol): only the search
  for offsets inside a given word is modelled.
- Decoding packed gas limits in the test helpers with `parseInt`, which loses precision beyond 2^53; for the same reason
  the bisection is over integers that a number holds exactly.
- The wording of a header: its text is kept as the group it announces; copies need no aliasing argument because entries
  are values.
- The printer of the cheatcode script, JSON and TOML helpers, assertion wrappers, signers and Hardhat plumbing: easy or
  foreign.
