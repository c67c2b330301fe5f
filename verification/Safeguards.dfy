/** The other safeguards over whole runs: lifetime USDC, the cooldown after large spends, the withdrawal timelock. */
module Safeguards {
  import opened Evm
  import opened AccountSpec
  import opened Batch
  import opened Runs

  // ---------------------------------------------------------------- lifetime USDC

  lemma NoUsdcCalled(effects: seq<Effect>)
    requires forall e <- effects :: !e.Called? && !e.GasPaid?
    ensures UsdcCalled(effects) == 0
  {
    if effects != [] {
      NoUsdcCalled(effects[..|effects| - 1]);
    }
  }

  lemma StepUsdc(cfg: Config, st: State, ev: Event)
    requires Step(cfg, st, ev).Ok?
    ensures var out := Step(cfg, st, ev).value;
            var moved := UsdcCalled(out.effects);
            && out.state.dailyUsdcSpent == st.dailyUsdcSpent + moved
            && out.state.monthlyUsdcSpent == st.monthlyUsdcSpent + moved
            && (moved > 0 ==> out.state.dailyUsdcSpent <= cfg.dailyUsdcLimit
                              && out.state.monthlyUsdcSpent <= cfg.monthlyUsdcLimit)
  {
    match ev.op
    case Execute(call, callOk) => ExecuteUsdc(cfg, st, ev.sender, ev.now, [call], if callOk then 1 else 0);
    case ExecuteBatch(calls, n) => ExecuteUsdc(cfg, st, ev.sender, ev.now, calls, n);
    case _ => OtherUsdc(cfg, st, ev);
  }

  lemma OtherUsdc(cfg: Config, st: State, ev: Event)
    requires Step(cfg, st, ev).Ok? && !ev.op.Execute? && !ev.op.ExecuteBatch?
    ensures var out := Step(cfg, st, ev).value;
            var moved := UsdcCalled(out.effects);
            && out.state.dailyUsdcSpent == st.dailyUsdcSpent + moved
            && out.state.monthlyUsdcSpent == st.monthlyUsdcSpent + moved
            && (moved > 0 ==> out.state.dailyUsdcSpent <= cfg.dailyUsdcLimit
                              && out.state.monthlyUsdcSpent <= cfg.monthlyUsdcLimit)
  {
    if ev.op.PayForGasInUsdc? {
      assert [GasPaid(ev.op.amount)][..0] == [];
    } else {
      NoUsdcCalled(Step(cfg, st, ev).value.effects);
    }
  }

  lemma ExecuteUsdc(cfg: Config, st: State, sender: Address, now: uint256, calls: seq<Call>, n: nat)
    requires ExecuteStep(cfg, st, sender, now, calls, n).Ok?
    ensures var out := ExecuteStep(cfg, st, sender, now, calls, n).value;
            var moved := UsdcCalled(out.effects);
            && out.state.dailyUsdcSpent == st.dailyUsdcSpent + moved
            && out.state.monthlyUsdcSpent == st.monthlyUsdcSpent + moved
            && (moved > 0 ==> out.state.dailyUsdcSpent <= cfg.dailyUsdcLimit
                              && out.state.monthlyUsdcSpent <= cfg.monthlyUsdcLimit)
  {
    RecordedIsSent(cfg.reader, calls);
    var total := TotalAmounts(cfg.reader, calls).value;
    var cooled := CooldownStep(cfg, st, now, total.eth, total.usdc).value;
    SpendMeaning(cfg, cooled, now, total.eth, total.usdc);
  }

  lemma RunUsdc(run: Run, i: nat)
    requires run.Valid() && i < |run.events|
    ensures var before, after := run.states[i], run.states[i + 1];
            var moved := run.log[i].usdc;
            && after.dailyUsdcSpent == before.dailyUsdcSpent + moved
            && after.monthlyUsdcSpent == before.monthlyUsdcSpent + moved
            && (moved > 0 ==> after.dailyUsdcSpent <= run.cfg.dailyUsdcLimit
                              && after.monthlyUsdcSpent <= run.cfg.monthlyUsdcLimit)
  {
    assert run.Happens(i);
    if run.log[i].accepted {
      StepUsdc(run.cfg, run.states[i], run.events[i]);
    }
  }

  /** The history of both USDC counters beside the log of a run. */
  datatype Tally = Tally(dailyLimit: nat, monthlyLimit: nat, log: seq<Entry>, daily: seq<nat>, monthly: seq<nat>) {

    ghost predicate Valid() {
      && |daily| == |monthly| == |log| + 1
      && daily[0] == monthly[0] == 0
      && (forall i :: 0 <= i < |log| ==> Moves(i))
    }

    predicate Moves(i: nat)
      requires i < |log| && |daily| == |monthly| == |log| + 1
    {
      && daily[i + 1] == daily[i] + log[i].usdc
      && monthly[i + 1] == monthly[i] + log[i].usdc
      && (log[i].usdc > 0 ==> daily[i + 1] <= dailyLimit && monthly[i + 1] <= monthlyLimit)
    }

    lemma {:induction false} Totals(n: nat)
      requires Valid() && n <= |log|
      ensures daily[n] == monthly[n] == UsdcTotal(log, n)
      ensures UsdcTotal(log, n) <= dailyLimit && UsdcTotal(log, n) <= monthlyLimit
    {
      if n > 0 {
        Totals(n - 1);
        assert Moves(n - 1);
      }
    }
  }

  function TallyOf(run: Run): Tally
    requires run.Aligned()
  {
    Tally(run.cfg.dailyUsdcLimit, run.cfg.monthlyUsdcLimit, run.log,
          seq(|run.states|, i requires 0 <= i < |run.states| => run.states[i].dailyUsdcSpent),
          seq(|run.states|, i requires 0 <= i < |run.states| => run.states[i].monthlyUsdcSpent))
  }

  lemma TallyMoves(run: Run, i: nat)
    requires run.Valid() && i < |run.events|
    ensures TallyOf(run).Moves(i)
  {
    RunUsdc(run, i);
  }

  /** USDC is never forgiven: in every reachable state both USDC counters equal all the USDC ever moved by calls and
      gas payments, so outside emergency withdrawal the account moves at most the smaller limit in its lifetime. */
  lemma LifetimeUsdcBound(run: Run, n: nat)
    requires run.Valid() && n <= |run.events|
    ensures run.states[n].dailyUsdcSpent == run.states[n].monthlyUsdcSpent == UsdcTotal(run.log, n)
    ensures UsdcTotal(run.log, n) <= run.cfg.dailyUsdcLimit && UsdcTotal(run.log, n) <= run.cfg.monthlyUsdcLimit
  {
    forall i | 0 <= i < |run.events| {
      TallyMoves(run, i);
    }
    TallyOf(run).Totals(n);
  }

  // ---------------------------------------------------------------- ETH that is not recorded

  /** All ETH that leaves the account. */
  function EthOut(effects: seq<Effect>): nat {
    if effects == [] then 0 else EthOut(effects[..|effects| - 1]) + OutOf(effects[|effects| - 1])
  }

  function OutOf(effect: Effect): nat {
    match effect
    case Called(call) => call.value
    case Prefunded(amount) => amount
    case EthWithdrawn(_, amount) => amount
    case _ => 0
  }

  /** Some of the ETH that leaves is not sent by an outside call exactly when one of the effects says so. */
  lemma {:induction false} OutBeyondCalls(effects: seq<Effect>)
    ensures EthOut(effects) >= EthCalled(effects)
    ensures EthOut(effects) == EthCalled(effects) <==> forall e <- effects :: OutOf(e) == EthOf(e)
  {
    if effects != [] {
      var front, last := effects[..|effects| - 1], effects[|effects| - 1];
      OutBeyondCalls(front);
      assert effects == front + [last];
    }
  }

  /** The ways ETH leaves without passing the counters. */
  predicate LeavesUnrecorded(op: Op) {
    || (op.ValidateUserOp? && op.missingFunds != 0 && op.prefundOk)
    || (op.EmergencyWithdraw? && op.ethBalance > 0)
  }

  /** What an accepted call sends out is fixed by the call and its environment. */
  function Outgoing(op: Op): seq<Effect> {
    match op
    case ValidateUserOp(_, _, missing, _, prefundOk) => if missing != 0 && prefundOk then [Prefunded(missing)] else []
    case Execute(call, _) => AllCalled([call])
    case ExecuteBatch(calls, _) => AllCalled(calls)
    case PayForGasInUsdc(amount, _, _) => [GasPaid(amount)]
    case RequestEmergencyWithdraw => []
    case EmergencyWithdraw(to, eth, _, deployed, usdc, _) =>
      (if eth > 0 then [EthWithdrawn(to, eth)] else []) +
      (if deployed && usdc > 0 then [UsdcWithdrawn(to, usdc)] else [])
  }

  lemma StepSends(cfg: Config, st: State, ev: Event)
    requires Step(cfg, st, ev).Ok?
    ensures Step(cfg, st, ev).value.effects == Outgoing(ev.op)
  {
  }

  lemma OutgoingUnrecorded(op: Op)
    ensures (forall e <- Outgoing(op) :: OutOf(e) == EthOf(e)) <==> !LeavesUnrecorded(op)
  {
    if LeavesUnrecorded(op) {
      var first := Outgoing(op)[0];
      assert first in Outgoing(op) && OutOf(first) > EthOf(first);
    }
  }

  /** The counters move by the ETH sent in outside calls (StepMoves); that is all ETH leaving the account exactly when
      the call neither pays a prefund nor withdraws a balance. */
  lemma EthRecordedExactly(cfg: Config, st: State, ev: Event)
    requires Step(cfg, st, ev).Ok?
    ensures var effects := Step(cfg, st, ev).value.effects;
            EthOut(effects) == EthCalled(effects) <==> !LeavesUnrecorded(ev.op)
  {
    StepSends(cfg, st, ev);
    OutBeyondCalls(Outgoing(ev.op));
    OutgoingUnrecorded(ev.op);
  }

  // ---------------------------------------------------------------- cooldown

  /** The calls the cooldown guards. */
  predicate Gated(op: Op) {
    op.ValidateUserOp? || op.Execute? || op.ExecuteBatch?
  }

  /** The amounts the cooldown sees; for a user operation these include the projected gas. */
  function GatedSpend(cfg: Config, op: Op): Result<Amounts>
    requires Gated(op)
  {
    match op
    case ValidateUserOp(userOp, _, _, basefee, _) =>
      var spend :- ParseCallData(cfg.reader, userOp.callData);
      var gas :- UsdcGasCostIfPaymaster(cfg, userOp, basefee);
      var usdc :- Add(spend.usdc, gas);
      Ok(Amounts(spend.eth, usdc))
    case Execute(call, _) => TotalAmounts(cfg.reader, [call])
    case ExecuteBatch(calls, _) => TotalAmounts(cfg.reader, calls)
  }

  predicate LargeOp(cfg: Config, op: Op) {
    Gated(op) && var spend := GatedSpend(cfg, op); spend.Ok? && IsLarge(cfg, spend.value.eth, spend.value.usdc)
  }

  lemma StepStamp(cfg: Config, st: State, ev: Event)
    requires Step(cfg, st, ev).Ok?
    ensures var after := Step(cfg, st, ev).value.state.lastLargeSpendTime;
            && after == (if LargeOp(cfg, ev.op) then ev.now else st.lastLargeSpendTime)
            && (Gated(ev.op) ==> !CoolingDown(st, ev.now))
  {
    match ev.op
    case ValidateUserOp(_, _, _, _, _) =>
    case Execute(call, callOk) => ExecuteStamp(cfg, st, ev.sender, ev.now, [call], if callOk then 1 else 0);
    case ExecuteBatch(calls, n) => ExecuteStamp(cfg, st, ev.sender, ev.now, calls, n);
    case _ =>
  }

  lemma ExecuteStamp(cfg: Config, st: State, sender: Address, now: uint256, calls: seq<Call>, n: nat)
    requires ExecuteStep(cfg, st, sender, now, calls, n).Ok?
    ensures var total := TotalAmounts(cfg.reader, calls).value;
            && ExecuteStep(cfg, st, sender, now, calls, n).value.state.lastLargeSpendTime
               == (if IsLarge(cfg, total.eth, total.usdc) then now else st.lastLargeSpendTime)
            && !CoolingDown(st, now)
  {
    var total := TotalAmounts(cfg.reader, calls).value;
    var cooled := CooldownStep(cfg, st, now, total.eth, total.usdc).value;
    SpendMeaning(cfg, cooled, now, total.eth, total.usdc);
  }

  /** One call as the cooldown sees it. */
  datatype Beat = Beat(now: nat, guarded: bool, large: bool)

  /** How one call may move the cooldown stamp. */
  predicate StampMoves(before: nat, after: nat, beat: Beat) {
    && after == (if beat.large then beat.now else before)
    && (beat.guarded ==> before == 0 || before + 3600 <= beat.now)
    && (beat.large ==> beat.guarded)
  }

  /** The history of the cooldown stamp beside the calls of a run. */
  datatype Pulse = Pulse(beats: seq<Beat>, stamps: seq<nat>) {

    ghost predicate Valid() {
      && |stamps| == |beats| + 1
      && stamps[0] == 0
      && (forall i :: 0 <= i < |beats| ==> beats[i].now > 0)
      && (forall i, j :: 0 <= i <= j < |beats| ==> beats[i].now <= beats[j].now)
      && (forall i :: 0 <= i < |beats| ==> Moves(i))
    }

    predicate Moves(i: nat)
      requires i < |beats| && |stamps| == |beats| + 1
    {
      StampMoves(stamps[i], stamps[i + 1], beats[i])
    }

    /** After a large spend the stamp never goes back. */
    lemma {:induction false} StampKept(i: nat, n: nat)
      requires Valid() && i < n <= |beats| && beats[i].large
      ensures stamps[n] >= beats[i].now
    {
      assert Moves(n - 1);
      if i + 1 < n {
        StampKept(i, n - 1);
      }
    }

    lemma Spacing(i: nat, j: nat)
      requires Valid() && i < j < |beats| && beats[i].large && beats[j].guarded
      ensures beats[j].now >= beats[i].now + 3600
    {
      StampKept(i, j);
      assert Moves(j);
    }

    /** How many of the first `n` calls are large spends at times in `[from, until]`. */
    function Count(n: nat, from: nat, until: nat): nat
      requires n <= |beats|
    {
      if n == 0 then 0 else
      Count(n - 1, from, until) + if beats[n - 1].large && from <= beats[n - 1].now <= until then 1 else 0
    }

    lemma {:induction false} CountSpaced(n: nat, from: nat, until: nat)
      requires Valid() && n <= |beats|
      ensures Count(n, from, until) > 0 ==>
                && 0 < stamps[n]
                && from + (Count(n, from, until) - 1) * 3600
                   <= (if stamps[n] < until then stamps[n] else until)
    {
      if n > 0 {
        CountSpaced(n - 1, from, until);
        assert Moves(n - 1);
      }
    }

    lemma CountBound(n: nat, from: nat, until: nat)
      requires Valid() && n <= |beats| && from <= until
      ensures Count(n, from, until) <= 1 + (until - from) / 3600
    {
      CountSpaced(n, from, until);
    }
  }

  function BeatOf(run: Run, i: nat): Beat
    requires run.Aligned() && i < |run.events|
  {
    Beat(run.log[i].now, run.log[i].accepted && Gated(run.events[i].op),
         run.log[i].accepted && LargeOp(run.cfg, run.events[i].op))
  }

  lemma RunStamp(run: Run, i: nat)
    requires run.Valid() && i < |run.events|
    ensures StampMoves(run.states[i].lastLargeSpendTime, run.states[i + 1].lastLargeSpendTime, BeatOf(run, i))
  {
    assert run.Happens(i);
    if run.log[i].accepted {
      StepStamp(run.cfg, run.states[i], run.events[i]);
    }
  }

  function PulseOf(run: Run): Pulse
    requires run.Aligned()
  {
    Pulse(
      seq(|run.events|, i requires 0 <= i < |run.events| => BeatOf(run, i)),
      seq(|run.states|, i requires 0 <= i < |run.states| => run.states[i].lastLargeSpendTime))
  }

  lemma PulseMoves(run: Run, i: nat)
    requires run.Valid() && i < |run.events|
    ensures PulseOf(run).Moves(i)
  {
    var before, after, beat := run.states[i].lastLargeSpendTime, run.states[i + 1].lastLargeSpendTime, BeatOf(run, i);
    assert StampMoves(before, after, beat) by {
      RunStamp(run, i);
    }
    var pulse := PulseOf(run);
    assert pulse.stamps[i] == before && pulse.stamps[i + 1] == after && pulse.beats[i] == beat;
  }

  lemma RunIsPulse(run: Run)
    requires run.Valid()
    ensures PulseOf(run).Valid()
  {
    forall i | 0 <= i < |run.events| {
      PulseMoves(run, i);
    }
  }

  /** In every run, however other calls interleave: after a large spend was validated or executed at time `s`, every
      later call of `validateUserOp`, `execute` or `executeBatch` that succeeds comes at `s + 3600` or later. */
  lemma CooldownSpacing(run: Run, i: nat, j: nat)
    requires run.Valid() && i < j < |run.events|
    requires run.log[i].accepted && LargeOp(run.cfg, run.events[i].op)
    requires run.log[j].accepted && Gated(run.events[j].op)
    ensures run.log[j].now >= run.log[i].now + 3600
  {
    RunIsPulse(run);
    PulseOf(run).Spacing(i, j);
  }

  /** So an interval holds at most one large spend for each hour begun. */
  lemma LargeSpendsBound(run: Run, from: nat, until: nat)
    requires run.Valid() && from <= until
    ensures PulseOf(run).Count(|run.events|, from, until) <= 1 + (until - from) / 3600
  {
    RunIsPulse(run);
    PulseOf(run).CountBound(|run.events|, from, until);
  }

  /** An operation worth more than half of the daily USDC limit is never carried through: whatever runs within the
      hour after its validation, no execution succeeds in that hour, its own included. */
  lemma LargeOpsNeverComplete(run: Run, i: nat, j: nat)
    requires run.Valid() && i < j < |run.events|
    requires run.events[i].op.ValidateUserOp? && run.log[i].accepted
    requires (run.events[j].op.Execute? || run.events[j].op.ExecuteBatch?) && run.log[j].accepted
    requires run.log[j].now < run.log[i].now + 3600
    ensures !LargeOp(run.cfg, run.events[i].op)
  {
    if LargeOp(run.cfg, run.events[i].op) {
      CooldownSpacing(run, i, j);
    }
  }

  // ---------------------------------------------------------------- withdrawal timelock

  datatype Move = Requested | Withdrew | Neither

  /** How one call may move the request stamp. */
  predicate RequestMoves(move: Move, now: nat, before: nat, after: nat) {
    match move
    case Requested => after == now
    case Withdrew => after == 0 != before && before + 172800 <= now
    case Neither => after == before
  }

  /** The history of the request stamp beside the calls of a run. */
  datatype Timelock = Timelock(times: seq<nat>, moves: seq<Move>, stamps: seq<nat>) {

    ghost predicate Valid() {
      && |stamps| == |moves| + 1 == |times| + 1
      && stamps[0] == 0
      && (forall i :: 0 <= i < |moves| ==> Moves(i))
    }

    predicate Moves(i: nat)
      requires i < |moves| && |stamps| == |moves| + 1 == |times| + 1
    {
      RequestMoves(moves[i], times[i], stamps[i], stamps[i + 1])
    }

    /** Call `r` is the request in force just before call `n`: nothing has requested or withdrawn since. */
    ghost predicate InForce(r: nat, n: nat)
      requires |times| == |moves| && n <= |moves|
    {
      r < n && moves[r] == Requested && forall k :: r < k < n ==> moves[k] == Neither
    }

    lemma {:induction false} StampNamesRequest(n: nat)
      requires Valid() && n <= |moves|
      ensures stamps[n] != 0 ==> exists r: nat :: InForce(r, n) && times[r] == stamps[n]
    {
      if n > 0 {
        assert Moves(n - 1);
        if moves[n - 1] == Requested {
          assert InForce(n - 1, n);
        } else if moves[n - 1] == Neither && stamps[n] != 0 {
          StampNamesRequest(n - 1);
          var r: nat :| InForce(r, n - 1) && times[r] == stamps[n - 1];
          assert InForce(r, n);
        }
      }
    }
  }

  /** Just before call `n` the stamp is the time of the request in force. */
  lemma {:induction false} RequestIsStamped(lock: Timelock, r: nat, n: nat)
    requires lock.Valid() && n <= |lock.moves| && lock.InForce(r, n)
    ensures lock.stamps[n] == lock.times[r]
  {
    assert lock.Moves(n - 1);
    if r + 1 < n {
      assert lock.InForce(r, n - 1);
      RequestIsStamped(lock, r, n - 1);
    }
  }

  function MoveOf(run: Run, i: nat): Move
    requires run.Aligned() && i < |run.events|
  {
    if !run.log[i].accepted then Neither else
    match run.events[i].op
    case RequestEmergencyWithdraw => Requested
    case EmergencyWithdraw(_, _, _, _, _, _) => Withdrew
    case _ => Neither
  }

  function TimelockOf(run: Run): Timelock
    requires run.Aligned()
  {
    Timelock(
      seq(|run.events|, i requires 0 <= i < |run.events| => run.log[i].now),
      seq(|run.events|, i requires 0 <= i < |run.events| => MoveOf(run, i)),
      seq(|run.states|, i requires 0 <= i < |run.states| => run.states[i].emergencyWithdrawRequestTime))
  }

  lemma StepRequest(cfg: Config, st: State, ev: Event)
    requires Step(cfg, st, ev).Ok?
    ensures var after := Step(cfg, st, ev).value.state.emergencyWithdrawRequestTime;
            match ev.op
            case RequestEmergencyWithdraw => after == ev.now
            case EmergencyWithdraw(_, _, _, _, _, _) =>
              after == 0 != st.emergencyWithdrawRequestTime
              && st.emergencyWithdrawRequestTime + 172800 <= ev.now
            case _ => after == st.emergencyWithdrawRequestTime
  {
    match ev.op
    case Execute(call, callOk) => ExecuteRequest(cfg, st, ev.sender, ev.now, [call], if callOk then 1 else 0);
    case ExecuteBatch(calls, n) => ExecuteRequest(cfg, st, ev.sender, ev.now, calls, n);
    case _ =>
  }

  lemma ExecuteRequest(cfg: Config, st: State, sender: Address, now: uint256, calls: seq<Call>, n: nat)
    requires ExecuteStep(cfg, st, sender, now, calls, n).Ok?
    ensures ExecuteStep(cfg, st, sender, now, calls, n).value.state.emergencyWithdrawRequestTime
         == st.emergencyWithdrawRequestTime
  {
    var total := TotalAmounts(cfg.reader, calls).value;
    var cooled := CooldownStep(cfg, st, now, total.eth, total.usdc).value;
    SpendMeaning(cfg, cooled, now, total.eth, total.usdc);
  }

  lemma RunRequest(run: Run, i: nat)
    requires run.Valid() && i < |run.events|
    ensures RequestMoves(MoveOf(run, i), run.log[i].now, run.states[i].emergencyWithdrawRequestTime,
                         run.states[i + 1].emergencyWithdrawRequestTime)
  {
    assert run.Happens(i);
    if run.log[i].accepted {
      StepRequest(run.cfg, run.states[i], run.events[i]);
    }
  }

  lemma TimelockMoves(run: Run, i: nat)
    requires run.Valid() && i < |run.events|
    ensures TimelockOf(run).Moves(i)
  {
    var before, after := run.states[i].emergencyWithdrawRequestTime, run.states[i + 1].emergencyWithdrawRequestTime;
    var move, now := MoveOf(run, i), run.log[i].now;
    assert RequestMoves(move, now, before, after) by {
      RunRequest(run, i);
    }
    var lock := TimelockOf(run);
    assert lock.stamps[i] == before && lock.stamps[i + 1] == after && lock.moves[i] == move && lock.times[i] == now;
  }

  lemma RunIsTimelock(run: Run)
    requires run.Valid()
    ensures TimelockOf(run).Valid()
  {
    forall i | 0 <= i < |run.events| {
      TimelockMoves(run, i);
    }
  }

  /** After any run, the owner's withdrawal with no failing transfer succeeds at `now` exactly when some request at
      least 48 hours old is in force. */
  lemma WithdrawalExactly(run: Run, now: uint256, op: Op)
    requires run.Valid() && op.EmergencyWithdraw? && op.ethOk && op.usdcOk
    ensures var n := |run.events|;
            WithdrawStep(run.cfg, run.states[n], run.cfg.vaultOwner, now, op).Ok? <==>
              exists r: nat :: TimelockOf(run).InForce(r, n) && run.log[r].now + 172800 <= now
  {
    RunIsTimelock(run);
    var lock, n := TimelockOf(run), |run.events|;
    var stamp := run.states[n].emergencyWithdrawRequestTime;
    assert WithdrawStep(run.cfg, run.states[n], run.cfg.vaultOwner, now, op).Ok? <==>
        stamp != 0 && stamp + 172800 <= now;
    assert lock.stamps[n] == stamp;
    lock.StampNamesRequest(n);
    if r: nat :| lock.InForce(r, n) && run.log[r].now + 172800 <= now {
      RequestIsStamped(lock, r, n);
    } else if stamp != 0 {
      var r: nat :| lock.InForce(r, n) && lock.times[r] == lock.stamps[n];
    }
  }

  /** Every withdrawal that succeeds answers a request made at least 48 hours earlier, with no request and no
      withdrawal in between: a new request restarts the clock. */
  lemma WithdrawalTimelock(run: Run, j: nat)
    requires run.Valid() && j < |run.events| && MoveOf(run, j) == Withdrew
    ensures exists r: nat :: TimelockOf(run).InForce(r, j) && run.log[r].now + 172800 <= run.log[j].now
  {
    RunIsTimelock(run);
    var lock := TimelockOf(run);
    assert lock.Moves(j);
    lock.StampNamesRequest(j);
    var r: nat :| lock.InForce(r, j) && lock.times[r] == lock.stamps[j];
    assert run.log[r].now + 172800 <= run.log[j].now;
  }

  /** So two withdrawals that succeed are at least 48 hours apart. */
  lemma WithdrawalsApart(run: Run, i: nat, j: nat)
    requires run.Valid() && i < j < |run.events|
    requires MoveOf(run, i) == Withdrew && MoveOf(run, j) == Withdrew
    ensures run.log[i].now + 172800 <= run.log[j].now
  {
    WithdrawalTimelock(run, j);
    var r: nat :| TimelockOf(run).InForce(r, j) && run.log[r].now + 172800 <= run.log[j].now;
    assert TimelockOf(run).moves[i] == Withdrew;
    assert run.log[i].now <= run.log[r].now;
  }
}
