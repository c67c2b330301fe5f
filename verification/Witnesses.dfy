/** Runs that show that the bounds are the best possible, and what lies behind them. Each starts with a deployment and
    is made of calls the account accepts. */
module Witnesses {
  import opened Evm
  import opened LimitPolicy
  import opened AccountSpec
  import opened Batch
  import opened Execution
  import opened Runs
  import opened SpendingPaymaster
  import opened TestUtils
  import opened WindowBounds

  /** Nothing has been paid in USDC so far. */
  predicate Quiet(run: Run) {
    |run.states| > 0 && Last(run).dailyUsdcSpent == Last(run).monthlyUsdcSpent == 0
  }

  function Last(run: Run): State
    requires |run.states| > 0
  {
    run.states[|run.states| - 1]
  }

  predicate NotBefore(run: Run, now: nat) {
    run.deployedAt <= now && (run.log != [] ==> run.log[|run.log| - 1].now <= now)
  }

  /** `more` is `run` and one call. */
  predicate Continues(run: Run, ev: Event, after: State, eth: nat, more: Run) {
    && more.cfg == run.cfg && more.deployedAt == run.deployedAt
    && more.events == run.events + [ev]
    && more.states == run.states + [after]
    && more.log == run.log + [Entry(ev.now, true, eth, 0)]
  }

  /** A payment of ETH to some address that is not USDC. */
  function Pay(cfg: Config, now: uint256, amount: uint256): Event {
    Event(cfg.entryPoint, now, Execute(Call(1, amount, []), true))
  }

  /** A run goes on with an ETH payment that cooldown and limits let pass. */
  lemma Spends(run: Run, now: uint256, amount: uint256) returns (more: Run)
    requires run.Valid() && Quiet(run) && NotBefore(run, now)
    requires 0 < amount && Passes(run.cfg, Last(run), now, amount, 0)
    ensures more.Valid() && Quiet(more)
    ensures Continues(run, Pay(run.cfg, now, amount),
                      Stamped(Spent(run.cfg, Last(run), now, amount, 0), IsLarge(run.cfg, amount, 0), now), amount,
                      more)
  {
    var ev := Pay(run.cfg, now, amount);
    OneRecords(run.cfg, Last(run), now, ev.op.call);
    RecordMeaning(run.cfg, Last(run), now, amount, 0);
    OneSent(ev.op.call);
    assert ExecuteAll(run.cfg, Last(run), now, [ev.op.call]).Ok?;
    more := Next(run, ev);
    RunsGoOn(run, ev);
  }

  /** A run goes on with a gas payment of nothing, which only looks at the windows. */
  lemma Looks(run: Run, now: uint256) returns (more: Run)
    requires run.Valid() && Quiet(run) && NotBefore(run, now)
    requires AnchorsFit(Touched(Last(run), now).lastDailyReset, Touched(Last(run), now).lastMonthlyReset)
    ensures more.Valid() && Quiet(more)
    ensures Continues(run, Event(run.cfg.paymaster, now, PayForGasInUsdc(0, true, true)), Touched(Last(run), now), 0,
                      more)
  {
    var ev := Event(run.cfg.paymaster, now, PayForGasInUsdc(0, true, true));
    assert [GasPaid(0)][..0] == [];
    assert EthCalled([GasPaid(0)]) == UsdcCalled([GasPaid(0)]) == 0;
    more := Next(run, ev);
    RunsGoOn(run, ev);
  }

  /** Adding to a log does not change what its first entries sent. */
  lemma {:induction false} SentPrefix(log: seq<Entry>, more: seq<Entry>, n: nat, from: nat, until: nat)
    requires n <= |log| <= |more| && log == more[..|log|]
    ensures EthBetween(log, n, from, until) == EthBetween(more, n, from, until)
  {
    if n > 0 {
      SentPrefix(log, more, n - 1, from, until);
    }
  }

  function Sent(run: Run, from: nat, until: nat): nat {
    EthBetween(run.log, |run.log|, from, until)
  }

  lemma SentMore(run: Run, ev: Event, after: State, eth: nat, more: Run, from: nat, until: nat)
    requires Continues(run, ev, after, eth, more)
    ensures Sent(more, from, until) == Sent(run, from, until) + if from <= ev.now < until then eth else 0
  {
    SentPrefix(run.log, more.log, |run.log|, from, until);
  }

  // ---------------------------------------------------------------- payments in a row

  /** How long after a payment of up to `cap` the next one may follow. */
  function Lead(cfg: Config, cap: nat): uint256 {
    if IsLarge(cfg, cap, 0) then COOLDOWN_PERIOD else 1
  }

  function Min(a: nat, b: nat): nat {
    if a < b then a else b
  }

  /** A run goes on with a payment, or as it is when the amount is zero. */
  lemma MaySpend(run: Run, now: uint256, amount: uint256, cap: nat, from: nat, until: nat, next: uint256)
    returns (more: Run)
    requires run.Valid() && Quiet(run) && NotBefore(run, now) && from <= now < until
    requires Unblocked(Last(run), now) && UsdValueFits(run.cfg, cap, 0) && amount <= cap
    requires Accepts(run.cfg, Last(run), now, amount, 0)
    requires now + Lead(run.cfg, cap) <= next && now + COOLDOWN_PERIOD < TWO_256
    ensures more.Valid() && Quiet(more) && more.cfg == run.cfg && more.deployedAt == run.deployedAt
    ensures NotBefore(more, now) && Unblocked(Last(more), next)
    ensures Sent(more, from, until) == Sent(run, from, until) + amount
    ensures if amount == 0 then more == run
            else EqualButStamp(Last(more), Spent(run.cfg, Last(run), now, amount, 0))
  {
    if amount == 0 {
      more := run;
    } else {
      ValueGrows(run.cfg, amount, 0, cap, 0);
      more := Spends(run, now, amount);
      SentMore(run, Pay(run.cfg, now, amount), Last(more), amount, more, from, until);
    }
  }

  /** What is needed to pay `total` in up to `n` payments of at most `cap`, `gap` apart: the day is fresh, and the month
      has room for all of it, or the gap is a month. */
  predicate HasRoom(cfg: Config, st: State, first: uint256, gap: nat, cap: nat, total: nat, n: nat) {
    && 0 < cap <= cfg.dailyEthLimit && UsdValueFits(cfg, cap, 0) && total <= Times(cap, n)
    && st.lastDailyReset <= first && st.lastMonthlyReset <= first && DailyEth(st, first) == 0
    && Unblocked(st, first)
    && (|| MonthlyEth(st, first) + total <= cfg.monthlyEthLimit
        || (gap >= MONTHLY_WINDOW && MonthlyEth(st, first) == 0 && cap <= cfg.monthlyEthLimit))
  }

  /** A run goes on with payments of `cap`, `gap` apart, until `total` is paid. */
  lemma {:induction false} SpendsInTurn(
    run: Run, first: uint256, gap: nat, cap: nat, total: nat, n: nat, from: nat, until: nat, next: uint256)
    returns (more: Run)
    requires run.Valid() && Quiet(run) && NotBefore(run, first) && n > 0 && DAILY_WINDOW <= gap
    requires HasRoom(run.cfg, Last(run), first, gap, cap, total, n)
    requires from <= first && first + Times(gap, n - 1) < until
    requires first + Times(gap, n - 1) + Lead(run.cfg, cap) <= next
    requires first + Times(gap, n - 1) + MONTHLY_WINDOW < TWO_256
    ensures more.Valid() && Quiet(more) && more.cfg == run.cfg && more.deployedAt == run.deployedAt
    ensures NotBefore(more, first + Times(gap, n - 1)) && Unblocked(Last(more), next)
    ensures Last(more).lastDailyReset <= first + Times(gap, n - 1)
    ensures Last(more).lastMonthlyReset <= first + Times(gap, n - 1)
    ensures first + Times(gap, n - 1) < Last(run).lastMonthlyReset + MONTHLY_WINDOW ==>
              Last(more).lastMonthlyReset == Last(run).lastMonthlyReset
    ensures MonthlyEth(Last(more), next) <= MonthlyEth(Last(run), first) + total
    ensures Sent(more, from, until) == Sent(run, from, until) + total
    decreases n
  {
    var amount := Min(cap, total);
    assert Times(cap, n) == cap + Times(cap, n - 1);
    if n == 1 {
      assert Times(cap, 0) == 0 && Times(gap, 0) == 0 && amount == total;
      more := MaySpend(run, first, amount, cap, from, until, next);
    } else {
      assert Times(gap, n - 1) == gap + Times(gap, n - 2);
      var second := first + gap;
      var one := MaySpend(run, first, amount, cap, from, until, second);
      more := SpendsInTurn(one, second, gap, cap, total - amount, n - 1, from, until, next);
      assert Sent(more, from, until) == Sent(one, from, until) + (total - amount);
    }
  }

  // ---------------------------------------------------------------- the bounds are reached

  /** No day sends more than twice the smaller limit. */
  lemma DayBound(run: Run, from: nat)
    requires run.Valid()
    ensures EthBetween(run.log, |run.events|, from, from + DAILY_WINDOW)
         <= 2 * Min(run.cfg.dailyEthLimit, run.cfg.monthlyEthLimit)
  {
    IntervalBound(Daily, run, from, from + DAILY_WINDOW);
    IntervalBound(Monthly, run, from, from + DAILY_WINDOW);
  }

  /** That is the best possible bound, whatever the limits and the rate: both windows are made to end together, and the
      smaller limit is spent just before and just after. Unless it is large, two seconds are enough. */
  lemma TwiceTheLimitIsReached(cfg: Config) returns (run: Run, from: nat)
    requires UsdValueFits(cfg, Min(cfg.dailyEthLimit, cfg.monthlyEthLimit), 0)
    ensures run.Valid() && run.cfg == cfg
    ensures var limit := Min(cfg.dailyEthLimit, cfg.monthlyEthLimit);
            Sent(run, from, from + Lead(cfg, limit) + 1) == 2 * limit
  {
    var limit := Min(cfg.dailyEthLimit, cfg.monthlyEthLimit);
    var end := MONTHLY_WINDOW + 1;
    from := end - Lead(cfg, limit);
    var start := Start(cfg, 1);
    var looked := Looks(start, end - DAILY_WINDOW);
    SentMore(start, looked.events[0], Last(looked), 0, looked, from, end + 1);
    var before := MaySpend(looked, from, limit, limit, from, end + 1, end);
    run := MaySpend(before, end, limit, limit, from, end + 1, end + COOLDOWN_PERIOD);
  }

  /** One limit for each window begun is the best possible bound, at every length: spending all of the limit at
      deployment and each time a window ends sends exactly the allowance, as long as the other limit has room. */
  lemma AllowanceIsReached(which: Which, cfg: Config, start: uint256, t: nat) returns (run: Run)
    requires 0 < start <= t && (t - start) % Length(which) == 0 && t + MONTHLY_WINDOW < TWO_256
    requires 0 < Limit(which, cfg) && UsdValueFits(cfg, Limit(which, cfg), 0)
    requires if which == Daily then Allowance(start, t, DAILY_WINDOW, cfg.dailyEthLimit) <= cfg.monthlyEthLimit
             else cfg.monthlyEthLimit <= cfg.dailyEthLimit
    ensures run.Valid() && run.cfg == cfg && run.deployedAt == start && NotBefore(run, t)
    ensures Sent(run, 0, t + 1) == Allowance(start, t, Length(which), Limit(which, cfg))
  {
    var limit := Limit(which, cfg);
    var k := AllowanceAt(start, t, Length(which), limit);
    run := SpendsInTurn(
      Start(cfg, start), start, Length(which), limit, Times(limit, k + 1), k + 1, 0, t + 1, t + COOLDOWN_PERIOD);
  }

  lemma AllowanceAt(start: nat, t: nat, length: nat, limit: nat) returns (k: nat)
    requires length > 0 && start <= t && (t - start) % length == 0
    ensures start + Times(length, k) == t && Times(limit, k + 1) == Allowance(start, t, length, limit)
  {
    k := (t - start) / length;
    TimesIsProduct(length, k);
    TimesIsProduct(limit, k + 1);
  }

  /** The most any month sends. */
  function MonthMost(cfg: Config): nat {
    Min(2 * cfg.monthlyEthLimit, 31 * cfg.dailyEthLimit)
  }

  /** No month sends more than two monthly and thirty-one daily limits. */
  lemma MonthBound(run: Run, from: nat)
    requires run.Valid()
    ensures EthBetween(run.log, |run.events|, from, from + MONTHLY_WINDOW) <= MonthMost(run.cfg)
  {
    IntervalBound(Daily, run, from, from + MONTHLY_WINDOW);
    IntervalBound(Monthly, run, from, from + MONTHLY_WINDOW);
  }

  /** How the most a month can send is paid: half before the monthly window ends and half after. Each half takes fifteen
      days of up to `cap`; what is left of the halves shares the day in the middle. */
  datatype Plan = Plan(
    cap: nat, lead: nat, end: nat, first: nat, early: nat, middle: nat, middleAfter: nat, late: nat) {

    predicate Valid(cfg: Config) {
      && cap == Min(cfg.dailyEthLimit, cfg.monthlyEthLimit) && 0 < cap && UsdValueFits(cfg, cap, 0)
      && lead == Lead(cfg, cap) && end == MONTHLY_WINDOW + 1
      && first <= cap && early <= 14 * cap && late <= 15 * cap && middle <= cap && middleAfter <= cap
      && middle + middleAfter <= cfg.dailyEthLimit
      && first + early + middle <= cfg.monthlyEthLimit && middleAfter + late <= cfg.monthlyEthLimit
    }

    /** The first payment, just before the end of the first of thirty-one daily windows. */
    function From(): int {
      end - 14 * DAILY_WINDOW - 2 * lead
    }
  }

  function PlanOf(cfg: Config): (plan: Plan)
    requires var cap := Min(cfg.dailyEthLimit, cfg.monthlyEthLimit); 0 < cap && UsdValueFits(cfg, cap, 0)
    ensures plan.Valid(cfg)
    ensures plan.first + plan.early + plan.middle + plan.middleAfter + plan.late == MonthMost(cfg)
  {
    var cap := Min(cfg.dailyEthLimit, cfg.monthlyEthLimit);
    var before := MonthMost(cfg) / 2;
    var after := MonthMost(cfg) - before;
    var first, late := Min(cap, before), Min(15 * cap, after);
    var early := Min(14 * cap, before - first);
    Plan(cap, Lead(cfg, cap), MONTHLY_WINDOW + 1, first, early, before - first - early, after - late, late)
  }

  lemma FirstDay(cfg: Config, plan: Plan) returns (run: Run)
    requires plan.Valid(cfg)
    ensures run.Valid() && Quiet(run) && run.cfg == cfg && NotBefore(run, plan.From())
    ensures Unblocked(Last(run), plan.From() + plan.lead)
    ensures Last(run).lastMonthlyReset == 1 && Last(run).monthlyEthSpent == plan.first
    ensures Last(run).lastDailyReset == plan.From() + plan.lead - DAILY_WINDOW
    ensures Sent(run, plan.From(), plan.From() + MONTHLY_WINDOW) == plan.first
  {
    var from, until := plan.From(), plan.From() + MONTHLY_WINDOW;
    var start := Start(cfg, 1);
    var looked := Looks(start, from + plan.lead - DAILY_WINDOW);
    SentMore(start, looked.events[0], Last(looked), 0, looked, from, until);
    run := MaySpend(looked, from, plan.first, plan.cap, from, until, from + plan.lead);
  }

  lemma FirstHalf(cfg: Config, plan: Plan) returns (run: Run)
    requires plan.Valid(cfg)
    ensures run.Valid() && Quiet(run) && run.cfg == cfg && NotBefore(run, plan.end - plan.lead)
    ensures Unblocked(Last(run), plan.end)
    ensures Last(run).lastMonthlyReset == 1
    ensures Last(run).lastDailyReset <= plan.end - plan.lead
    ensures DailyEth(Last(run), plan.end) <= plan.middle
    ensures Sent(run, plan.From(), plan.From() + MONTHLY_WINDOW) == plan.first + plan.early + plan.middle
  {
    var from, until := plan.From(), plan.From() + MONTHLY_WINDOW;
    var day := FirstDay(cfg, plan);
    TimesIsProduct(DAILY_WINDOW, 13);
    TimesIsProduct(plan.cap, 14);
    var early := SpendsInTurn(
      day, from + plan.lead, DAILY_WINDOW, plan.cap, plan.early, 14, from, until, plan.end - plan.lead);
    run := MaySpend(early, plan.end - plan.lead, plan.middle, plan.cap, from, until, plan.end);
  }

  lemma SecondHalf(cfg: Config, plan: Plan, half: Run) returns (run: Run)
    requires plan.Valid(cfg)
    requires half.Valid() && Quiet(half) && half.cfg == cfg && NotBefore(half, plan.end - plan.lead)
    requires Unblocked(Last(half), plan.end)
    requires Last(half).lastMonthlyReset == 1
    requires Last(half).lastDailyReset <= plan.end - plan.lead
    requires DailyEth(Last(half), plan.end) <= plan.middle
    ensures run.Valid() && run.cfg == cfg
    ensures Sent(run, plan.From(), plan.From() + MONTHLY_WINDOW)
         == Sent(half, plan.From(), plan.From() + MONTHLY_WINDOW) + plan.middleAfter + plan.late
  {
    var from, until, after := plan.From(), plan.From() + MONTHLY_WINDOW, plan.end + DAILY_WINDOW;
    var middle := MaySpend(half, plan.end, plan.middleAfter, plan.cap, from, until, after);
    TimesIsProduct(DAILY_WINDOW, 14);
    TimesIsProduct(plan.cap, 15);
    run := SpendsInTurn(middle, after, DAILY_WINDOW, plan.cap, plan.late, 15, from, until, 3 * MONTHLY_WINDOW);
  }

  /** And some month sends exactly that, whatever the limits and the rate. */
  lemma MonthMostIsReached(cfg: Config) returns (run: Run, from: nat)
    requires UsdValueFits(cfg, Min(cfg.dailyEthLimit, cfg.monthlyEthLimit), 0)
    ensures run.Valid() && run.cfg == cfg && Sent(run, from, from + MONTHLY_WINDOW) == MonthMost(cfg)
  {
    if Min(cfg.dailyEthLimit, cfg.monthlyEthLimit) == 0 {
      run, from := Start(cfg, 1), 0;
    } else {
      var plan := PlanOf(cfg);
      var half := FirstHalf(cfg, plan);
      run := SecondHalf(cfg, plan, half);
      from := plan.From();
    }
  }

  // ---------------------------------------------------------------- what stale counters do

  /** Counters over-count, whatever the limits and the rate. Here all the ETH was sent a month ago; a payment of nothing
      has moved both anchors since and left both counters at the smaller limit, so that no ETH can be sent for another
      day. */
  lemma OverCounted(cfg: Config) returns (run: Run)
    requires var limit := Min(cfg.dailyEthLimit, cfg.monthlyEthLimit); 0 < limit && UsdValueFits(cfg, limit, 0)
    ensures run.Valid() && run.cfg == cfg && |run.events| == 2
    ensures forall which ::
              var w := WindowOf(which, run.states[2]);
              && w == Window(1 + MONTHLY_WINDOW, Min(cfg.dailyEthLimit, cfg.monthlyEthLimit))
              && forall until :: EthBetween(run.log, 2, w.anchor, until) == 0
    ensures forall now: uint256, eth: nat :: now < 1 + MONTHLY_WINDOW + DAILY_WINDOW && eth > 0 ==>
              !Accepts(cfg, run.states[2], now, eth, 0)
  {
    var spent := Spends(Start(cfg, 1), 1, Min(cfg.dailyEthLimit, cfg.monthlyEthLimit));
    run := Looks(spent, 1 + MONTHLY_WINDOW);
    var anchor := 1 + MONTHLY_WINDOW;
    forall until
      ensures EthBetween(run.log, 2, anchor, until) == 0
    {
      assert EthBetween(run.log, 1, anchor, until) == 0;
    }
  }

  // ---------------------------------------------------------------- where the order of calls matters

  lemma TwoRecords(cfg: Config, st: State, now: uint256, a: Call, b: Call)
    requires ParseSpendAmounts(cfg.reader, a).Ok? && ParseSpendAmounts(cfg.reader, b).Ok?
    ensures var first := RecordStep(cfg, st, now, a.value, UsdcMoved(a));
            ExecuteEach(cfg, st, now, [a, b]) ==
              if first.Ok? then RecordStep(cfg, first.value, now, b.value, UsdcMoved(b)) else first
  {
    var x, y := Amounts(a.value, UsdcMoved(a)), Amounts(b.value, UsdcMoved(b));
    EachCallRecords(cfg, st, now, [a, b]);
    assert AmountsOf([a, b]) == [x, y];
    assert [x, y][..1] == [x] && [x][..0] == [];
    assert RecordEach(cfg, st, now, []) == Ok(st);
    assert RecordEach(cfg, st, now, [x]) == RecordStep(cfg, st, now, x.eth, x.usdc);
  }

  lemma TwoAtOnce(cfg: Config, st: State, now: uint256, a: Call, b: Call)
    requires ParseSpendAmounts(cfg.reader, a).Ok? && ParseSpendAmounts(cfg.reader, b).Ok?
    ensures ExecuteAll(cfg, st, now, [a, b]).Ok? <==>
              Passes(cfg, st, now, a.value + b.value, UsdcMoved(a) + UsdcMoved(b))
  {
    var sent := AllCalled([a, b]);
    assert EthCalled(sent) == a.value + b.value && UsdcCalled(sent) == UsdcMoved(a) + UsdcMoved(b) by {
      SentLast([a, b]);
      assert [a, b][..1] == [a];
      OneSent(a);
    }
    AllRecords(cfg, st, now, [a, b]);
    RecordMeaning(cfg, st, now, EthCalled(sent), UsdcCalled(sent));
  }

  /** The cooldown alone makes the order matter, in every state and under either reader: of a large and a small payment
      that a batch may make together, `execute` makes the small one and then the large one, but not the small one after
      the large. */
  lemma OrderMattersToCooldown(cfg: Config, st: State, now: uint256, big: Call, small: Call)
    requires 0 < now && now + COOLDOWN_PERIOD < TWO_256
    requires big.target != USDC && small.target != USDC && 0 < small.value
    requires IsLarge(cfg, big.value, 0) && !IsLarge(cfg, small.value, 0) && 0 < big.value
    requires ExecuteAll(cfg, st, now, [big, small]).Ok?
    ensures Agree(ExecuteEach(cfg, st, now, [small, big]), ExecuteAll(cfg, st, now, [big, small]))
    ensures ExecuteEach(cfg, st, now, [big, small]) == Revert(LargeSpendCooldownActive)
  {
    TwoAtOnce(cfg, st, now, big, small);
    SmallFirst(cfg, st, now, big, small);
    BigFirst(cfg, st, now, big, small);
  }

  lemma BigFirst(cfg: Config, st: State, now: uint256, big: Call, small: Call)
    requires 0 < now && now + COOLDOWN_PERIOD < TWO_256
    requires 0 < small.value && 0 < big.value && big.target != USDC && small.target != USDC
    requires IsLarge(cfg, big.value, 0) && Passes(cfg, st, now, big.value + small.value, 0)
    ensures ExecuteEach(cfg, st, now, [big, small]) == Revert(LargeSpendCooldownActive)
  {
    ValueGrows(cfg, big.value, 0, big.value + small.value, 0);
    TwoRecords(cfg, st, now, big, small);
    RecordMeaning(cfg, st, now, big.value, 0);
    var first := RecordStep(cfg, st, now, big.value, 0);
    assert first.Ok? && first.value.lastLargeSpendTime == now;
  }

  lemma SmallFirst(cfg: Config, st: State, now: uint256, big: Call, small: Call)
    requires 0 < now && 0 < small.value && 0 < big.value && big.target != USDC && small.target != USDC
    requires IsLarge(cfg, big.value, 0) && !IsLarge(cfg, small.value, 0)
    requires Passes(cfg, st, now, big.value + small.value, 0)
    ensures Agree(ExecuteEach(cfg, st, now, [small, big]), ExecuteAll(cfg, st, now, [big, small]))
  {
    var amounts := AmountsOf([small, big]);
    assert amounts == [Amounts(small.value, 0), Amounts(big.value, 0)];
    assert SumOf(amounts) == (big.value + small.value, 0) by {
      assert amounts[..1] == [amounts[0]] && amounts[..1][..0] == [];
      assert SumOf([amounts[0]]) == (small.value, 0);
    }
    assert SameAsBatch(cfg, st, now, amounts);
    assert multiset([big, small]) == multiset([small, big]);
    ExecutionIsCallByCall(cfg, st, now, [big, small], [small, big]);
  }

  /** Such payments exist, on an account as it is deployed. */
  lemma BigAndSmall(reader: SelectorReader) returns (run: Run, big: Call, small: Call)
    ensures run.Valid() && run.cfg.reader == reader && run.events == []
    ensures big.target != USDC && small.target != USDC && 0 < small.value && 0 < big.value
    ensures IsLarge(run.cfg, big.value, 0) && !IsLarge(run.cfg, small.value, 0)
    ensures ExecuteAll(run.cfg, Last(run), run.deployedAt, [big, small]).Ok?
  {
    var cfg := Config(1, 2, 3, WAD, 100, 100, 10, 10, reader);
    run, big, small := Start(cfg, 1), Call(1, 6, []), Call(1, 1, []);
    WeiIsUnit(cfg, 6);
    WeiIsUnit(cfg, 1);
    WeiIsUnit(cfg, 7);
    TwoAtOnce(cfg, Last(run), 1, big, small);
  }

  lemma WeiIsUnit(cfg: Config, eth: nat)
    requires cfg.usdcPerEth == WAD
    ensures UsdValue(cfg, eth, 0) == eth && Times(eth, cfg.usdcPerEth) == eth * WAD
  {
    TimesIsProduct(eth, WAD);
  }

  /** The payload of a USDC transfer. */
  function TransferData(to: Address, amount: uint256): (data: seq<Byte>)
    ensures |data| == 68
  {
    BytesOfWord();
    assert Pow(256, 4) == 0x1_0000_0000;
    ToBytes(TRANSFER_SELECTOR, 4) + ToBytes(to, 32) + ToBytes(amount, 32)
  }

  /** As intended, every transfer is accepted and recorded at its amount. */
  lemma TransferIsParsed(to: Address, amount: uint256)
    ensures ParseSpendAmounts(Intended, Call(USDC, 0, TransferData(to, amount))) == Ok(Amounts(0, amount))
  {
    BytesOfWord();
    assert Pow(256, 4) == 0x1_0000_0000;
    ThreeParts(ToBytes(TRANSFER_SELECTOR, 4), ToBytes(to, 32), ToBytes(amount, 32));
  }

  lemma ThreeParts(a: seq<Byte>, b: seq<Byte>, c: seq<Byte>)
    ensures var whole := a + b + c;
            && whole[..|a|] == a
            && whole[|a|..|a| + |b|] == b
            && whole[|a| + |b|..|a| + |b| + |c|] == c
  {
  }

  /** Once a window is over the limits alone can make it matter, but only as the selector is intended to be read: here
      the batch is accepted, and so are its calls with ETH first, while USDC first keeps the stale ETH counter. */
  lemma OrderMattersAfterExpiry(limit: uint256, monthly: uint256)
    returns (run: Run, now: uint256, eth: Call, usdc: Call)
    requires 0 < limit && 2 * limit <= monthly
    ensures run.Valid() && run.cfg.reader == Intended && NotBefore(run, now)
    ensures var cfg, st := run.cfg, Last(run);
            && ExecuteAll(cfg, st, now, [usdc, eth]).Ok?
            && ExecuteEach(cfg, st, now, [eth, usdc]).Ok?
            && ExecuteEach(cfg, st, now, [usdc, eth]) == Revert(DailyLimitExceeded)
  {
    var cfg := Config(1, 2, 3, 0, limit, monthly, 2, 2, Intended);
    NoRate(cfg, limit, 0);
    run := Spends(Start(cfg, 1), 1, limit);
    now := 1 + DAILY_WINDOW;
    eth, usdc := Call(1, limit, []), Call(USDC, 0, TransferData(1, 1));
    TransferIsParsed(1, 1);
    InEitherOrder(cfg, Last(run), now, eth, usdc);
  }

  /** At rate zero only USDC counts as value. */
  lemma NoRate(cfg: Config, eth: nat, usdc: nat)
    requires cfg.usdcPerEth == 0
    ensures UsdValue(cfg, eth, usdc) == usdc && Times(eth, cfg.usdcPerEth) == 0
  {
  }

  lemma InEitherOrder(cfg: Config, st: State, now: uint256, eth: Call, usdc: Call)
    requires cfg == Config(1, 2, 3, 0, cfg.dailyEthLimit, cfg.monthlyEthLimit, 2, 2, Intended)
    requires ParseSpendAmounts(Intended, eth) == Ok(Amounts(eth.value, 0))
    requires ParseSpendAmounts(Intended, usdc) == Ok(Amounts(0, 1))
    requires st == Deployed(1).(dailyEthSpent := eth.value, monthlyEthSpent := eth.value)
    requires now == 1 + DAILY_WINDOW
    requires 0 < eth.value == cfg.dailyEthLimit && 2 * eth.value <= cfg.monthlyEthLimit
    ensures ExecuteAll(cfg, st, now, [usdc, eth]).Ok?
    ensures ExecuteEach(cfg, st, now, [eth, usdc]).Ok?
    ensures ExecuteEach(cfg, st, now, [usdc, eth]) == Revert(DailyLimitExceeded)
  {
    TwoAtOnce(cfg, st, now, usdc, eth);
    TwoRecords(cfg, st, now, usdc, eth);
    TwoRecords(cfg, st, now, eth, usdc);
    NoRate(cfg, eth.value, 0);
    NoRate(cfg, eth.value, 1);
    NoRate(cfg, 0, 1);
    RecordMeaning(cfg, st, now, 0, 1);
    RecordMeaning(cfg, st, now, eth.value, 0);
    RecordMeaning(cfg, Spent(cfg, st, now, eth.value, 0), now, 0, 1);
  }
}
