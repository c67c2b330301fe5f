/** Histories of the account object are runs: whatever is called on an account, in whatever order, its storage and the
    value it has sent out are those of a valid run. */
module History {
  import opened Evm
  import opened AccountSpec
  import opened Batch
  import opened Runs
  import opened Safeguards
  import opened SpendingAccount
  import opened WindowBounds

  /** The effects of the first `n` calls of a run. */
  function Effects(run: Run, n: nat): seq<Effect>
    requires run.Aligned() && n <= |run.events|
  {
    if n == 0 then [] else
    var step := Step(run.cfg, run.states[n - 1], run.events[n - 1]);
    Effects(run, n - 1) + if step.Ok? then step.value.effects else []
  }

  lemma {:induction false} SameEffectsAfter(run: Run, more: Run, n: nat)
    requires run.Aligned() && more.Aligned() && n <= |run.events| <= |more.events| && more.cfg == run.cfg
    requires run.events == more.events[..|run.events|] && run.states == more.states[..|run.states|]
    ensures Effects(more, n) == Effects(run, n)
  {
    if n > 0 {
      SameEffectsAfter(run, more, n - 1);
      assert run.states[n - 1] == more.states[n - 1] && run.events[n - 1] == more.events[n - 1];
    }
  }

  /** The log of a run counts exactly the value in its effects. */
  lemma {:induction false} LogCountsEffects(run: Run, n: nat, until: nat)
    requires run.Valid() && n <= |run.events| && (n > 0 ==> run.log[n - 1].now < until)
    ensures EthBetween(run.log, n, 0, until) == EthCalled(Effects(run, n))
    ensures UsdcTotal(run.log, n) == UsdcCalled(Effects(run, n))
  {
    if n > 0 {
      LogCountsEffects(run, n - 1, until);
      assert run.Happens(n - 1);
      var step := Step(run.cfg, run.states[n - 1], run.events[n - 1]);
      SumsConcat(Effects(run, n - 1), if step.Ok? then step.value.effects else []);
    }
  }

  /** One more call adds its effects. */
  lemma GoesOn(run: Run, ev: Event)
    requires run.Valid() && run.deployedAt <= ev.now && (run.log != [] ==> run.log[|run.log| - 1].now <= ev.now)
    ensures var n, more, step := |run.events|, Next(run, ev), Step(run.cfg, run.states[|run.events|], ev);
            && more.Valid()
            && Effects(more, n + 1) == Effects(run, n) + (if step.Ok? then step.value.effects else [])
  {
    RunsGoOn(run, ev);
    SameEffectsAfter(run, Next(run, ev), |run.events|);
  }

  /** Times in order, from deployment on. */
  ghost predicate Chronological(deployedAt: nat, events: seq<Event>) {
    && (forall i :: 0 <= i < |events| ==> deployedAt <= events[i].now)
    && (forall i, j :: 0 <= i <= j < |events| ==> events[i].now <= events[j].now)
  }

  /** What the account has sent out stays within every limit. */
  lemma EffectsWithinLimits(run: Run, which: Which)
    requires run.Valid() && run.events != []
    ensures var n, effects := |run.events|, Effects(run, |run.events|);
            && EthCalled(effects)
               <= Allowance(run.deployedAt, run.log[n - 1].now, Length(which), Limit(which, run.cfg))
            && UsdcCalled(effects) <= run.cfg.dailyUsdcLimit && UsdcCalled(effects) <= run.cfg.monthlyUsdcLimit
  {
    var n, t := |run.events|, run.log[|run.events| - 1].now;
    LogCountsEffects(run, n, t + 1);
    LongHorizonBound(which, run, n, t);
    LifetimeUsdcBound(run, n);
  }

  /** Deploys an account and makes the given calls. */
  method Play(cfg: Config, deployedAt: uint256, events: seq<Event>)
    returns (account: SpendingAccount, ghost run: Run)
    requires 0 < deployedAt && Chronological(deployedAt, events)
    ensures fresh(account) && account.cfg == cfg
    ensures run.Valid() && run.cfg == cfg && run.deployedAt == deployedAt && run.events == events
    ensures account.Storage() == run.states[|events|] && account.journal == Effects(run, |events|)
    ensures UsdcCalled(account.journal) <= cfg.dailyUsdcLimit && UsdcCalled(account.journal) <= cfg.monthlyUsdcLimit
    ensures events != [] ==> forall which ::
              EthCalled(account.journal)
              <= Allowance(deployedAt, events[|events| - 1].now, Length(which), Limit(which, cfg))
  {
    account := new SpendingAccount(cfg, deployedAt);
    run := Start(cfg, deployedAt);
    for i := 0 to |events|
      invariant fresh(account) && account.cfg == cfg
      invariant run.Valid() && run.cfg == cfg && run.deployedAt == deployedAt && run.events == events[..i]
      invariant account.Storage() == run.states[i] && account.journal == Effects(run, i)
    {
      account.Perform(events[i]);
      ghost var longer := Next(run, events[i]);
      assert run.log != [] ==> run.log[i - 1].now == events[i - 1].now by {
        assert run.log != [] ==> run.Happens(i - 1);
      }
      GoesOn(run, events[i]);
      run := longer;
    }
    if events != [] {
      assert run.Happens(|events| - 1);
      EffectsWithinLimits(run, Daily);
      EffectsWithinLimits(run, Monthly);
    }
  }
}
