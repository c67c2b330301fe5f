/** What the ETH limits mean over real time. */
module WindowBounds {
  import opened Evm
  import opened LimitPolicy
  import opened AccountSpec
  import opened Batch
  import opened Runs

  datatype Window = Window(anchor: nat, spent: nat)

  /** How one call that sends `eth` at `now` may move a window: not at all; within the live window; or to a new
      anchor, which starts the counter afresh only when ETH is sent and otherwise leaves it stale. */
  predicate Moves(before: Window, after: Window, length: nat, limit: nat, now: nat, eth: nat) {
    && (eth > 0 ==> after.spent <= limit)
    && (|| (after == before && eth == 0)
        || (now < before.anchor + length && after == Window(before.anchor, before.spent + eth))
        || (now >= before.anchor + length && after == Window(now, if eth == 0 then before.spent else eth)))
  }

  /** One limit for each window begun from `start` up to `t`. */
  function Allowance(start: nat, t: nat, length: nat, limit: nat): nat
    requires start <= t && length > 0
  {
    (1 + (t - start) / length) * limit
  }

  /** The history of one window beside the log of a run. */
  datatype Track = Track(start: nat, length: nat, limit: nat, log: seq<Entry>, windows: seq<Window>) {

    ghost predicate Valid() {
      && length > 0
      && Ordered(start, log)
      && |windows| == |log| + 1
      && windows[0] == Window(start, 0)
      && (forall i :: 0 <= i < |log| ==> Moves(windows[i], windows[i + 1], length, limit, log[i].now, log[i].eth))
    }

    /** The counter never exceeds its limit and the anchor never lies in the future. */
    lemma {:induction false} WithinLimit(n: nat)
      requires Valid() && n <= |log|
      ensures windows[n].spent <= limit
      ensures start <= windows[n].anchor <= if n == 0 then start else log[n - 1].now
    {
      if n > 0 {
        WithinLimit(n - 1);
      }
    }

    /** One limit for each whole window that fits between `from` and `t`. */
    function Renewed(from: nat, t: nat): nat
      requires length > 0
    {
      if t < from + length then 0 else limit + Renewed(from, t - length)
    }

    lemma {:induction false} RenewedGrows(from: nat, a: nat, b: nat)
      requires length > 0 && from <= a <= b
      ensures Renewed(from, a) <= Renewed(from, b)
      ensures a + length <= b ==> Renewed(from, a) + limit <= Renewed(from, b)
    {
      if from + length <= a {
        RenewedGrows(from, a - length, b - length);
      }
      if a + length <= b {
        RenewedGrows(from, a, b - length);
      }
    }

    lemma {:induction false} RenewedMeaning(from: nat, t: nat)
      requires length > 0 && from <= t
      ensures Renewed(from, t) == (t - from) / length * limit
    {
      if from + length <= t {
        RenewedMeaning(from, t - length);
        OneLess(t - from, length);
        assert ((t - from) / length - 1) * limit == (t - from) / length * limit - limit;
      }
    }

    /** Without a reset since `from` the counter covers what was sent since then; after one it covers all but a limit
        for the window that was live at `from` and one for each window over since. */
    lemma {:induction false} SentSince(n: nat, from: nat, until: nat)
      requires Valid() && n <= |log|
      ensures var sent, w := EthBetween(log, n, from, until), windows[n];
              && (w.anchor < from ==> sent <= w.spent)
              && (w.anchor >= from ==> sent <= limit + Renewed(from, w.anchor) + w.spent)
      ensures n == 0 || log[n - 1].now < from ==> EthBetween(log, n, from, until) == 0
    {
      if n > 0 {
        SentSince(n - 1, from, until);
        WithinLimit(n - 1);
        var before, after := windows[n - 1].anchor, windows[n].anchor;
        if from <= before && before + length <= after {
          RenewedGrows(from, before, after);
        }
      }
    }

    lemma {:induction false} Interval(n: nat, from: nat, until: nat)
      requires Valid() && n <= |log| && from < until
      ensures EthBetween(log, n, from, until) <= limit + Renewed(from, until - 1) + limit
    {
      if n > 0 {
        if log[n - 1].now < until {
          SentSince(n, from, until);
          WithinLimit(n);
          if from <= windows[n].anchor {
            RenewedGrows(from, windows[n].anchor, until - 1);
          }
        } else {
          Interval(n - 1, from, until);
        }
      }
    }

    lemma {:induction false} SentByWindows(n: nat, from: nat, until: nat)
      requires Valid() && n <= |log|
      ensures start <= windows[n].anchor
      ensures EthBetween(log, n, from, until) <= Renewed(start, windows[n].anchor) + windows[n].spent
    {
      WithinLimit(n);
      if n > 0 {
        SentByWindows(n - 1, from, until);
        WithinLimit(n - 1);
        var before, after := windows[n - 1].anchor, windows[n].anchor;
        if before + length <= after {
          RenewedGrows(start, before, after);
        }
      }
    }

    lemma LongHorizon(n: nat, from: nat, t: nat)
      requires Valid() && n <= |log|
      requires start <= t && (n > 0 ==> log[n - 1].now <= t)
      ensures EthBetween(log, n, from, t + 1) <= limit + Renewed(start, t)
    {
      SentByWindows(n, from, t + 1);
      WithinLimit(n);
      RenewedGrows(start, windows[n].anchor, t);
    }

    /** What the counter holds from an earlier window: a call that sends no ETH moves the anchor and leaves it. */
    function Carried(n: nat): nat
      requires |windows| == |log| + 1 && n <= |log|
    {
      if n == 0 then 0 else
      if windows[n].anchor == windows[n - 1].anchor then Carried(n - 1) else
      if log[n - 1].eth == 0 then windows[n - 1].spent else 0
    }

    /** Nothing was sent once the window was over: that would have moved the anchor. */
    lemma {:induction false} NothingAfterWindow(n: nat, until: nat)
      requires Valid() && n <= |log|
      ensures EthBetween(log, n, windows[n].anchor + length, until) == 0
    {
      if n > 0 {
        NothingAfterWindow(n - 1, until);
        WithinLimit(n - 1);
        var before, after := windows[n - 1].anchor, windows[n].anchor;
        if before < after {
          SentLater(log, n - 1, before + length, after + length, until);
        }
      }
    }

    /** So nothing was sent since a new anchor. */
    lemma NothingSinceReset(n: nat, until: nat)
      requires Valid() && 0 < n <= |log| && windows[n - 1].anchor < windows[n].anchor
      ensures EthBetween(log, n - 1, windows[n].anchor, until) == 0
    {
      WithinLimit(n - 1);
      NothingAfterWindow(n - 1, until);
      SentLater(log, n - 1, windows[n - 1].anchor + length, windows[n].anchor, until);
    }

    /** The counter is what was sent since the anchor and what was carried over. */
    lemma {:induction false} SinceAnchor(n: nat, until: nat)
      requires Valid() && n <= |log|
      ensures Carried(n) + EthBetween(log, n, windows[n].anchor, until) <= windows[n].spent
      ensures n == 0 || log[n - 1].now < until ==>
                Carried(n) + EthBetween(log, n, windows[n].anchor, until) == windows[n].spent
    {
      if n > 0 {
        SinceAnchor(n - 1, until);
        WithinLimit(n - 1);
        if windows[n - 1].anchor < windows[n].anchor {
          NothingSinceReset(n, until);
        }
      }
    }
  }

  lemma OneMore(q: nat, limit: nat)
    ensures (1 + q) * limit == limit + q * limit
    ensures (2 + q) * limit == limit + q * limit + limit
  {
  }

  lemma OneLess(a: nat, d: nat)
    requires 0 < d <= a
    ensures a / d == (a - d) / d + 1
  {
    var q := (a - d) / d;
    assert a == (q + 1) * d + (a - d) % d;
    DivModUnique(q + 1, (a - d) % d, d);
  }

  lemma {:induction false} SentLater(log: seq<Entry>, n: nat, from: nat, later: nat, until: nat)
    requires n <= |log| && from <= later
    ensures EthBetween(log, n, later, until) <= EthBetween(log, n, from, until)
  {
    if n > 0 {
      SentLater(log, n - 1, from, later, until);
    }
  }

  // ---------------------------------------------------------------- the account's two windows

  datatype Which = Daily | Monthly

  function Length(which: Which): nat {
    if which == Daily then 86400 else 2592000
  }

  function Limit(which: Which, cfg: Config): nat {
    if which == Daily then cfg.dailyEthLimit else cfg.monthlyEthLimit
  }

  function WindowOf(which: Which, st: State): Window {
    if which == Daily then Window(st.lastDailyReset, st.dailyEthSpent)
    else Window(st.lastMonthlyReset, st.monthlyEthSpent)
  }

  lemma {:induction false} NothingCalled(effects: seq<Effect>)
    requires forall e <- effects :: !e.Called?
    ensures EthCalled(effects) == 0
  {
    if effects != [] {
      NothingCalled(effects[..|effects| - 1]);
    }
  }

  /** Every external call moves both windows in one of the three ways, with the ETH it really sends. */
  lemma StepMoves(which: Which, cfg: Config, st: State, ev: Event)
    requires Step(cfg, st, ev).Ok?
    ensures var out := Step(cfg, st, ev).value;
            Moves(WindowOf(which, st), WindowOf(which, out.state), Length(which), Limit(which, cfg),
                  ev.now, EthCalled(out.effects))
  {
    match ev.op
    case Execute(call, callOk) => ExecuteMoves(which, cfg, st, ev.sender, ev.now, [call], if callOk then 1 else 0);
    case ExecuteBatch(calls, n) => ExecuteMoves(which, cfg, st, ev.sender, ev.now, calls, n);
    case _ => OtherMoves(which, cfg, st, ev);
  }

  lemma OtherMoves(which: Which, cfg: Config, st: State, ev: Event)
    requires Step(cfg, st, ev).Ok? && !ev.op.Execute? && !ev.op.ExecuteBatch?
    ensures var out := Step(cfg, st, ev).value;
            Moves(WindowOf(which, st), WindowOf(which, out.state), Length(which), Limit(which, cfg),
                  ev.now, EthCalled(out.effects))
  {
    NothingCalled(Step(cfg, st, ev).value.effects);
  }

  lemma ExecuteMoves(which: Which, cfg: Config, st: State, sender: Address, now: uint256, calls: seq<Call>, n: nat)
    requires ExecuteStep(cfg, st, sender, now, calls, n).Ok?
    ensures var out := ExecuteStep(cfg, st, sender, now, calls, n).value;
            Moves(WindowOf(which, st), WindowOf(which, out.state), Length(which), Limit(which, cfg),
                  now, EthCalled(out.effects))
  {
    RecordedIsSent(cfg.reader, calls);
    var total := TotalAmounts(cfg.reader, calls).value;
    var cooled := CooldownStep(cfg, st, now, total.eth, total.usdc).value;
    SpendMeaning(cfg, cooled, now, total.eth, total.usdc);
  }

  lemma RunMoves(which: Which, run: Run, i: nat)
    requires run.Valid() && i < |run.events|
    ensures Moves(WindowOf(which, run.states[i]), WindowOf(which, run.states[i + 1]),
                  Length(which), Limit(which, run.cfg), run.log[i].now, run.log[i].eth)
  {
    assert run.Happens(i);
    if run.log[i].accepted {
      StepMoves(which, run.cfg, run.states[i], run.events[i]);
    }
  }

  function TrackOf(which: Which, run: Run): (track: Track)
    ensures |track.windows| == |run.states| && track.log == run.log
  {
    Track(run.deployedAt, Length(which), Limit(which, run.cfg), run.log,
          seq(|run.states|, i requires 0 <= i < |run.states| => WindowOf(which, run.states[i])))
  }

  lemma RunIsTrack(which: Which, run: Run)
    requires run.Valid()
    ensures TrackOf(which, run).Valid()
  {
    var track := TrackOf(which, run);
    forall i | 0 <= i < |track.log|
      ensures Moves(track.windows[i], track.windows[i + 1], track.length, track.limit,
                    track.log[i].now, track.log[i].eth)
    {
      RunMoves(which, run, i);
    }
  }

  /** In every run, the ETH sent by `execute` and `executeBatch` during any half-open interval is at most two limits,
      and one more for each window length the interval is longer than. */
  lemma IntervalBound(which: Which, run: Run, from: nat, until: nat)
    requires run.Valid() && from < until
    ensures EthBetween(run.log, |run.events|, from, until)
         <= (2 + (until - 1 - from) / Length(which)) * Limit(which, run.cfg)
  {
    RunIsTrack(which, run);
    var track := TrackOf(which, run);
    track.Interval(|run.events|, from, until);
    track.RenewedMeaning(from, until - 1);
    OneMore((until - 1 - from) / Length(which), track.limit);
  }

  /** So during any half-open interval one window long it is at most twice that window's limit. */
  lemma SlidingWindowBound(which: Which, run: Run, from: nat)
    requires run.Valid()
    ensures EthBetween(run.log, |run.events|, from, from + Length(which)) <= 2 * Limit(which, run.cfg)
  {
    IntervalBound(which, run, from, from + Length(which));
  }

  /** In every run, the ETH sent from deployment up to and including time `t` is at most one limit for each window
      begun by then. */
  lemma LongHorizonBound(which: Which, run: Run, n: nat, t: nat)
    requires run.Valid() && n <= |run.events| && run.deployedAt <= t
    requires n > 0 ==> run.log[n - 1].now <= t
    ensures EthBetween(run.log, n, 0, t + 1)
         <= Allowance(run.deployedAt, t, Length(which), Limit(which, run.cfg))
  {
    RunIsTrack(which, run);
    var track := TrackOf(which, run);
    track.LongHorizon(n, 0, t);
    track.RenewedMeaning(run.deployedAt, t);
    OneMore((t - run.deployedAt) / Length(which), track.limit);
  }

  /** In every reachable state, the ETH sent since the window's anchor is at most the counter, which is at most the
      limit, whatever moved the anchor. */
  lemma SharedAnchor(which: Which, run: Run, n: nat, until: nat)
    requires run.Valid() && n <= |run.events|
    ensures var w := WindowOf(which, run.states[n]);
            EthBetween(run.log, n, w.anchor, until) <= w.spent <= Limit(which, run.cfg)
  {
    RunIsTrack(which, run);
    var track := TrackOf(which, run);
    track.SinceAnchor(n, until);
    track.WithinLimit(n);
  }

  /** By how much the counter over-counts: exactly by what it carries over from a window that ended without being
      looked at by a spend of ETH. So it is exact if and only if it carries nothing. */
  lemma CounterExactly(which: Which, run: Run, n: nat, until: nat)
    requires run.Valid() && n <= |run.events|
    requires n > 0 ==> run.log[n - 1].now < until
    ensures var w, carried := WindowOf(which, run.states[n]), TrackOf(which, run).Carried(n);
            && w.spent == EthBetween(run.log, n, w.anchor, until) + carried
            && (w.spent == EthBetween(run.log, n, w.anchor, until) <==> carried == 0)
  {
    RunIsTrack(which, run);
    TrackOf(which, run).SinceAnchor(n, until);
  }
}
