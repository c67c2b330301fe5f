/** Whole runs of an account: any external calls, by anyone, at non-decreasing times. */
module Runs {
  import opened Evm
  import opened AccountSpec
  import opened Batch

  /** What one call of a run did: when it came, whether it succeeded, the ETH it sent through `execute` or
      `executeBatch`, and the USDC it moved through them or as payment for gas. */
  datatype Entry = Entry(now: nat, accepted: bool, eth: nat, usdc: nat)

  /** ETH sent by the first `n` entries at times in `[from, until)`. */
  function EthBetween(log: seq<Entry>, n: nat, from: nat, until: nat): nat
    requires n <= |log|
  {
    if n == 0 then 0 else
    EthBetween(log, n - 1, from, until) + if from <= log[n - 1].now < until then log[n - 1].eth else 0
  }

  function UsdcTotal(log: seq<Entry>, n: nat): nat
    requires n <= |log|
  {
    if n == 0 then 0 else UsdcTotal(log, n - 1) + log[n - 1].usdc
  }

  /** Time never runs backwards. */
  ghost predicate Ordered(start: nat, log: seq<Entry>) {
    && (forall i :: 0 <= i < |log| ==> start <= log[i].now)
    && (forall i, j :: 0 <= i <= j < |log| ==> log[i].now <= log[j].now)
  }

  /** A run: the calls, the storage before each and after the last, and the log of what they did. */
  datatype Run = Run(cfg: Config, deployedAt: uint256, events: seq<Event>, states: seq<State>, log: seq<Entry>) {

    predicate Aligned() {
      |events| == |log| && |events| + 1 == |states|
    }

    /** Time is positive and in order, storage starts as deployed, and every call happens as the account says. */
    ghost predicate Valid() {
      && 0 < deployedAt
      && Aligned()
      && states[0] == Deployed(deployedAt)
      && Ordered(deployedAt, log)
      && forall i: nat {:trigger Happens(i)} :: i < |events| ==> Happens(i)
    }

    /** Call `i` has its outcome, or reverts and changes nothing. */
    predicate Happens(i: nat)
      requires Aligned() && i < |events|
    {
      Follows(Step(cfg, states[i], events[i]), states[i], events[i].now, states[i + 1], log[i])
    }
  }

  predicate Follows(step: Result<Outcome>, before: State, now: nat, after: State, entry: Entry) {
    if step.Ok? then
      && after == step.value.state
      && entry == Entry(now, true, EthCalled(step.value.effects), UsdcCalled(step.value.effects))
    else
      after == before && entry == Entry(now, false, 0, 0)
  }

  /** The run in which nothing has been called yet. */
  function Start(cfg: Config, deployedAt: uint256): (run: Run)
    ensures deployedAt > 0 ==> run.Valid()
  {
    Run(cfg, deployedAt, [], [Deployed(deployedAt)], [])
  }

  /** A run with one more call. */
  function Next(run: Run, ev: Event): Run
    requires |run.states| > 0
  {
    var before := run.states[|run.states| - 1];
    var step := Step(run.cfg, before, ev);
    var (after, entry) :=
      if step.Ok?
      then (step.value.state, Entry(ev.now, true, EthCalled(step.value.effects), UsdcCalled(step.value.effects)))
      else (before, Entry(ev.now, false, 0, 0));
    Run(run.cfg, run.deployedAt, run.events + [ev], run.states + [after], run.log + [entry])
  }

  /** Whatever is called next, at whatever later time, every run goes on, in only one way. */
  lemma RunsGoOn(run: Run, ev: Event)
    requires run.Valid()
    requires run.deployedAt <= ev.now && (run.log != [] ==> run.log[|run.log| - 1].now <= ev.now)
    ensures Next(run, ev).Valid()
    ensures forall next: Run :: next.Valid() && next.cfg == run.cfg && next.deployedAt == run.deployedAt
              && next.events == run.events + [ev] && next.states[..|run.states|] == run.states
              && next.log[..|run.log|] == run.log
              ==> next == Next(run, ev)
  {
    var n := |run.events|;
    var more := Next(run, ev);
    forall i: nat | i < n + 1
      ensures more.Happens(i)
    {
      if i < n {
        assert run.Happens(i);
        assert more.states[i] == run.states[i] && more.states[i + 1] == run.states[i + 1];
      }
    }
    forall next: Run | next.Valid() && next.cfg == run.cfg && next.deployedAt == run.deployedAt
                       && next.events == run.events + [ev] && next.states[..n + 1] == run.states
                       && next.log[..n] == run.log
      ensures next == more
    {
      assert next.Happens(n);
      assert next.states[n] == next.states[..n + 1][n];
      assert next.states == next.states[..n + 1] + [next.states[n + 1]];
      assert next.log == next.log[..n] + [next.log[n]];
    }
  }
}
