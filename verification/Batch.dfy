/** What a batch sends, what is recorded for it, and how recording at once compares with recording call by call. */
module Batch {
  import opened Evm
  import opened LimitPolicy
  import opened AccountSpec

  /** ETH handed to outside calls. */
  function EthCalled(effects: seq<Effect>): nat {
    if effects == [] then 0 else
    EthCalled(effects[..|effects| - 1]) + EthOf(effects[|effects| - 1])
  }

  function EthOf(effect: Effect): nat {
    match effect
    case Called(call) => call.value
    case _ => 0
  }

  /** USDC moved by outside calls and gas payments, as the token decodes the calls. */
  function UsdcCalled(effects: seq<Effect>): nat {
    if effects == [] then 0 else
    UsdcCalled(effects[..|effects| - 1]) + UsdcOf(effects[|effects| - 1])
  }

  function UsdcOf(effect: Effect): nat {
    match effect
    case Called(call) => UsdcMoved(call)
    case GasPaid(amount) => amount
    case _ => 0
  }

  predicate Allowed(reader: SelectorReader, calls: seq<Call>) {
    calls == [] || (Allowed(reader, calls[..|calls| - 1]) && ParseSpendAmounts(reader, calls[|calls| - 1]).Ok?)
  }

  lemma {:induction false} AllowedMeaning(reader: SelectorReader, calls: seq<Call>)
    ensures Allowed(reader, calls) <==> forall call <- calls :: ParseSpendAmounts(reader, call).Ok?
  {
    if calls != [] {
      var rest, last := calls[..|calls| - 1], calls[|calls| - 1];
      AllowedMeaning(reader, rest);
      assert calls == rest + [last];
    }
  }

  lemma {:induction false} AllowedIsSent(reader: SelectorReader, calls: seq<Call>)
    ensures var sent := AllCalled(calls);
            var total := TotalAmounts(reader, calls);
            && (total.Ok? ==> total.value.eth == EthCalled(sent) && total.value.usdc == UsdcCalled(sent))
            && (total.Ok? <==> Allowed(reader, calls) && EthCalled(sent) < TWO_256 && UsdcCalled(sent) < TWO_256)
  {
    if calls != [] {
      AllowedIsSent(reader, calls[..|calls| - 1]);
      SentLast(calls);
    }
  }

  /** What the loop before the calls records is what the loop of calls then sends, and recording reverts only
      over a call that is not allowed or a sum that does not fit a word. */
  lemma RecordedIsSent(reader: SelectorReader, calls: seq<Call>)
    ensures var sent := AllCalled(calls);
            var total := TotalAmounts(reader, calls);
            && (total.Ok? ==> total.value.eth == EthCalled(sent) && total.value.usdc == UsdcCalled(sent))
            && (total.Ok? <==>
                && (forall call <- calls :: ParseSpendAmounts(reader, call).Ok?)
                && EthCalled(sent) < TWO_256
                && UsdcCalled(sent) < TWO_256)
  {
    AllowedMeaning(reader, calls);
    AllowedIsSent(reader, calls);
  }

  lemma SentLast(calls: seq<Call>)
    requires calls != []
    ensures var rest, last := AllCalled(calls[..|calls| - 1]), calls[|calls| - 1];
            && EthCalled(AllCalled(calls)) == EthCalled(rest) + last.value
            && UsdcCalled(AllCalled(calls)) == UsdcCalled(rest) + UsdcMoved(last)
  {
    assert AllCalled(calls)[..|calls| - 1] == AllCalled(calls[..|calls| - 1]);
  }

  /** As the contract reads selectors, one call to USDC is enough for the whole of `execute` or `executeBatch` to
      revert, and for a preflight of it. */
  lemma LiteralReaderRejectsUsdc(cfg: Config, st: State, sender: Address, now: uint256, calls: seq<Call>, n: nat)
    requires cfg.reader == Literal && exists call <- calls :: call.target == USDC
    ensures ExecuteStep(cfg, st, sender, now, calls, n).Revert?
    ensures ParseCallData(cfg.reader, BatchCall(calls)).Revert?
  {
    RecordedIsSent(cfg.reader, calls);
  }

  lemma {:induction false} SumsConcat(a: seq<Effect>, b: seq<Effect>)
    ensures EthCalled(a + b) == EthCalled(a) + EthCalled(b)
    ensures UsdcCalled(a + b) == UsdcCalled(a) + UsdcCalled(b)
  {
    if b == [] {
      assert a + b == a;
    } else {
      assert (a + b)[..|a + b| - 1] == a + b[..|b| - 1];
      SumsConcat(a, b[..|b| - 1]);
    }
  }

  /** Where the first element of `p` sits in a permutation of `p`; taking it out of both leaves a permutation. */
  lemma FirstOfPermutation<T>(p: seq<T>, q: seq<T>) returns (k: nat)
    requires p != [] && multiset(p) == multiset(q)
    ensures k < |q| && q[k] == p[0]
    ensures p == [p[0]] + p[1..] && q == q[..k] + [q[k]] + q[k + 1..]
    ensures multiset(p[1..]) == multiset(q[..k] + q[k + 1..])
  {
    assert p[0] in multiset(p);
    k := Occurrence(q, p[0], multiset(p));
    WithoutOne(p, 0);
    WithoutOne(q, k);
    assert p[..0] + p[1..] == p[1..];
  }

  lemma Occurrence<T>(s: seq<T>, x: T, elements: multiset<T>) returns (k: nat)
    requires multiset(s) == elements && x in elements
    ensures k < |s| && s[k] == x
  {
    assert x in s;
    k :| k < |s| && s[k] == x;
  }

  lemma WithoutOne<T>(s: seq<T>, k: nat)
    requires k < |s|
    ensures s == s[..k] + [s[k]] + s[k + 1..]
    ensures multiset(s[..k] + s[k + 1..]) == multiset(s) - multiset{s[k]}
  {
    assert s == s[..k] + [s[k]] + s[k + 1..];
    assert multiset(s) == multiset(s[..k]) + multiset{s[k]} + multiset(s[k + 1..]);
  }

  lemma {:induction false} SameSums(p: seq<Effect>, q: seq<Effect>)
    requires multiset(p) == multiset(q)
    ensures EthCalled(p) == EthCalled(q) && UsdcCalled(p) == UsdcCalled(q)
    decreases |p|
  {
    if p == [] {
      assert |multiset(q)| == |q|;
    } else {
      var k := FirstOfPermutation(p, q);
      SameSums(p[1..], q[..k] + q[k + 1..]);
      SumsConcat([p[0]], p[1..]);
      SumsConcat(q[..k] + [q[k]], q[k + 1..]);
      SumsConcat(q[..k], [q[k]]);
      SumsConcat(q[..k], q[k + 1..]);
    }
  }

  lemma {:induction false} SameEffects(p: seq<Call>, q: seq<Call>)
    requires multiset(p) == multiset(q)
    ensures multiset(AllCalled(p)) == multiset(AllCalled(q))
    decreases |p|
  {
    if p == [] {
      assert |multiset(q)| == |q|;
    } else {
      var k := FirstOfPermutation(p, q);
      var rest := q[..k] + q[k + 1..];
      SameEffects(p[1..], rest);
      assert AllCalled(p) == [Called(p[0])] + AllCalled(p[1..]);
      assert AllCalled(q) == AllCalled(q[..k]) + [Called(q[k])] + AllCalled(q[k + 1..]);
      assert AllCalled(rest) == AllCalled(q[..k]) + AllCalled(q[k + 1..]);
    }
  }

  /** The accounting of a batch does not depend on the order of its calls: any permutation is accepted or rejected
      alike and recorded at the same amounts. */
  lemma PermutationKeepsAccounting(reader: SelectorReader, p: seq<Call>, q: seq<Call>)
    requires multiset(p) == multiset(q)
    ensures TotalAmounts(reader, p).Ok? == TotalAmounts(reader, q).Ok?
    ensures TotalAmounts(reader, p).Ok? ==> TotalAmounts(reader, p) == TotalAmounts(reader, q)
  {
    RecordedIsSent(reader, p);
    RecordedIsSent(reader, q);
    SameEffects(p, q);
    SameSums(AllCalled(p), AllCalled(q));
    forall call: Call
      ensures call in p <==> call in q
    {
      assert call in p <==> call in multiset(p);
    }
  }

  /** So, when every outside call succeeds, the whole of `executeBatch` ends in the same state. */
  lemma PermutationKeepsBatch(cfg: Config, st: State, sender: Address, now: uint256, p: seq<Call>, q: seq<Call>)
    requires multiset(p) == multiset(q)
    ensures var a, b := ExecuteStep(cfg, st, sender, now, p, |p|), ExecuteStep(cfg, st, sender, now, q, |q|);
            && a.Ok? == b.Ok?
            && (a.Ok? ==> a.value.state == b.value.state
                          && multiset(a.value.effects) == multiset(b.value.effects))
  {
    PermutationKeepsAccounting(cfg.reader, p, q);
    SameEffects(p, q);
  }

  // ---------------------------------------------------------------- call by call

  /** Recording a list of amounts one after the other. */
  function SpendEach(cfg: Config, st: State, now: uint256, amounts: seq<Amounts>): Result<State> {
    if amounts == [] then Ok(st) else
    var before :- SpendEach(cfg, st, now, amounts[..|amounts| - 1]);
    var last := amounts[|amounts| - 1];
    SpendStep(cfg, before, now, last.eth, last.usdc)
  }

  function SumOf(amounts: seq<Amounts>): (nat, nat) {
    if amounts == [] then (0, 0) else
    var before, last := SumOf(amounts[..|amounts| - 1]), amounts[|amounts| - 1];
    (before.0 + last.eth, before.1 + last.usdc)
  }

  /** Recording a list of amounts at once: their checked sum, then one step. */
  function SpendTogether(cfg: Config, st: State, now: uint256, amounts: seq<Amounts>): Result<State> {
    SpendSum(cfg, st, now, SumOf(amounts).0, SumOf(amounts).1)
  }

  function SpendSum(cfg: Config, st: State, now: uint256, eth: nat, usdc: nat): Result<State> {
    if eth >= TWO_256 || usdc >= TWO_256 then Revert(Panic) else SpendStep(cfg, st, now, eth, usdc)
  }

  predicate NothingExpired(st: State, now: uint256) {
    && !Expired(st.lastDailyReset, DAILY_WINDOW, now)
    && !Expired(st.lastMonthlyReset, MONTHLY_WINDOW, now)
  }

  predicate Accepts(cfg: Config, st: State, now: uint256, eth: nat, usdc: nat) {
    && AnchorsFit(Touched(st, now).lastDailyReset, Touched(st, now).lastMonthlyReset)
    && (eth > 0 ==> DailyEth(st, now) + eth <= cfg.dailyEthLimit && MonthlyEth(st, now) + eth <= cfg.monthlyEthLimit)
    && (usdc > 0 ==> st.dailyUsdcSpent + usdc <= cfg.dailyUsdcLimit
                     && st.monthlyUsdcSpent + usdc <= cfg.monthlyUsdcLimit)
  }

  /** The state an accepted spend leaves. */
  function Spent(cfg: Config, st: State, now: uint256, eth: nat, usdc: nat): State
    requires Accepts(cfg, st, now, eth, usdc)
  {
    Touched(st, now).(
      dailyEthSpent := if eth > 0 then DailyEth(st, now) + eth else st.dailyEthSpent,
      monthlyEthSpent := if eth > 0 then MonthlyEth(st, now) + eth else st.monthlyEthSpent,
      dailyUsdcSpent := st.dailyUsdcSpent + usdc,
      monthlyUsdcSpent := st.monthlyUsdcSpent + usdc)
  }

  /** A spend of any two amounts is accepted exactly when both fit what is left, compared without overflow. */
  lemma SpendMeaning(cfg: Config, st: State, now: uint256, eth: nat, usdc: nat)
    ensures SpendSum(cfg, st, now, eth, usdc).Ok? <==> Accepts(cfg, st, now, eth, usdc)
    ensures Accepts(cfg, st, now, eth, usdc) ==>
              SpendSum(cfg, st, now, eth, usdc) == Ok(Spent(cfg, st, now, eth, usdc))
  {
  }

  /** Two results that accept together, and then in the same state. */
  predicate Agree(a: Result<State>, b: Result<State>) {
    a.Ok? == b.Ok? && (a.Ok? ==> a == b)
  }

  lemma AcceptsTwice(cfg: Config, st: State, now: uint256, eth: nat, usdc: nat, more: Amounts)
    requires eth > 0 || more.eth == 0 || NothingExpired(st, now)
    requires Accepts(cfg, st, now, eth, usdc)
    ensures Accepts(cfg, Spent(cfg, st, now, eth, usdc), now, more.eth, more.usdc)
       <==> Accepts(cfg, st, now, eth + more.eth, usdc + more.usdc)
    ensures Accepts(cfg, st, now, eth + more.eth, usdc + more.usdc) ==>
              Spent(cfg, Spent(cfg, st, now, eth, usdc), now, more.eth, more.usdc)
              == Spent(cfg, st, now, eth + more.eth, usdc + more.usdc)
  {
  }

  /** Spending in two steps at one moment is spending the sums in one step, provided the first step carries ETH,
      or the second does not, or no window was over to begin with. */
  lemma TwoStepsAreOne(cfg: Config, st: State, now: uint256, eth: nat, usdc: nat, more: Amounts)
    requires eth > 0 || more.eth == 0 || NothingExpired(st, now)
    ensures var first := SpendSum(cfg, st, now, eth, usdc);
            var both := if first.Ok? then SpendSum(cfg, first.value, now, more.eth, more.usdc) else first;
            Agree(both, SpendSum(cfg, st, now, eth + more.eth, usdc + more.usdc))
  {
    SpendMeaning(cfg, st, now, eth, usdc);
    SpendMeaning(cfg, st, now, eth + more.eth, usdc + more.usdc);
    if Accepts(cfg, st, now, eth, usdc) {
      SpendMeaning(cfg, Spent(cfg, st, now, eth, usdc), now, more.eth, more.usdc);
      AcceptsTwice(cfg, st, now, eth, usdc, more);
    }
  }

  /** The state a list of calls is recorded from: the first call decides whether stale ETH counters survive. */
  function BatchOrigin(st: State, now: uint256, first: Amounts): State {
    if first.eth > 0 then st else Touched(st, now)
  }

  function Then(cfg: Config, before: Result<State>, now: uint256, more: Amounts): Result<State> {
    if before.Ok? then SpendStep(cfg, before.value, now, more.eth, more.usdc) else before
  }

  /** `result` is what recording the two sums from `from` gives. */
  predicate Records(cfg: Config, from: State, now: uint256, eth: nat, usdc: nat, result: Result<State>) {
    if Accepts(cfg, from, now, eth, usdc) then result == Ok(Spent(cfg, from, now, eth, usdc)) else result.Revert?
  }

  lemma LastCall(cfg: Config, st: State, now: uint256, amounts: seq<Amounts>)
    requires amounts != []
    ensures var rest, last := amounts[..|amounts| - 1], amounts[|amounts| - 1];
            && SpendEach(cfg, st, now, amounts) == Then(cfg, SpendEach(cfg, st, now, rest), now, last)
            && SumOf(amounts) == (SumOf(rest).0 + last.eth, SumOf(rest).1 + last.usdc)
  {
  }

  lemma Onward(
    cfg: Config, from: State, now: uint256, eth: nat, usdc: nat, more: Amounts, before: Result<State>)
    requires eth > 0 || NothingExpired(from, now)
    requires Records(cfg, from, now, eth, usdc, before)
    ensures Records(cfg, from, now, eth + more.eth, usdc + more.usdc, Then(cfg, before, now, more))
  {
    if before.Ok? {
      SpendMeaning(cfg, before.value, now, more.eth, more.usdc);
      AcceptsTwice(cfg, from, now, eth, usdc, more);
    }
  }

  lemma OneCall(cfg: Config, st: State, now: uint256, amounts: seq<Amounts>)
    requires |amounts| == 1
    ensures Records(cfg, BatchOrigin(st, now, amounts[0]), now, SumOf(amounts).0, SumOf(amounts).1,
                    SpendEach(cfg, st, now, amounts))
  {
    assert amounts[..0] == [];
    assert SpendEach(cfg, st, now, []) == Ok(st) && SumOf([]) == (0, 0);
    LastCall(cfg, st, now, amounts);
    SpendMeaning(cfg, st, now, amounts[0].eth, amounts[0].usdc);
  }

  lemma {:induction false} EachRecords(cfg: Config, st: State, now: uint256, amounts: seq<Amounts>)
    requires amounts != []
    ensures Records(cfg, BatchOrigin(st, now, amounts[0]), now, SumOf(amounts).0, SumOf(amounts).1,
                    SpendEach(cfg, st, now, amounts))
  {
    if |amounts| == 1 {
      OneCall(cfg, st, now, amounts);
    } else {
      var rest, last := amounts[..|amounts| - 1], amounts[|amounts| - 1];
      EachRecords(cfg, st, now, rest);
      SumHasFirst(rest);
      LastCall(cfg, st, now, amounts);
      Onward(cfg, BatchOrigin(st, now, amounts[0]), now, SumOf(rest).0, SumOf(rest).1, last,
             SpendEach(cfg, st, now, rest));
    }
  }

  /** Recording call by call is recording the batch at once, except that when the first call carries no ETH the
      batch has to be taken from the state whose windows were already looked at. */
  lemma CallByCall(cfg: Config, st: State, now: uint256, amounts: seq<Amounts>)
    requires amounts != []
    ensures Agree(SpendEach(cfg, st, now, amounts),
                  SpendTogether(cfg, BatchOrigin(st, now, amounts[0]), now, amounts))
  {
    EachRecords(cfg, st, now, amounts);
    SpendMeaning(cfg, BatchOrigin(st, now, amounts[0]), now, SumOf(amounts).0, SumOf(amounts).1);
  }

  /** A window is over and its counter would be dropped by a spend of ETH. */
  predicate Stale(st: State, now: uint256) {
    || (Expired(st.lastDailyReset, DAILY_WINDOW, now) && st.dailyEthSpent > 0)
    || (Expired(st.lastMonthlyReset, MONTHLY_WINDOW, now) && st.monthlyEthSpent > 0)
  }

  /** Looking at the windows first makes no difference to this spend. */
  predicate Unaffected(cfg: Config, st: State, now: uint256, eth: nat, usdc: nat) {
    eth == 0 || !Stale(st, now) || !Accepts(cfg, st, now, eth, usdc)
  }

  lemma TouchMatters(cfg: Config, st: State, now: uint256, eth: nat, usdc: nat)
    ensures Agree(SpendSum(cfg, Touched(st, now), now, eth, usdc), SpendSum(cfg, st, now, eth, usdc))
       <==> Unaffected(cfg, st, now, eth, usdc)
  {
    var touched := Touched(st, now);
    SpendMeaning(cfg, st, now, eth, usdc);
    SpendMeaning(cfg, touched, now, eth, usdc);
    if Accepts(cfg, st, now, eth, usdc) && Accepts(cfg, touched, now, eth, usdc) {
      var kept, reset := Spent(cfg, touched, now, eth, usdc), Spent(cfg, st, now, eth, usdc);
      assert kept == reset <==>
          kept.dailyEthSpent == reset.dailyEthSpent && kept.monthlyEthSpent == reset.monthlyEthSpent;
    }
  }

  /** Recording a list call by call agrees with recording it at once if and only if its first call carries ETH, or the
      stale counters that survive until the first ETH do not matter to its sums. */
  lemma CallByCallExactly(cfg: Config, st: State, now: uint256, amounts: seq<Amounts>)
    requires amounts != []
    ensures Agree(SpendEach(cfg, st, now, amounts), SpendTogether(cfg, st, now, amounts))
       <==> amounts[0].eth > 0 || Unaffected(cfg, st, now, SumOf(amounts).0, SumOf(amounts).1)
  {
    CallByCall(cfg, st, now, amounts);
    TouchMatters(cfg, st, now, SumOf(amounts).0, SumOf(amounts).1);
  }

  lemma {:induction false} SumHasFirst(amounts: seq<Amounts>)
    requires amounts != []
    ensures SumOf(amounts).0 >= amounts[0].eth
  {
    if |amounts| > 1 {
      SumHasFirst(amounts[..|amounts| - 1]);
    }
  }

  /** What each call of an accepted list is recorded at. */
  function AmountsOf(calls: seq<Call>): seq<Amounts> {
    seq(|calls|, i requires 0 <= i < |calls| => Amounts(calls[i].value, UsdcMoved(calls[i])))
  }

  lemma {:induction false} SumOfCalls(calls: seq<Call>)
    ensures SumOf(AmountsOf(calls)) == (EthCalled(AllCalled(calls)), UsdcCalled(AllCalled(calls)))
  {
    if calls != [] {
      var rest := calls[..|calls| - 1];
      SumOfCalls(rest);
      assert AmountsOf(calls)[..|calls| - 1] == AmountsOf(rest);
      SentLast(calls);
    }
  }

  /** What `executeBatch` does to the limits: one step with the recorded totals. */
  function BatchSpend(cfg: Config, st: State, now: uint256, calls: seq<Call>): Result<State> {
    var total :- TotalAmounts(cfg.reader, calls);
    SpendStep(cfg, st, now, total.eth, total.usdc)
  }

  /** What `_applySpendAndUpdate` makes of a list of calls one at a time. The cooldown, which `execute` and
      `executeBatch` run before it, is left to the module Execution. */
  function SpendCalls(cfg: Config, st: State, now: uint256, calls: seq<Call>): Result<State> {
    if calls == [] then Ok(st) else
    var before :- SpendCalls(cfg, st, now, calls[..|calls| - 1]);
    var amounts :- ParseSpendAmounts(cfg.reader, calls[|calls| - 1]);
    SpendStep(cfg, before, now, amounts.eth, amounts.usdc)
  }

  lemma {:induction false} SpendCallsMeaning(cfg: Config, st: State, now: uint256, calls: seq<Call>)
    ensures if forall call <- calls :: ParseSpendAmounts(cfg.reader, call).Ok?
            then SpendCalls(cfg, st, now, calls) == SpendEach(cfg, st, now, AmountsOf(calls))
            else SpendCalls(cfg, st, now, calls).Revert?
  {
    if calls != [] {
      var rest, last := calls[..|calls| - 1], calls[|calls| - 1];
      SpendCallsMeaning(cfg, st, now, rest);
      assert calls == rest + [last];
      assert AmountsOf(calls)[..|calls| - 1] == AmountsOf(rest);
    }
  }

  /** Whether recording the calls in this order does what recording them as a batch does. */
  ghost predicate OrderAgrees(cfg: Config, st: State, now: uint256, order: seq<Call>) {
    if order == [] then NothingExpired(st, now) && AnchorsFit(st.lastDailyReset, st.lastMonthlyReset) else
    || (exists call <- order :: ParseSpendAmounts(cfg.reader, call).Revert?)
    || order[0].value > 0
    || Unaffected(cfg, st, now, EthCalled(AllCalled(order)), UsdcCalled(AllCalled(order)))
  }

  /** The limits accept the calls of a batch one at a time, in any order, exactly when they accept the batch, and end
      with the same counters, if and only if the first of them carries ETH, or no stale counter can matter; a list that
      is not allowed is rejected either way, and an empty one only moves anchors. */
  lemma BatchIsCallByCall(cfg: Config, st: State, now: uint256, batch: seq<Call>, order: seq<Call>)
    requires multiset(batch) == multiset(order)
    ensures Agree(SpendCalls(cfg, st, now, order), BatchSpend(cfg, st, now, batch))
       <==> OrderAgrees(cfg, st, now, order)
  {
    PermutationKeepsAccounting(cfg.reader, batch, order);
    RecordedIsSent(cfg.reader, order);
    SpendCallsMeaning(cfg, st, now, order);
    SumOfCalls(order);
    if order == [] {
      assert batch == [] by {
        assert |multiset(batch)| == |batch|;
      }
    } else if forall call <- order :: ParseSpendAmounts(cfg.reader, call).Ok? {
      CallByCallExactly(cfg, st, now, AmountsOf(order));
    }
  }

  /** So while neither window is over the order never matters to the limits. */
  lemma OrderFreeWhileLive(cfg: Config, st: State, now: uint256, batch: seq<Call>, order: seq<Call>)
    requires multiset(batch) == multiset(order) && NothingExpired(st, now)
    requires batch == [] ==> AnchorsFit(st.lastDailyReset, st.lastMonthlyReset)
    ensures Agree(SpendCalls(cfg, st, now, order), BatchSpend(cfg, st, now, batch))
  {
    assert |multiset(batch)| == |batch|;
    BatchIsCallByCall(cfg, st, now, batch, order);
  }

  /** And as the contract reads selectors it never matters to them at any moment: every call it accepts carries ETH. */
  lemma OrderFreeLiterally(cfg: Config, st: State, now: uint256, batch: seq<Call>, order: seq<Call>)
    requires multiset(batch) == multiset(order) && batch != [] && cfg.reader == Literal
    ensures Agree(SpendCalls(cfg, st, now, order), BatchSpend(cfg, st, now, batch))
  {
    assert order != [] by {
      assert |multiset(batch)| == |batch|;
    }
    BatchIsCallByCall(cfg, st, now, batch, order);
    assert order[0] in order;
  }
}
