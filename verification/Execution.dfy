/** Calls made one at a time through `execute` compared with the same calls made by one `executeBatch`: limits and
    cooldown together. */
module Execution {
  import opened Evm
  import opened AccountSpec
  import opened Batch

  // ---------------------------------------------------------------- one recording

  /** What `execute` and `executeBatch` record for two amounts: the cooldown, then the limits. */
  function RecordStep(cfg: Config, st: State, now: uint256, eth: nat, usdc: nat): Result<State> {
    if eth >= TWO_256 || usdc >= TWO_256 then Revert(Panic) else
    var cooled :- CooldownStep(cfg, st, now, eth, usdc);
    SpendStep(cfg, cooled, now, eth, usdc)
  }

  /** No earlier large spend stands in the way. */
  predicate Unblocked(st: State, now: uint256) {
    st.lastLargeSpendTime == 0 || (st.lastLargeSpendTime + COOLDOWN_PERIOD < TWO_256 && !CoolingDown(st, now))
  }

  /** The cooldown and the limits let two amounts pass. */
  predicate Passes(cfg: Config, st: State, now: uint256, eth: nat, usdc: nat) {
    Unblocked(st, now) && UsdValueFits(cfg, eth, usdc) && Accepts(cfg, st, now, eth, usdc)
  }

  function Stamped(st: State, large: bool, now: uint256): State {
    if large then st.(lastLargeSpendTime := now) else st
  }

  /** Recording any two amounts is accepted exactly when both checks let them pass; the state it leaves. */
  lemma RecordMeaning(cfg: Config, st: State, now: uint256, eth: nat, usdc: nat)
    ensures RecordStep(cfg, st, now, eth, usdc).Ok? <==> Passes(cfg, st, now, eth, usdc)
    ensures Passes(cfg, st, now, eth, usdc) ==>
              RecordStep(cfg, st, now, eth, usdc)
              == Ok(Stamped(Spent(cfg, st, now, eth, usdc), IsLarge(cfg, eth, usdc), now))
  {
    if eth < TWO_256 && usdc < TWO_256 && CooldownStep(cfg, st, now, eth, usdc).Ok? {
      var cooled := CooldownStep(cfg, st, now, eth, usdc).value;
      SpendMeaning(cfg, cooled, now, eth, usdc);
    }
  }

  // ---------------------------------------------------------------- one at a time

  /** Recording a list of amounts one after the other. */
  function RecordEach(cfg: Config, st: State, now: uint256, amounts: seq<Amounts>): Result<State> {
    if amounts == [] then Ok(st) else
    var before :- RecordEach(cfg, st, now, amounts[..|amounts| - 1]);
    var last := amounts[|amounts| - 1];
    RecordStep(cfg, before, now, last.eth, last.usdc)
  }

  /** Each amount has a value that fits a word, and none but the last is large on its own. */
  ghost predicate NoneBeforeLastLarge(cfg: Config, amounts: seq<Amounts>) {
    && (forall i :: 0 <= i < |amounts| ==> UsdValueFits(cfg, amounts[i].eth, amounts[i].usdc))
    && (forall i :: 0 <= i < |amounts| - 1 ==> !IsLarge(cfg, amounts[i].eth, amounts[i].usdc))
  }

  /** One at a time, the amounts pass. */
  ghost predicate EachPasses(cfg: Config, st: State, now: uint256, amounts: seq<Amounts>)
    requires amounts != []
  {
    && Unblocked(st, now)
    && NoneBeforeLastLarge(cfg, amounts)
    && Accepts(cfg, BatchOrigin(st, now, amounts[0]), now, SumOf(amounts).0, SumOf(amounts).1)
  }

  function LastIsLarge(cfg: Config, amounts: seq<Amounts>): bool
    requires amounts != []
  {
    IsLarge(cfg, amounts[|amounts| - 1].eth, amounts[|amounts| - 1].usdc)
  }

  ghost predicate EachRecorded(cfg: Config, st: State, now: uint256, amounts: seq<Amounts>, result: Result<State>)
    requires amounts != []
  {
    var origin, sum := BatchOrigin(st, now, amounts[0]), SumOf(amounts);
    if EachPasses(cfg, st, now, amounts)
    then result == Ok(Stamped(Spent(cfg, origin, now, sum.0, sum.1), LastIsLarge(cfg, amounts), now))
    else result.Revert?
  }

  /** Amounts recorded one at a time pass exactly when none but the last is large, and their sums then fit what is left
      where the first of them starts from. */
  lemma {:induction false} EachMeaning(cfg: Config, st: State, now: uint256, amounts: seq<Amounts>)
    requires amounts != [] && now > 0
    ensures EachRecorded(cfg, st, now, amounts, RecordEach(cfg, st, now, amounts))
  {
    var rest, last := amounts[..|amounts| - 1], amounts[|amounts| - 1];
    if |amounts| == 1 {
      FirstRecord(cfg, st, now, amounts);
    } else {
      EachMeaning(cfg, st, now, rest);
      OneMoreRecord(cfg, st, now, amounts, RecordEach(cfg, st, now, rest));
    }
  }

  lemma FirstRecord(cfg: Config, st: State, now: uint256, amounts: seq<Amounts>)
    requires |amounts| == 1
    ensures EachRecorded(cfg, st, now, amounts, RecordEach(cfg, st, now, amounts))
  {
    var a := amounts[0];
    assert amounts[..0] == [];
    assert RecordEach(cfg, st, now, []) == Ok(st) && SumOf([]) == (0, 0);
    assert SumOf(amounts) == (a.eth, a.usdc);
    RecordMeaning(cfg, st, now, a.eth, a.usdc);
    assert NoneBeforeLastLarge(cfg, amounts) <==> UsdValueFits(cfg, a.eth, a.usdc);
  }

  lemma OneMoreRecord(cfg: Config, st: State, now: uint256, amounts: seq<Amounts>, before: Result<State>)
    requires |amounts| > 1 && now > 0
    requires EachRecorded(cfg, st, now, amounts[..|amounts| - 1], before)
    ensures var last := amounts[|amounts| - 1];
            EachRecorded(cfg, st, now, amounts,
              if before.Ok? then RecordStep(cfg, before.value, now, last.eth, last.usdc) else before)
  {
    var rest, last := amounts[..|amounts| - 1], amounts[|amounts| - 1];
    var origin, sum := BatchOrigin(st, now, amounts[0]), SumOf(rest);
    assert SumOf(amounts) == (sum.0 + last.eth, sum.1 + last.usdc);
    assert sum.0 > 0 || NothingExpired(origin, now) by {
      SumHasFirst(rest);
    }
    OneMoreFits(cfg, amounts);
    if before.Ok? {
      RecordMeaning(cfg, before.value, now, last.eth, last.usdc);
      AcceptsTwice(cfg, origin, now, sum.0, sum.1, last);
    }
  }

  lemma OneMoreFits(cfg: Config, amounts: seq<Amounts>)
    requires |amounts| > 1
    ensures var rest, last := amounts[..|amounts| - 1], amounts[|amounts| - 1];
            NoneBeforeLastLarge(cfg, amounts) <==>
              NoneBeforeLastLarge(cfg, rest) && !LastIsLarge(cfg, rest) && UsdValueFits(cfg, last.eth, last.usdc)
  {
    var rest, last := amounts[..|amounts| - 1], amounts[|amounts| - 1];
    assert amounts == rest + [last];
    assert amounts[|amounts| - 2] == rest[|rest| - 1];
  }

  // ---------------------------------------------------------------- at once

  lemma TimesAdds(a: nat, b: nat, k: nat)
    ensures Times(a + b, k) == Times(a, k) + Times(b, k)
  {
    TimesIsProduct(a + b, k);
    TimesIsProduct(a, k);
    TimesIsProduct(b, k);
  }

  /** The value of a sum is at least the value of a part. */
  lemma ValueGrows(cfg: Config, eth: nat, usdc: nat, moreEth: nat, moreUsdc: nat)
    requires eth <= moreEth && usdc <= moreUsdc
    ensures UsdValue(cfg, eth, usdc) <= UsdValue(cfg, moreEth, moreUsdc)
    ensures UsdValueFits(cfg, moreEth, moreUsdc) ==> UsdValueFits(cfg, eth, usdc)
    ensures IsLarge(cfg, eth, usdc) ==> IsLarge(cfg, moreEth, moreUsdc)
  {
    TimesAdds(eth, moreEth - eth, cfg.usdcPerEth);
  }

  lemma {:induction false} SumHasEach(amounts: seq<Amounts>, i: nat)
    requires i < |amounts|
    ensures amounts[i].eth <= SumOf(amounts).0 && amounts[i].usdc <= SumOf(amounts).1
  {
    if i < |amounts| - 1 {
      SumHasEach(amounts[..|amounts| - 1], i);
    }
  }

  /** When the value of the sums fits a word, so does the value of each part. */
  lemma PartsFit(cfg: Config, amounts: seq<Amounts>)
    requires UsdValueFits(cfg, SumOf(amounts).0, SumOf(amounts).1)
    ensures forall i :: 0 <= i < |amounts| ==>
              && UsdValueFits(cfg, amounts[i].eth, amounts[i].usdc)
              && (IsLarge(cfg, amounts[i].eth, amounts[i].usdc) ==> IsLarge(cfg, SumOf(amounts).0, SumOf(amounts).1))
  {
    forall i | 0 <= i < |amounts|
      ensures UsdValueFits(cfg, amounts[i].eth, amounts[i].usdc)
      ensures IsLarge(cfg, amounts[i].eth, amounts[i].usdc) ==> IsLarge(cfg, SumOf(amounts).0, SumOf(amounts).1)
    {
      SumHasEach(amounts, i);
      ValueGrows(cfg, amounts[i].eth, amounts[i].usdc, SumOf(amounts).0, SumOf(amounts).1);
    }
  }

  /** Each payment is carried out as it would be within the batch: limits start from the same place, no payment before
      the last starts a cooldown, and the last starts one whenever the batch does. */
  ghost predicate SameAsBatch(cfg: Config, st: State, now: uint256, amounts: seq<Amounts>)
    requires amounts != []
  {
    var sum := SumOf(amounts);
    && (amounts[0].eth > 0 || Unaffected(cfg, st, now, sum.0, sum.1))
    && (forall i :: 0 <= i < |amounts| - 1 ==> !IsLarge(cfg, amounts[i].eth, amounts[i].usdc))
    && (IsLarge(cfg, sum.0, sum.1) ==> LastIsLarge(cfg, amounts))
  }

  /** Recording one at a time agrees with recording at once. If the batch passes, exactly when SameAsBatch says so. If
      it does not, always, except that a value beyond a word can stop the batch alone. */
  ghost predicate RecordsAgree(cfg: Config, st: State, now: uint256, amounts: seq<Amounts>)
    requires amounts != []
  {
    var sum := SumOf(amounts);
    if Passes(cfg, st, now, sum.0, sum.1) then SameAsBatch(cfg, st, now, amounts)
    else UsdValueFits(cfg, sum.0, sum.1) || !EachPasses(cfg, st, now, amounts)
  }

  lemma EachIsTogether(cfg: Config, st: State, now: uint256, amounts: seq<Amounts>)
    requires amounts != [] && now > 0
    ensures var sum := SumOf(amounts);
            Agree(RecordEach(cfg, st, now, amounts), RecordStep(cfg, st, now, sum.0, sum.1))
            <==> RecordsAgree(cfg, st, now, amounts)
  {
    var sum, origin := SumOf(amounts), BatchOrigin(st, now, amounts[0]);
    EachMeaning(cfg, st, now, amounts);
    RecordMeaning(cfg, st, now, sum.0, sum.1);
    OriginMatters(cfg, st, now, amounts);
    if UsdValueFits(cfg, sum.0, sum.1) {
      PartsFit(cfg, amounts);
    }
  }

  /** Where the limits of the first payment start from. */
  lemma OriginMatters(cfg: Config, st: State, now: uint256, amounts: seq<Amounts>)
    requires amounts != []
    ensures var sum, origin := SumOf(amounts), BatchOrigin(st, now, amounts[0]);
            && (Accepts(cfg, origin, now, sum.0, sum.1) ==> Accepts(cfg, st, now, sum.0, sum.1))
            && (Accepts(cfg, st, now, sum.0, sum.1) ==>
                ((&& Accepts(cfg, origin, now, sum.0, sum.1)
                  && EqualButStamp(Spent(cfg, origin, now, sum.0, sum.1), Spent(cfg, st, now, sum.0, sum.1)))
                 <==> amounts[0].eth > 0 || Unaffected(cfg, st, now, sum.0, sum.1)))
  {
    var sum := SumOf(amounts);
    TouchMatters(cfg, st, now, sum.0, sum.1);
    SpendMeaning(cfg, st, now, sum.0, sum.1);
    SpendMeaning(cfg, Touched(st, now), now, sum.0, sum.1);
  }

  predicate EqualButStamp(a: State, b: State) {
    a.(lastLargeSpendTime := 0) == b.(lastLargeSpendTime := 0)
  }

  // ---------------------------------------------------------------- calls

  /** The state after `execute` of each call in turn, at one moment, with no outside call failing. */
  function ExecuteEach(cfg: Config, st: State, now: uint256, calls: seq<Call>): Result<State> {
    if calls == [] then Ok(st) else
    var before :- ExecuteEach(cfg, st, now, calls[..|calls| - 1]);
    var done :- ExecuteStep(cfg, before, cfg.entryPoint, now, [calls[|calls| - 1]], 1);
    Ok(done.state)
  }

  /** The state after one `executeBatch` of all of them. */
  function ExecuteAll(cfg: Config, st: State, now: uint256, calls: seq<Call>): Result<State> {
    var done :- ExecuteStep(cfg, st, cfg.entryPoint, now, calls, |calls|);
    Ok(done.state)
  }

  lemma AllRecords(cfg: Config, st: State, now: uint256, calls: seq<Call>)
    ensures var sent := AllCalled(calls);
            if forall call <- calls :: ParseSpendAmounts(cfg.reader, call).Ok?
            then Agree(ExecuteAll(cfg, st, now, calls), RecordStep(cfg, st, now, EthCalled(sent), UsdcCalled(sent)))
            else ExecuteAll(cfg, st, now, calls).Revert?
  {
    RecordedIsSent(cfg.reader, calls);
  }

  lemma OneSent(call: Call)
    ensures EthCalled(AllCalled([call])) == call.value && UsdcCalled(AllCalled([call])) == UsdcMoved(call)
  {
    SentLast([call]);
    assert [call][..0] == [] && AllCalled([]) == [];
  }

  lemma OneRecords(cfg: Config, st: State, now: uint256, call: Call)
    ensures var one := ExecuteAll(cfg, st, now, [call]);
            if ParseSpendAmounts(cfg.reader, call).Ok?
            then one == RecordStep(cfg, st, now, call.value, UsdcMoved(call))
            else one.Revert?
  {
    assert [call][..0] == [];
    assert TotalAmounts(cfg.reader, []) == Ok(Amounts(0, 0));
    assert TotalAmounts(cfg.reader, [call]) == ParseSpendAmounts(cfg.reader, call);
  }

  lemma {:induction false} EachCallRecords(cfg: Config, st: State, now: uint256, calls: seq<Call>)
    ensures if forall call <- calls :: ParseSpendAmounts(cfg.reader, call).Ok?
            then ExecuteEach(cfg, st, now, calls) == RecordEach(cfg, st, now, AmountsOf(calls))
            else ExecuteEach(cfg, st, now, calls).Revert?
  {
    if calls != [] {
      var rest, last := calls[..|calls| - 1], calls[|calls| - 1];
      EachCallRecords(cfg, st, now, rest);
      assert calls == rest + [last];
      assert AmountsOf(calls)[..|calls| - 1] == AmountsOf(rest);
      var before := ExecuteEach(cfg, st, now, rest);
      if before.Ok? {
        OneRecords(cfg, before.value, now, last);
      }
    }
  }

  /** Whether making the calls in this order through `execute` does what making them by one `executeBatch` does. */
  ghost predicate ExecutionAgrees(cfg: Config, st: State, now: uint256, order: seq<Call>) {
    if order == [] then Passes(cfg, st, now, 0, 0) && NothingExpired(st, now) else
    (forall call <- order :: ParseSpendAmounts(cfg.reader, call).Ok?) ==> RecordsAgree(cfg, st, now, AmountsOf(order))
  }

  lemma NothingRecorded(cfg: Config, st: State, now: uint256)
    ensures Agree(Ok(st), RecordStep(cfg, st, now, 0, 0)) <==> Passes(cfg, st, now, 0, 0) && NothingExpired(st, now)
  {
    RecordMeaning(cfg, st, now, 0, 0);
    TimesIsProduct(0, cfg.usdcPerEth);
    assert !IsLarge(cfg, 0, 0);
    if Passes(cfg, st, now, 0, 0) {
      assert Spent(cfg, st, now, 0, 0) == Touched(st, now);
    }
  }

  /** Making the calls of a batch one at a time, in any order and at any moment, is accepted exactly when the batch is
      and ends in the same storage, if and only if ExecutionAgrees. */
  lemma ExecutionIsCallByCall(cfg: Config, st: State, now: uint256, batch: seq<Call>, order: seq<Call>)
    requires multiset(batch) == multiset(order) && now > 0
    ensures Agree(ExecuteEach(cfg, st, now, order), ExecuteAll(cfg, st, now, batch))
       <==> ExecutionAgrees(cfg, st, now, order)
  {
    PermutationKeepsBatch(cfg, st, cfg.entryPoint, now, batch, order);
    assert |multiset(batch)| == |batch|;
    AllRecords(cfg, st, now, order);
    EachCallRecords(cfg, st, now, order);
    SumOfCalls(order);
    if order == [] {
      NothingRecorded(cfg, st, now);
    } else if forall call <- order :: ParseSpendAmounts(cfg.reader, call).Ok? {
      EachIsTogether(cfg, st, now, AmountsOf(order));
    }
  }

  /** So for calls that together are not large, the order matters exactly as it does for the limits alone. */
  lemma SmallCallsInOrder(cfg: Config, st: State, now: uint256, batch: seq<Call>, order: seq<Call>)
    requires multiset(batch) == multiset(order) && batch != [] && now > 0
    requires var sent := AllCalled(order);
             UsdValueFits(cfg, EthCalled(sent), UsdcCalled(sent)) && !IsLarge(cfg, EthCalled(sent), UsdcCalled(sent))
    ensures Agree(ExecuteEach(cfg, st, now, order), ExecuteAll(cfg, st, now, batch))
       <==> !Unblocked(st, now) || OrderAgrees(cfg, st, now, order)
  {
    assert |multiset(batch)| == |batch| && order != [];
    ExecutionIsCallByCall(cfg, st, now, batch, order);
    SumOfCalls(order);
    PartsFit(cfg, AmountsOf(order));
  }

  /** And as the contract reads selectors, an order of the calls of an accepted batch does the same exactly when none
      before the last is large on its own, and the last is if the batch is. */
  lemma LiteralOrder(cfg: Config, st: State, now: uint256, batch: seq<Call>, order: seq<Call>)
    requires multiset(batch) == multiset(order) && batch != [] && now > 0 && cfg.reader == Literal
    requires ExecuteAll(cfg, st, now, batch).Ok?
    ensures order != []
    ensures Agree(ExecuteEach(cfg, st, now, order), ExecuteAll(cfg, st, now, batch))
       <==> && (forall i :: 0 <= i < |order| - 1 ==> !IsLarge(cfg, order[i].value, 0))
            && (IsLarge(cfg, EthCalled(AllCalled(order)), 0) ==> IsLarge(cfg, order[|order| - 1].value, 0))
  {
    assert |multiset(batch)| == |batch| && order != [];
    ExecutionIsCallByCall(cfg, st, now, batch, order);
    PermutationKeepsBatch(cfg, st, cfg.entryPoint, now, batch, order);
    AllRecords(cfg, st, now, order);
    SumOfCalls(order);
    RecordMeaning(cfg, st, now, EthCalled(AllCalled(order)), UsdcCalled(AllCalled(order)));
    var amounts := AmountsOf(order);
    forall i | 0 <= i < |order|
      ensures amounts[i] == Amounts(order[i].value, 0) && order[i].value > 0
    {
      assert order[i] in order;
    }
    NoUsdc(amounts);
  }

  lemma {:induction false} NoUsdc(amounts: seq<Amounts>)
    requires forall i :: 0 <= i < |amounts| ==> amounts[i].usdc == 0
    ensures SumOf(amounts).1 == 0
  {
    if amounts != [] {
      NoUsdc(amounts[..|amounts| - 1]);
    }
  }
}
