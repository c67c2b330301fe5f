/** The limit policy library: lazily re-anchored windows and the two-limit check. */
module LimitPolicy {
  import opened Evm

  const DAILY_WINDOW: uint256 := 86400
  const MONTHLY_WINDOW: uint256 := 2592000

  datatype Windows = Windows(dailyReset: uint256, monthlyReset: uint256, dailySpent: uint256, monthlySpent: uint256)

  /** A window anchored at `last` is over at `now`. */
  predicate Expired(last: nat, window: nat, now: nat) {
    now >= last + window
  }

  /** The anchor a window has after it has been looked at: `now` if it was over. */
  function Reanchored(last: uint256, window: uint256, now: uint256): (anchor: uint256)
    ensures anchor == last || anchor == now
    ensures last <= now ==> last <= anchor <= now
    ensures !Expired(anchor, window, now) || window == 0
  {
    if Expired(last, window, now) then now else last
  }

  /** What is left of a counter after its window has been looked at. */
  function Remaining(last: nat, window: nat, spent: uint256, now: nat): uint256 {
    if Expired(last, window, now) then 0 else spent
  }

  function MaybeResetWindows(
    lastDailyReset: uint256, lastMonthlyReset: uint256,
    currentDailySpent: uint256, currentMonthlySpent: uint256, now: uint256
  ): (r: Result<Windows>)
    ensures r.Ok? <==> lastDailyReset + DAILY_WINDOW < TWO_256 && lastMonthlyReset + MONTHLY_WINDOW < TWO_256
    ensures r.Revert? ==> r.error == Panic
    ensures r.Ok? ==>
              && r.value.dailyReset == Reanchored(lastDailyReset, DAILY_WINDOW, now)
              && r.value.monthlyReset == Reanchored(lastMonthlyReset, MONTHLY_WINDOW, now)
              && r.value.dailySpent == Remaining(lastDailyReset, DAILY_WINDOW, currentDailySpent, now)
              && r.value.monthlySpent == Remaining(lastMonthlyReset, MONTHLY_WINDOW, currentMonthlySpent, now)
  {
    var dailyEnd :- Add(lastDailyReset, DAILY_WINDOW);
    var monthlyEnd :- Add(lastMonthlyReset, MONTHLY_WINDOW);
    var (dailyReset, dailySpent) :=
      if now >= dailyEnd then (now, 0) else (lastDailyReset, currentDailySpent);
    var (monthlyReset, monthlySpent) :=
      if now >= monthlyEnd then (now, 0) else (lastMonthlyReset, currentMonthlySpent);
    Ok(Windows(dailyReset, monthlyReset, dailySpent, monthlySpent))
  }

  /** A second look at the same moment, through the anchors the first look returned, resets nothing:
      whatever counters it is given come back unchanged. */
  lemma SecondResetNeverFires(
    lastDailyReset: uint256, lastMonthlyReset: uint256, spent: (uint256, uint256), other: (uint256, uint256),
    now: uint256)
    requires MaybeResetWindows(lastDailyReset, lastMonthlyReset, spent.0, spent.1, now).Ok?
    ensures var first := MaybeResetWindows(lastDailyReset, lastMonthlyReset, spent.0, spent.1, now).value;
            var second := MaybeResetWindows(first.dailyReset, first.monthlyReset, other.0, other.1, now);
            && (second.Ok? <==>
                first.dailyReset + DAILY_WINDOW < TWO_256 && first.monthlyReset + MONTHLY_WINDOW < TWO_256)
            && (second.Ok? ==> second.value == Windows(first.dailyReset, first.monthlyReset, other.0, other.1))
  {
  }

  /** Both spend checks (ETH and USDC are the same code). Overflow never changes the verdict: the checked
      comparison accepts exactly when the unbounded sums respect both limits. */
  function ValidateSpend(
    dailySpent: uint256, monthlySpent: uint256, dailyLimit: uint256, monthlyLimit: uint256, amount: uint256
  ): (r: Result<()>)
    ensures r.Ok? <==> dailySpent + amount <= dailyLimit && monthlySpent + amount <= monthlyLimit
    ensures r == Revert(DailyLimitExceeded) <==> dailyLimit < dailySpent + amount < TWO_256
    ensures r == Revert(MonthlyLimitExceeded) <==>
              dailySpent + amount <= dailyLimit && monthlyLimit < monthlySpent + amount < TWO_256
  {
    var daily :- Add(dailySpent, amount);
    if daily > dailyLimit then Revert(DailyLimitExceeded) else
    var monthly :- Add(monthlySpent, amount);
    if monthly > monthlyLimit then Revert(MonthlyLimitExceeded) else
    Ok(())
  }
}
