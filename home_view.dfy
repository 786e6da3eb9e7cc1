/** The home view: validating a submitted reading, comparing it with the
    previous one, choosing the reward it earns, and the figures the
    dashboard derives from the history (quick stats, the monthly greeting
    and the tip of the day). */
module HomeView {
  import opened Types
  import App
  import opened Arith

  /** The round-robin catalogue a small reduction draws from, in order. */
  const PossibleRewards: seq<RewardTemplate> := [
    RewardTemplate("Eco-Warrior Badge", "Awarded for your first successful water reduction!", Badge, "🛡️"),
    RewardTemplate("5% Off Eco-Friendly Soap", "A coupon for our partner, \"Green Suds\".", Coupon, "🧼"),
    RewardTemplate("Splash Saver Medal", "You have consistently saved water. Keep it up!", Badge, "💧"),
    RewardTemplate("Garden Guru Discount", "10% off water-saving sprinklers.", Coupon, "🌱"),
    RewardTemplate("Conservation Champion", "You are a true hero for the planet!", Badge, "🏆")
  ]

  /** The fixed reward for a reduction of at least ten percent. */
  const AmazonReward: RewardTemplate :=
    RewardTemplate("Amazon Coupon!", "You reduced your consumption by over 10%!", Coupon, "📦")

  /** The fraction of the previous reading a cut must reach for the special reward. */
  const SpecialThreshold: real := 0.1

  /** The result card's state. `First` belongs to the result type but no
      submission produces it. */
  datatype Outcome = Success | SuccessSpecial | Warning | First

  /** The clock readings a submission uses: the `Date.now()` text that makes
      reward ids unique, the current ISO time, and the ISO time one calendar
      month earlier. */
  datatype Clock = Clock(stamp: string, nowIso: string, prevMonthIso: string)

  /** `processComparison`'s classification of a new reading against the old
      one. Readings are validated non-negative before the comparison runs;
      with that, `newValue < oldValue` makes `oldValue` positive, so the
      division is always defined. */
  function Classify(newValue: real, oldValue: real): (o: Outcome)
    requires 0.0 <= newValue
    ensures o != First
  {
    if newValue < oldValue then
      if (oldValue - newValue) / oldValue >= SpecialThreshold then SuccessSpecial else Success
    else Warning
  }

  /** The three outcomes in terms of the two readings: no reduction is a
      warning, a cut of at least ten percent of the old reading is special,
      any smaller cut is a plain success. A zero old reading always warns. */
  lemma ClassifyCases(newValue: real, oldValue: real)
    requires 0.0 <= newValue
    ensures Classify(newValue, oldValue) == Warning <==> oldValue <= newValue
    ensures Classify(newValue, oldValue) == SuccessSpecial <==>
              newValue < oldValue && oldValue - newValue >= SpecialThreshold * oldValue
    ensures Classify(newValue, oldValue) == Success <==>
              newValue < oldValue && oldValue - newValue < SpecialThreshold * oldValue
    ensures oldValue == 0.0 ==> Classify(newValue, oldValue) == Warning
  {
    if newValue < oldValue {
      var d := oldValue - newValue;
      var q := d / oldValue;
      assert q * oldValue == d;
      assert (q - SpecialThreshold) * oldValue == d - SpecialThreshold * oldValue;
      if q >= SpecialThreshold {
        MulSign(q - SpecialThreshold, oldValue);
      } else {
        var gap := SpecialThreshold - q;
        MulSign(gap, oldValue);
        assert gap * oldValue == SpecialThreshold * oldValue - d;
      }
    }
  }

  /** The catalogue position the `k`-th reward earned picks. */
  function CatalogueIndex(rewardCount: nat): (i: nat)
    ensures i < |PossibleRewards|
  {
    rewardCount % |PossibleRewards|
  }

  /** The catalogue cycles with period five, and any five consecutive
      small wins earn five different rewards. */
  lemma CatalogueRoundRobin(k: nat, j: nat)
    ensures PossibleRewards[CatalogueIndex(k + |PossibleRewards|)] == PossibleRewards[CatalogueIndex(k)]
    ensures k < j < k + |PossibleRewards| ==> PossibleRewards[CatalogueIndex(j)] != PossibleRewards[CatalogueIndex(k)]
  {
    var n := |PossibleRewards|;
    assert (k + n) % n == k % n;
    if k < j < k + n {
      assert j % n != k % n;
      assert forall a, b :: 0 <= a < b < n ==> PossibleRewards[a].title != PossibleRewards[b].title;
    }
  }

  /** The reward `processComparison` appends: the Amazon coupon for a cut of
      ten percent or more, the catalogue entry at `rewardCount % 5` for a
      smaller cut, and nothing on a warning. */
  function RewardFor(newValue: real, oldValue: real, rewardCount: nat, clock: Clock): (rs: seq<Reward>)
    requires 0.0 <= newValue
    ensures |rs| <= 1
  {
    match Classify(newValue, oldValue)
    case SuccessSpecial => [Instantiate(AmazonReward, "reward-amazon-" + clock.stamp, clock.nowIso)]
    case Success => [Instantiate(PossibleRewards[CatalogueIndex(rewardCount)], "reward-" + clock.stamp, clock.nowIso)]
    case _ => []
  }

  /** Exactly one reward accompanies each success and none a warning; which
      template it carries depends on the outcome. */
  lemma RewardMatchesOutcome(newValue: real, oldValue: real, rewardCount: nat, clock: Clock)
    requires 0.0 <= newValue
    ensures var rs := RewardFor(newValue, oldValue, rewardCount, clock);
      && (|rs| == 0 <==> Classify(newValue, oldValue) == Warning)
      && (Classify(newValue, oldValue) == SuccessSpecial ==>
            |rs| == 1 && Template(rs[0]) == AmazonReward && rs[0].kind == Coupon)
      && (Classify(newValue, oldValue) == Success ==>
            |rs| == 1 && Template(rs[0]) == PossibleRewards[rewardCount % 5])
      && (|rs| == 1 ==> rs[0].date == clock.nowIso)
  {
  }

  /** `!(isNaN(v) || v < 0)`, with `None` standing for `NaN`. */
  predicate ValidReading(v: Option<real>) {
    v.Some? && v.value >= 0.0
  }

  /** What one press of "save" does to the ledger and the reward list. */
  datatype Submission =
    | Rejected
    | Accepted(records: seq<ConsumptionRecord>, outcome: Outcome, reward: seq<Reward>)

  /** `handleSubmit`, given the parsed readings (`None` for `NaN`): reject an
      invalid reading; a new user's two readings become two records compared
      with each other; otherwise the reading becomes one record compared with
      the last one in the history. */
  function Evaluate(history: seq<ConsumptionRecord>, rewardCount: nat, current: Option<real>,
                    previous: Option<real>, clock: Clock): Submission
  {
    if !ValidReading(current) then Rejected
    else if |history| == 0 then
      if !ValidReading(previous) then Rejected
      else
        Accepted([ConsumptionRecord(clock.prevMonthIso, previous.value), ConsumptionRecord(clock.nowIso, current.value)],
                 Classify(current.value, previous.value),
                 RewardFor(current.value, previous.value, rewardCount, clock))
    else
      var last := history[|history| - 1].consumption;
      Accepted([ConsumptionRecord(clock.nowIso, current.value)],
               Classify(current.value, last),
               RewardFor(current.value, last, rewardCount, clock))
  }

  /** A submission is rejected exactly when a reading it needs is `NaN` or
      negative; a new user's previous reading is needed, an existing user's
      is ignored. */
  lemma EvaluateRejects(history: seq<ConsumptionRecord>, rewardCount: nat, current: Option<real>,
                        previous: Option<real>, clock: Clock)
    ensures Evaluate(history, rewardCount, current, previous, clock).Rejected? <==>
      !ValidReading(current) || (|history| == 0 && !ValidReading(previous))
  {
  }

  /** A new user's submission appends the previous month's record, then the
      current one, and compares the two. */
  lemma EvaluateNewUser(rewardCount: nat, cur: real, prev: real, clock: Clock)
    requires 0.0 <= cur && 0.0 <= prev
    ensures var s := Evaluate([], rewardCount, Some(cur), Some(prev), clock);
      && s.Accepted?
      && |s.records| == 2
      && s.records[0].consumption == prev && s.records[0].date == clock.prevMonthIso
      && s.records[1].consumption == cur && s.records[1].date == clock.nowIso
      && s.outcome == Classify(cur, prev)
  {
  }

  /** An existing user's submission appends exactly one record whatever the
      outcome, and compares against the last recorded reading. */
  lemma EvaluateExistingUser(history: seq<ConsumptionRecord>, rewardCount: nat, cur: real,
                             previous: Option<real>, clock: Clock)
    requires |history| > 0 && 0.0 <= cur
    ensures var s := Evaluate(history, rewardCount, Some(cur), previous, clock);
      && s.Accepted?
      && s.records == [ConsumptionRecord(clock.nowIso, cur)]
      && s.outcome == Classify(cur, history[|history| - 1].consumption)
      && (s.outcome == Warning <==> history[|history| - 1].consumption <= cur)
  {
    ClassifyCases(cur, history[|history| - 1].consumption);
  }

  /** A new user reporting 50 then 40 cut consumption by twenty percent and
      earns the Amazon coupon. */
  lemma ScenarioNewUserLargeCut(clock: Clock)
    ensures var s := Evaluate([], 0, Some(40.0), Some(50.0), clock);
      s.Accepted? && |s.records| == 2 && s.outcome == SuccessSpecial
      && |s.reward| == 1 && s.reward[0].kind == Coupon && Template(s.reward[0]) == AmazonReward
  {
    ClassifyCases(40.0, 50.0);
  }

  /** A cut of exactly ten percent (100 to 90) reaches the special branch,
      since the threshold test is `>=`. */
  lemma ScenarioExactlyTenPercent(clock: Clock)
    ensures Evaluate([], 0, Some(90.0), Some(100.0), clock).outcome == SuccessSpecial
  {
    ClassifyCases(90.0, 100.0);
  }

  /** An unchanged reading (95 after 100, 95) warns, earns nothing and still
      becomes the third record. */
  lemma ScenarioUnchangedReading(d0: string, d1: string, clock: Clock)
    ensures var h := [ConsumptionRecord(d0, 100.0), ConsumptionRecord(d1, 95.0)];
      var s := Evaluate(h, 0, Some(95.0), None, clock);
      s.Accepted? && s.outcome == Warning && s.reward == [] && |h + s.records| == 3
  {
  }

  /** The quick-stats figures. */
  datatype Stats = Stats(lastMonth: real, savings: real, savingsPercentage: real)

  function LastReading(history: seq<ConsumptionRecord>): real {
    if |history| > 0 then history[|history| - 1].consumption else 0.0
  }

  function SecondLastReading(history: seq<ConsumptionRecord>): real {
    if |history| > 1 then history[|history| - 2].consumption else 0.0
  }

  /** The `stats` memo: the last reading (0 when there is none), and the
      savings against the reading before it, in units and in percent, both 0
      unless that earlier reading is positive. */
  function ComputeStats(history: seq<ConsumptionRecord>): Stats {
    var last := LastReading(history);
    var prev := SecondLastReading(history);
    if prev > 0.0 then
      var savings := prev - last;
      Stats(last, savings, (savings / prev) * 100.0)
    else Stats(last, 0.0, 0.0)
  }

  /** The stats look only at the last two records: older history does not
      change them. */
  lemma StatsReadLastTwo(older: seq<ConsumptionRecord>, history: seq<ConsumptionRecord>)
    requires |history| >= 2
    ensures ComputeStats(older + history) == ComputeStats(history)
  {
    var h := older + history;
    assert h[|h| - 1] == history[|history| - 1];
    assert h[|h| - 2] == history[|history| - 2];
  }

  /** With non-negative readings the savings percentage is at most 100, and
      it is positive exactly when the last reading is lower than the one
      before it. */
  lemma StatsBounds(history: seq<ConsumptionRecord>)
    requires forall i :: 0 <= i < |history| ==> history[i].consumption >= 0.0
    ensures ComputeStats(history).savingsPercentage <= 100.0
    ensures ComputeStats(history).savingsPercentage > 0.0 <==>
              |history| >= 2 && 0.0 <= LastReading(history) < SecondLastReading(history)
    ensures ComputeStats(history).savings > 0.0 <==> ComputeStats(history).savingsPercentage > 0.0
  {
    var last := LastReading(history);
    var prev := SecondLastReading(history);
    if prev > 0.0 {
      var s := prev - last;
      assert s <= prev;
      assert s / prev <= 1.0;
      assert s > 0.0 <==> s / prev > 0.0;
    }
  }

  /** After a submission, the dashboard agrees with the result card: the
      savings are positive exactly when the outcome was a success, and the
      percentage reaches ten exactly when it was the special one. */
  lemma StatsAgreeWithOutcome(history: seq<ConsumptionRecord>, record: ConsumptionRecord)
    requires |history| > 0 && 0.0 <= record.consumption
    ensures var o := Classify(record.consumption, history[|history| - 1].consumption);
      var st := ComputeStats(history + [record]);
      && (st.savings > 0.0 <==> o != Warning)
      && (st.savingsPercentage >= 10.0 <==> o == SuccessSpecial)
  {
    var h := history + [record];
    var prev := history[|history| - 1].consumption;
    var cur := record.consumption;
    assert h[|h| - 1] == record && h[|h| - 2] == history[|history| - 1];
    ClassifyCases(cur, prev);
    if prev > 0.0 {
      var s := prev - cur;
      assert s / prev * prev == s;
      assert (s / prev) * 100.0 >= 10.0 <==> s / prev >= 0.1;
    }
  }

  datatype Greeting = GreetingFirst | GreetingSuccess | GreetingWarning

  /** `MonthlyGreeting`: a first-month greeting with fewer than two records,
      otherwise success when the savings percentage is not negative. */
  function MonthlyGreeting(history: seq<ConsumptionRecord>): Greeting {
    if |history| < 2 then GreetingFirst
    else if ComputeStats(history).savingsPercentage >= 0.0 then GreetingSuccess
    else GreetingWarning
  }

  /** The greeting warns exactly when the last reading rose above a positive
      reading before it; a zero earlier reading always greets with success. */
  lemma GreetingWarnsOnRise(history: seq<ConsumptionRecord>)
    ensures MonthlyGreeting(history) == GreetingWarning <==>
      |history| >= 2 && SecondLastReading(history) > 0.0 && LastReading(history) > SecondLastReading(history)
  {
    var prev := SecondLastReading(history);
    if |history| >= 2 && prev > 0.0 {
      var s := prev - LastReading(history);
      assert s < 0.0 <==> s / prev < 0.0;
    }
  }

  /** `(dayOfMonth - 1) % tips.length`; `getDate()` is between 1 and 31,
      so the operand is never negative and JavaScript's `%` agrees with
      Dafny's. */
  function TipIndex(dayOfMonth: int, count: nat): (i: nat)
    requires 1 <= dayOfMonth <= 31 && count > 0
    ensures i < count
  {
    (dayOfMonth - 1) % count
  }

  /** The tips rotate one step a day: the next day of the month shows the
      next tip, wrapping round after the last, so with more than one tip two
      consecutive days never show the same one. */
  lemma TipRotation(dayOfMonth: int, count: nat)
    requires 1 <= dayOfMonth < 31 && count > 0
    ensures TipIndex(dayOfMonth + 1, count) == (TipIndex(dayOfMonth, count) + 1) % count
    ensures count > 1 ==> TipIndex(dayOfMonth + 1, count) != TipIndex(dayOfMonth, count)
  {
    var d := dayOfMonth - 1;
    var q, r := d / count, d % count;
    assert TipIndex(dayOfMonth, count) == r;
    if r + 1 < count {
      DivModUnique(d + 1, count, q, r + 1);
      DivModUnique(r + 1, count, 0, r + 1);
    } else {
      assert (q + 1) * count == q * count + count;
      DivModUnique(d + 1, count, q + 1, 0);
      DivModUnique(r + 1, count, 1, 0);
    }
  }

  /** The day's tip list as cached in storage, keyed by the ISO date. */
  datatype TipsCache = TipsCache(date: string, tips: seq<string>)

  /** What the daily-tip effect leaves: the tip shown (none when `null`) and
      the cache. */
  datatype TipOfDay = TipOfDay(dailyTip: Option<string>, cache: Option<TipsCache>)

  /** The cached list, when it is for today and not empty. */
  function CachedTips(cache: Option<TipsCache>, today: string): seq<string> {
    if cache.Some? && cache.value.date == today && |cache.value.tips| > 0 then cache.value.tips else []
  }

  /** The daily-tip effect: use today's cached tips or else the freshly
      generated ones (`generated`, the tip service's answer, is consulted only
      then, and a non-empty answer is cached for today), and show the tip at
      `TipIndex`. A new user, or a failed generation, shows no tip. */
  function DailyTip(isNewUser: bool, cache: Option<TipsCache>, today: string, dayOfMonth: int,
                    generated: Result<seq<string>>): TipOfDay
    requires 1 <= dayOfMonth <= 31
  {
    if isNewUser then TipOfDay(None, cache)
    else
      var cached := CachedTips(cache, today);
      if |cached| > 0 then TipOfDay(Some(cached[TipIndex(dayOfMonth, |cached|)]), cache)
      else match generated
        case Err(_) => TipOfDay(None, cache)
        case Ok(newTips) =>
          if |newTips| > 0 then TipOfDay(Some(newTips[TipIndex(dayOfMonth, |newTips|)]), Some(TipsCache(today, newTips)))
          else TipOfDay(None, cache)
  }

  /** With today's tips cached, the tip service's answer is not used and the
      cache is kept; the tip shown is one of the cached ones. */
  lemma CachedTipsSkipGeneration(cache: Option<TipsCache>, today: string, dayOfMonth: int,
                                 g1: Result<seq<string>>, g2: Result<seq<string>>)
    requires 1 <= dayOfMonth <= 31
    requires |CachedTips(cache, today)| > 0
    ensures DailyTip(false, cache, today, dayOfMonth, g1) == DailyTip(false, cache, today, dayOfMonth, g2)
    ensures DailyTip(false, cache, today, dayOfMonth, g1).cache == cache
    ensures DailyTip(false, cache, today, dayOfMonth, g1).dailyTip.Some?
    ensures DailyTip(false, cache, today, dayOfMonth, g1).dailyTip.value in cache.value.tips
  {
  }

  /** The cache changes only when the tips were generated afresh, and then
      holds today's date and exactly those tips; the tip shown is always one
      of the tips in use, namely the one at `TipIndex` for the day: from
      today's cache when there is one, else from a fresh non-empty answer,
      which is then cached. */
  lemma DailyTipCacheRule(isNewUser: bool, cache: Option<TipsCache>, today: string, dayOfMonth: int,
                          generated: Result<seq<string>>)
    requires 1 <= dayOfMonth <= 31
    ensures var r := DailyTip(isNewUser, cache, today, dayOfMonth, generated);
      && (r.cache != cache ==>
            !isNewUser && |CachedTips(cache, today)| == 0 && generated.Ok? && |generated.value| > 0
            && r.cache == Some(TipsCache(today, generated.value)))
      && (r.dailyTip.Some? ==>
            && !isNewUser
            && (r.dailyTip.value in CachedTips(cache, today) || (generated.Ok? && r.dailyTip.value in generated.value)))
      && (isNewUser ==> r.dailyTip.None?)
      && (var c := CachedTips(cache, today);
          && (!isNewUser && |c| > 0 ==> r.dailyTip == Some(c[TipIndex(dayOfMonth, |c|)]))
          && (!isNewUser && |c| == 0 && generated.Ok? && |generated.value| > 0 ==>
                && r.cache == Some(TipsCache(today, generated.value))
                && r.dailyTip == Some(generated.value[TipIndex(dayOfMonth, |generated.value|)])))
  {
  }

  /** When the same tip list is in use on two consecutive days of the month
      (cached under each day's date), the second day shows the tip after the
      first day's, wrapping round after the last. */
  lemma DailyTipAdvances(cache1: Option<TipsCache>, today1: string, cache2: Option<TipsCache>, today2: string,
                         dayOfMonth: int, g1: Result<seq<string>>, g2: Result<seq<string>>)
    requires 1 <= dayOfMonth < 31
    requires |CachedTips(cache1, today1)| > 0 && CachedTips(cache2, today2) == CachedTips(cache1, today1)
    ensures var tips := CachedTips(cache1, today1);
      var i := TipIndex(dayOfMonth, |tips|);
      && DailyTip(false, cache1, today1, dayOfMonth, g1).dailyTip == Some(tips[i])
      && DailyTip(false, cache2, today2, dayOfMonth + 1, g2).dailyTip == Some(tips[(i + 1) % |tips|])
  {
    TipRotation(dayOfMonth, |CachedTips(cache1, today1)|);
  }

  /** The home view's own state: the two input fields and the result card. */
  class HomeScreen {
    var currentConsumption: string
    var previousConsumption: string
    var result: Option<Outcome>

    constructor ()
      ensures currentConsumption == "" && previousConsumption == "" && result == None
    {
      currentConsumption, previousConsumption, result := "", "", None;
    }

    /** `processComparison`: set the result card and append the earned
        reward, if any, through the application's `handleAddReward`. */
    method ProcessComparison(app: App.AppState, newValue: real, oldValue: real, clock: Clock)
      requires app.Valid() && 0.0 <= newValue
      modifies this, app
      ensures app.Valid()
      ensures result == Some(Classify(newValue, oldValue))
      ensures currentConsumption == old(currentConsumption) && previousConsumption == old(previousConsumption)
      ensures app.rewards == old(app.rewards) + RewardFor(newValue, oldValue, |old(app.rewards)|, clock)
      ensures app.rewardStore == App.Persist(old(app.rewardStore), App.RewardsKeyOf(app.activeProfile), app.rewards)
      ensures app.history == old(app.history) && app.historyStore == old(app.historyStore)
      ensures app.users == old(app.users) && app.activeProfile == old(app.activeProfile)
      ensures app.activePage == old(app.activePage)
    {
      var earned := RewardFor(newValue, oldValue, |app.rewards|, clock);
      result := Some(Classify(newValue, oldValue));
      if |earned| == 1 {
        app.AddReward(earned[0]);
        assert [earned[0]] == earned;
      } else if app.activeProfile.Some? {
        assert app.rewardStore == app.rewardStore[App.RewardsKey(app.activeProfile.value.id) := app.rewards];
      }
    }

    /** `handleSubmit`, given what `parseFloat` made of the two input fields:
        an invalid reading returns at once and changes nothing; an accepted
        one appends its records and reward as `Evaluate` says, sets the result
        card and clears the inputs. */
    method HandleSubmit(app: App.AppState, current: Option<real>, previous: Option<real>, clock: Clock)
      requires app.Valid()
      modifies this, app
      ensures app.Valid()
      ensures var s := Evaluate(old(app.history), |old(app.rewards)|, current, previous, clock);
        && (s.Rejected? ==> unchanged(this) && unchanged(app))
        && (s.Accepted? ==>
              && app.history == old(app.history) + s.records
              && app.rewards == old(app.rewards) + s.reward
              && result == Some(s.outcome)
              && currentConsumption == "" && previousConsumption == ""
              && app.historyStore == App.Persist(old(app.historyStore), App.HistoryKeyOf(app.activeProfile), app.history)
              && app.rewardStore == App.Persist(old(app.rewardStore), App.RewardsKeyOf(app.activeProfile), app.rewards)
              && app.users == old(app.users) && app.activeProfile == old(app.activeProfile)
              && app.activePage == old(app.activePage))
    {
      if !ValidReading(current) {
        return;
      }
      var value := current.value;
      if |app.history| == 0 {
        if !ValidReading(previous) {
          return;
        }
        var prevValue := previous.value;
        var newRecords := [ConsumptionRecord(clock.prevMonthIso, prevValue), ConsumptionRecord(clock.nowIso, value)];
        app.AddRecords(App.Many(newRecords));
        ProcessComparison(app, value, prevValue, clock);
      } else {
        var newRecord := ConsumptionRecord(clock.nowIso, value);
        var lastMonthRecord := app.history[|app.history| - 1];
        ProcessComparison(app, value, lastMonthRecord.consumption, clock);
        app.AddRecords(App.One(newRecord));
      }
      currentConsumption := "";
      previousConsumption := "";
    }
  }
}
