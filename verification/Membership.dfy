/**
 * The arithmetic of membership expiry, after membership.utils.ts: renewals that add up, and the value an upgrade
 * carries over as bonus days of the new plan. Rates are exact, days are whole ones.
 */
module Membership {
  import opened Basics
  import opened Tables

  const MS_PER_DAY: int := 24 * 60 * 60 * 1000

  /** Price in rupees. */
  datatype Plan = Plan(price: real, durationDays: int)

  function DaysBetween(start: Time, end: Time): int {
    Max(0, (end - start + MS_PER_DAY - 1) / MS_PER_DAY)
  }

  function AddDays(from: Time, days: int): Time { from + days * MS_PER_DAY }

  function PlanDailyRate(plan: Plan): real
    requires plan.durationDays > 0
  {
    plan.price / plan.durationDays as real
  }

  datatype Upgrade = Upgrade(expiresAt: Time, upgradeCreditDays: Option<int>, upgradeCreditValue: Option<real>)

  ghost predicate Sellable(plan: Plan) { plan.price > 0.0 && plan.durationDays > 0 }

  /** What the remaining days of the current plan are worth at its own rate. */
  function RemainingValue(now: Time, expiresAt: Time, plan: Plan): real
    requires plan.durationDays > 0
  {
    DaysBetween(now, expiresAt) as real * PlanDailyRate(plan)
  }

  /** The whole days of the new plan that value buys. */
  function BonusDays(value: real, newPlan: Plan): int
    requires newPlan.durationDays > 0 && newPlan.price > 0.0
  {
    assert PlanDailyRate(newPlan) > 0.0;
    (value / PlanDailyRate(newPlan)).Floor
  }

  /** Remaining value of the current plan becomes days of the new one, on top of its full duration. */
  function CalculateUpgradeExpiry(now: Time, newPlan: Plan, current: Option<(Time, Plan)>): Upgrade
    requires newPlan.durationDays > 0 && newPlan.price > 0.0
    requires current.Some? ==> current.value.1.durationDays > 0
  {
    if current.Some? && current.value.0 > now then
      var value := RemainingValue(now, current.value.0, current.value.1);
      var bonus := BonusDays(value, newPlan);
      Upgrade(AddDays(now, newPlan.durationDays + bonus),
              if bonus > 0 then Some(bonus) else None,
              Some((value * 100.0 + 0.5).Floor as real / 100.0))
    else Upgrade(AddDays(now, newPlan.durationDays), None, None)
  }

  /** A renewed membership runs on from its expiry, a lapsed one from today. */
  function CalculateRenewalExpiry(now: Time, plan: Plan, currentExpiresAt: Option<Time>): Time {
    var base := if currentExpiresAt.Some? && currentExpiresAt.value > now then currentExpiresAt.value else now;
    AddDays(base, plan.durationDays)
  }

  lemma FloorOfQuotient(v: real, r: real)
    requires r > 0.0
    ensures var q := (v / r).Floor; q as real * r <= v < (q + 1) as real * r
  {
    var x := v / r;
    assert x * r == v;
    BetweenMultiples(v, r, x, x.Floor as real, (x.Floor + 1) as real);
  }

  lemma BetweenMultiples(v: real, r: real, x: real, lo: real, hi: real)
    requires r > 0.0 && x * r == v && lo <= x < hi
    ensures lo * r <= v < hi * r
  {
    MulMono(lo, x, r);
    MulStrict(x, hi, r);
  }

  lemma MulMono(a: real, b: real, r: real)
    requires a <= b && r >= 0.0
    ensures a * r <= b * r
  {
    assert (b - a) * r >= 0.0;
  }

  lemma MulStrict(a: real, b: real, r: real)
    requires a < b && r > 0.0
    ensures a * r < b * r
  {
    assert (b - a) * r > 0.0;
  }

  /** The credited days cover the real remaining time, by less than a day too much. */
  lemma CreditOvercountsUnderADay(now: Time, expiresAt: Time)
    requires expiresAt > now
    ensures 0 <= DaysBetween(now, expiresAt) * MS_PER_DAY - (expiresAt - now) < MS_PER_DAY
  {}

  /** The bonus days are worth at most the credited value, and less than one new-plan day below it. */
  lemma UpgradeKeepsValue(now: Time, newPlan: Plan, current: (Time, Plan))
    requires Sellable(newPlan) && Sellable(current.1) && current.0 > now
    ensures var u := CalculateUpgradeExpiry(now, newPlan, Some(current));
            var bonus := if u.upgradeCreditDays.Some? then u.upgradeCreditDays.value else 0;
            var value := RemainingValue(now, current.0, current.1);
            && bonus >= 0
            && u.expiresAt == AddDays(now, newPlan.durationDays + bonus)
            && bonus as real * PlanDailyRate(newPlan) <= value < (bonus + 1) as real * PlanDailyRate(newPlan)
            && u.upgradeCreditDays != Some(0) && u.upgradeCreditValue.Some?
            && -0.5 < 100.0 * (u.upgradeCreditValue.value - value) <= 0.5
  {
    var value := RemainingValue(now, current.0, current.1);
    FloorOfQuotient(value, PlanDailyRate(newPlan));
    var days := DaysBetween(now, current.0);
    MulMono(0.0, days as real, PlanDailyRate(current.1));
    assert value / PlanDailyRate(newPlan) >= 0.0;
  }

  lemma CrossMultiply(a: real, rate: real, length: real, price: real, b: real, rate': real, length': real, price': real)
    requires length > 0.0 && length' > 0.0 && rate == price / length && rate' == price' / length'
    ensures a * rate <= b * rate' ==> a * price * length' <= b * price' * length
    ensures a * rate > b * rate' ==> a * price * length' > b * price' * length
  {
    assert rate * length == price && rate' * length' == price';
    assert a * price * length' == (a * rate) * (length * length') by { assert a * (rate * length) * length' == (a * rate) * (length * length'); }
    assert b * price' * length == (b * rate') * (length * length') by { assert b * (rate' * length') * length == (b * rate') * (length * length'); }
    if a * rate <= b * rate' {
      MulMono(a * rate, b * rate', length * length');
    } else {
      MulStrict(b * rate', a * rate, length * length');
    }
  }

  /**
   * In prices and lengths alone: the bonus days at the new plan's price per day cost no more than the started
   * days left cost at the old one's, one day more would, and the new term runs from now.
   */
  lemma UpgradeTradesDaysFairly(now: Time, newPlan: Plan, current: (Time, Plan), days: int)
    requires Sellable(newPlan) && Sellable(current.1) && current.0 > now
    requires (days - 1) * 86_400_000 < current.0 - now <= days * 86_400_000
    ensures var u := CalculateUpgradeExpiry(now, newPlan, Some(current));
            var bonus := if u.upgradeCreditDays.Some? then u.upgradeCreditDays.value else 0;
            var paid := days as real * current.1.price * newPlan.durationDays as real;
            && bonus as real * newPlan.price * current.1.durationDays as real <= paid
            && paid < (bonus + 1) as real * newPlan.price * current.1.durationDays as real
            && u.expiresAt == now + (newPlan.durationDays + bonus) * 86_400_000
  {
    UpgradeKeepsValue(now, newPlan, current);
    assert days == DaysBetween(now, current.0);
    var u := CalculateUpgradeExpiry(now, newPlan, Some(current));
    var bonus := if u.upgradeCreditDays.Some? then u.upgradeCreditDays.value else 0;
    CrossMultiply(bonus as real, PlanDailyRate(newPlan), newPlan.durationDays as real, newPlan.price,
                  days as real, PlanDailyRate(current.1), current.1.durationDays as real, current.1.price);
    CrossMultiply((bonus + 1) as real, PlanDailyRate(newPlan), newPlan.durationDays as real, newPlan.price,
                  days as real, PlanDailyRate(current.1), current.1.durationDays as real, current.1.price);
  }

  /** Without a membership that still runs there is nothing to carry over: the new plan runs its length from now. */
  lemma UpgradeFromNothing(now: Time, newPlan: Plan, current: Option<(Time, Plan)>)
    requires Sellable(newPlan) && (current.Some? ==> current.value.1.durationDays > 0 && current.value.0 <= now)
    ensures CalculateUpgradeExpiry(now, newPlan, current) == Upgrade(now + newPlan.durationDays * 86_400_000, None, None)
  {}

  /** Renewals, each made at its own instant. */
  function Renewals(plan: Plan, expiresAt: Time, instants: seq<Time>): Time {
    if |instants| == 0 then expiresAt
    else CalculateRenewalExpiry(instants[|instants| - 1], plan, Some(Renewals(plan, expiresAt, instants[..|instants| - 1])))
  }

  /** Every renewal is made before the membership lapses. */
  ghost predicate BeforeLapse(plan: Plan, expiresAt: Time, instants: seq<Time>) {
    forall i | 0 <= i < |instants| :: instants[i] <= Renewals(plan, expiresAt, instants[..i])
  }

  /** n renewals made before lapse end n full durations after the starting expiry, whenever they are made. */
  lemma {:induction false} RenewalsAddUp(plan: Plan, expiresAt: Time, instants: seq<Time>)
    requires BeforeLapse(plan, expiresAt, instants)
    ensures Renewals(plan, expiresAt, instants) == AddDays(expiresAt, |instants| * plan.durationDays)
  {
    if |instants| > 0 {
      var front := instants[..|instants| - 1];
      forall i | 0 <= i < |front| ensures front[i] <= Renewals(plan, expiresAt, front[..i]) {
        assert front[..i] == instants[..i] && front[i] == instants[i];
      }
      RenewalsAddUp(plan, expiresAt, front);
      assert instants[|instants| - 1] <= Renewals(plan, expiresAt, instants[..|instants| - 1]);
      DistributeDays(|front|, plan.durationDays);
    }
  }

  lemma DistributeDays(n: int, d: int)
    ensures n * d * MS_PER_DAY + d * MS_PER_DAY == (n + 1) * d * MS_PER_DAY
  {
    assert (n + 1) * d == n * d + d;
  }

  /** A renewal never moves the expiry back, and a lapsed one starts from now. */
  lemma RenewalNeverShortens(now: Time, plan: Plan, expiresAt: Time)
    requires plan.durationDays > 0
    ensures CalculateRenewalExpiry(now, plan, Some(expiresAt)) > expiresAt
    ensures CalculateRenewalExpiry(now, plan, Some(expiresAt)) >= AddDays(now, plan.durationDays)
    ensures CalculateRenewalExpiry(now, plan, Some(expiresAt)) - plan.durationDays * 86_400_000 == Max(now, expiresAt)
    ensures CalculateRenewalExpiry(now, plan, None) == now + plan.durationDays * 86_400_000
  {}
}
