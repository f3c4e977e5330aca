/** The parking fee of a visit: 24-hour chunks from the entry, each charged by the rule of its local day. */
module FeeCalculator {
  import opened Arithmetic
  import opened Common
  import opened TimeUtils

  datatype DayType = Weekday | Holiday

  datatype Rule = Rule(
    dayType: DayType, basicMinutes: int, basicFee: int, unitMinutes: int, unitFee: int, dailyMaxFee: int,
    freeMinutes: int)

  datatype FeeError = ExitNotAfterEntry | RuleMissing | RuleInvalid

  /** One entry of the breakdown, with the chunk it charges. */
  datatype Charge = Charge(start: int, end: int, dayType: DayType, minutes: int, fee: int)

  datatype CalculatedFee = CalculatedFee(total: int, breakdown: seq<Charge>)

  /** The calendar: extra holidays as Seoul day numbers, and the weekdays that count as holidays (Monday is 0). */
  datatype Calendar = Calendar(holidays: set<int>, holidayWeekdays: set<int>)

  /** Day 0, 1970-01-01, was a Thursday. */
  function WeekdayOf(day: int): int {
    (day + 3) % 7
  }

  function ResolveDayType(at: int, calendar: Calendar): DayType {
    if WeekdayOf(SeoulDay(at)) in calendar.holidayWeekdays || SeoulDay(at) in calendar.holidays
    then Holiday else Weekday
  }

  /** `rules_by_day_type`: a later rule replaces an earlier one. */
  function RuleFor(rules: seq<Rule>, dayType: DayType): Option<Rule> {
    if rules == [] then None
    else if rules[|rules| - 1].dayType == dayType then Some(rules[|rules| - 1])
    else RuleFor(rules[..|rules| - 1], dayType)
  }

  function Ceiling(a: int, b: int): int
    requires b > 0
  {
    (a + b - 1) / b
  }

  function Least(a: int, b: int): int {
    if a < b then a else b
  }

  function AtLeast(floor: int, a: int): int {
    if a < floor then floor else a
  }

  predicate ValidRule(rule: Rule) {
    rule.basicMinutes > 0 && rule.unitMinutes > 0 && rule.basicFee >= 0 && rule.unitFee >= 0 && rule.dailyMaxFee >= 0
  }

  function Capped(fee: int, rule: Rule): int {
    if rule.dailyMaxFee > 0 then Least(fee, rule.dailyMaxFee) else fee
  }

  function Units(minutes: int, rule: Rule): int
    requires ValidRule(rule)
  {
    Ceiling(minutes, rule.unitMinutes) * rule.unitFee
  }

  /** What a chunk costs when the visit is not free. */
  function ChunkFee(rule: Rule, first: bool, minutes: int): int
    requires ValidRule(rule)
  {
    if first then Capped(rule.basicFee + Units(AtLeast(0, minutes - rule.basicMinutes), rule), rule)
    else Capped(Units(minutes, rule), rule)
  }

  /** A visit with its two rules; `free` says that it lies inside the grace period. */
  datatype Visit = Visit(entry: int, exit: int, weekday: Rule, holiday: Rule, calendar: Calendar, free: bool)

  function RuleAt(v: Visit, at: int): Rule {
    if ResolveDayType(at, v.calendar) == Holiday then v.holiday else v.weekday
  }

  function ChunkEnd(v: Visit, start: int): int {
    Least(start + DAY, v.exit)
  }

  function MinutesOf(start: int, end: int): int {
    AtLeast(1, Ceiling(end - start, MINUTE))
  }

  function ChargeAt(v: Visit, start: int): Charge
    requires ValidRule(RuleAt(v, start))
  {
    var end, rule := ChunkEnd(v, start), RuleAt(v, start);
    var minutes := MinutesOf(start, end);
    Charge(start, end, rule.dayType, minutes, if v.free then 0 else ChunkFee(rule, start == v.entry, minutes))
  }

  /** The charges from `start` on; None when a chunk's rule is not valid. */
  function Charges(v: Visit, start: int): Option<seq<Charge>>
    decreases v.exit - start
  {
    if start >= v.exit then Some([])
    else if !ValidRule(RuleAt(v, start)) then None
    else
      var rest := Charges(v, ChunkEnd(v, start));
      if rest.None? then None else Some([ChargeAt(v, start)] + rest.value)
  }

  function Total(charges: seq<Charge>): int {
    if charges == [] then 0 else charges[0].fee + Total(charges[1..])
  }

  function TotalMinutes(charges: seq<Charge>): int {
    if charges == [] then 0 else charges[0].minutes + TotalMinutes(charges[1..])
  }

  /** The sum of the daily maxima of the charged days. */
  function TotalMaxima(v: Visit, charges: seq<Charge>): int {
    if charges == [] then 0 else RuleAt(v, charges[0].start).dailyMaxFee + TotalMaxima(v, charges[1..])
  }

  /** The visit the arguments describe, or the error of the checks before the loop. */
  function VisitOf(entry: int, exit: int, rules: seq<Rule>, calendar: Calendar,
      grace: Option<int>): Result<Visit, FeeError> {
    if exit <= entry then Err(ExitNotAfterEntry)
    else if RuleFor(rules, Weekday).None? || RuleFor(rules, Holiday).None? then Err(RuleMissing)
    else
      var v := Visit(entry, exit, RuleFor(rules, Weekday).value, RuleFor(rules, Holiday).value, calendar, false);
      var freeMinutes := if grace.Some? then grace.value else RuleAt(v, entry).freeMinutes;
      Ok(v.(free := exit - entry <= freeMinutes * MINUTE))
  }

  function Fee(entry: int, exit: int, rules: seq<Rule>, calendar: Calendar,
      grace: Option<int>): Result<CalculatedFee, FeeError> {
    var v := VisitOf(entry, exit, rules, calendar, grace);
    if v.Err? then Err(v.error)
    else
      var charges := Charges(v.value, entry);
      if charges.None? then Err(RuleInvalid) else Ok(CalculatedFee(Total(charges.value), charges.value))
  }

  lemma {:induction false} TotalAppend(charges: seq<Charge>, more: seq<Charge>)
    ensures Total(charges + more) == Total(charges) + Total(more)
  {
    if charges == [] {
      assert charges + more == more;
    } else {
      assert (charges + more)[1..] == charges[1..] + more;
      TotalAppend(charges[1..], more);
    }
  }

  /** The charges made so far and the ones to come. */
  function Continued(breakdown: seq<Charge>, rest: Option<seq<Charge>>): Option<seq<Charge>> {
    if rest.None? then None else Some(breakdown + rest.value)
  }

  lemma ContinuedAppend(breakdown: seq<Charge>, charge: Charge, rest: seq<Charge>)
    ensures breakdown + ([charge] + rest) == (breakdown + [charge]) + rest
    ensures Total(breakdown + [charge]) == Total(breakdown) + charge.fee
  {
    TotalAppend(breakdown, [charge]);
  }

  /** The branches of one loop round. */
  method ApplyRule(rule: Rule, free: bool, first: bool, minutes: int) returns (fee: int)
    requires ValidRule(rule) && minutes >= 1
    ensures fee == if free then 0 else ChunkFee(rule, first, minutes)
  {
    if free {
      fee := 0;
    } else if first {
      fee := rule.basicFee;
      var remaining := AtLeast(0, minutes - rule.basicMinutes);
      if remaining != 0 {
        fee := fee + Ceiling(remaining, AtLeast(1, rule.unitMinutes)) * rule.unitFee;
      } else {
        NoUnits(rule);
      }
      if rule.dailyMaxFee > 0 {
        fee := Least(fee, rule.dailyMaxFee);
      }
    } else {
      fee := Ceiling(minutes, rule.unitMinutes) * rule.unitFee;
      if rule.dailyMaxFee > 0 {
        fee := Least(fee, rule.dailyMaxFee);
      }
    }
  }

  /** One loop round: the chunk at `start` and its charge. */
  method ChargeChunk(v: Visit, start: int) returns (charge: Charge)
    requires start < v.exit && ValidRule(RuleAt(v, start))
    ensures charge == ChargeAt(v, start)
  {
    var end, rule := Least(start + DAY, v.exit), RuleAt(v, start);
    var minutes := AtLeast(1, Ceiling(end - start, MINUTE));
    var fee := ApplyRule(rule, v.free, start == v.entry, minutes);
    charge := Charge(start, end, rule.dayType, minutes, fee);
  }

  // ----- prices -----

  /** The rule of a day type is the last one listed. */
  ghost predicate IsRuleOf(rule: Rule, dayType: DayType, rules: seq<Rule>) {
    exists j :: 0 <= j < |rules| && rules[j] == rule && rule.dayType == dayType
                && forall m :: j < m < |rules| ==> rules[m].dayType != dayType
  }

  /** The local day of an instant is a listed holiday or a weekday that counts as one (day 0 was a Thursday). */
  ghost predicate OnHoliday(at: int, calendar: Calendar) {
    var day := (at + 9 * HOUR) / (24 * HOUR);
    day in calendar.holidays || (day + 3) % 7 in calendar.holidayWeekdays
  }

  /** The rule of the local day of an instant. */
  ghost predicate IsRuleAt(rule: Rule, at: int, rules: seq<Rule>, calendar: Calendar) {
    IsRuleOf(rule, if OnHoliday(at, calendar) then Holiday else Weekday, rules)
  }

  /** `n` whole units cover the minutes, and one fewer does not. */
  ghost predicate UnitsCover(n: int, minutes: int, unit: int) {
    (n - 1) * unit < minutes <= n * unit
  }

  /** The first chunk costs the basic fee and the units beyond its time, a later one its units. */
  ghost predicate IsFullPrice(price: int, rule: Rule, first: bool, minutes: int) {
    if !first then exists n :: UnitsCover(n, minutes, rule.unitMinutes) && price == n * rule.unitFee
    else if minutes <= rule.basicMinutes then price == rule.basicFee
    else exists n :: UnitsCover(n, minutes - rule.basicMinutes, rule.unitMinutes)
                       && price == rule.basicFee + n * rule.unitFee
  }

  /** A positive daily maximum cuts the price. */
  ghost predicate IsPrice(fee: int, rule: Rule, first: bool, minutes: int) {
    exists price :: IsFullPrice(price, rule, first, minutes)
                    && fee == if rule.dailyMaxFee > 0 && price > rule.dailyMaxFee then rule.dailyMaxFee else price
  }

  /** The stay is inside the grace period that the caller or the rule of the entry grants. */
  ghost predicate IsFree(entry: int, exit: int, rules: seq<Rule>, calendar: Calendar, grace: Option<int>) {
    if grace.Some? then exit - entry <= grace.value * MINUTE
    else exists rule :: IsRuleAt(rule, entry, rules, calendar) && exit - entry <= rule.freeMinutes * MINUTE
  }

  /** Entry `k` of the breakdown charges the `k`-th 24 hours by the rule of the local day in which they begin. */
  ghost predicate IsChargeOf(
      c: Charge, k: int, entry: int, exit: int, rules: seq<Rule>, calendar: Calendar, free: bool)
  {
    && c.start == entry + k * DAY && c.start < exit
    && c.end == (if c.start + DAY <= exit then c.start + DAY else exit)
    && UnitsCover(c.minutes, c.end - c.start, MINUTE)
    && exists rule :: IsRuleAt(rule, c.start, rules, calendar) && c.dayType == rule.dayType
                      && if free then c.fee == 0 else IsPrice(c.fee, rule, k == 0, c.minutes)
  }

  /** The breakdown covers the stay, and the total is its sum. */
  ghost predicate Explains(fee: CalculatedFee, entry: int, exit: int, rules: seq<Rule>, calendar: Calendar,
      free: bool) {
    && entry + (|fee.breakdown| - 1) * DAY < exit <= entry + |fee.breakdown| * DAY
    && (forall k :: 0 <= k < |fee.breakdown| ==> IsChargeOf(fee.breakdown[k], k, entry, exit, rules, calendar, free))
    && fee.total == Total(fee.breakdown)
  }

  /** Some 24 hours of the stay begin on a day whose rule is not valid. */
  ghost predicate TouchesInvalidRule(entry: int, exit: int, rules: seq<Rule>, calendar: Calendar) {
    exists k: nat :: InvalidFrom(entry + k * DAY, exit, rules, calendar)
  }

  ghost predicate InvalidFrom(start: int, exit: int, rules: seq<Rule>, calendar: Calendar) {
    && start < exit
    && exists rule ::
         && IsRuleAt(rule, start, rules, calendar)
         && (rule.basicMinutes <= 0 || rule.unitMinutes <= 0 || rule.basicFee < 0 || rule.unitFee < 0
              || rule.dailyMaxFee < 0)
  }

  lemma CeilingCovers(a: int, b: int)
    requires b > 0
    ensures UnitsCover(Ceiling(a, b), a, b)
  {
    var x := a + b - 1;
    assert x == b * (x / b) + x % b;
    assert (x / b - 1) * b == b * (x / b) - b;
  }

  lemma {:induction false} RuleForIsLast(rules: seq<Rule>, dayType: DayType)
    ensures RuleFor(rules, dayType).Some? ==> IsRuleOf(RuleFor(rules, dayType).value, dayType, rules)
    ensures RuleFor(rules, dayType).None? ==> forall j :: 0 <= j < |rules| ==> rules[j].dayType != dayType
  {
    if rules != [] {
      var front := rules[..|rules| - 1];
      RuleForIsLast(front, dayType);
      if rules[|rules| - 1].dayType != dayType && RuleFor(front, dayType).Some? {
        var rule := RuleFor(front, dayType).value;
        var j :| 0 <= j < |front| && front[j] == rule && forall m :: j < m < |front| ==> front[m].dayType != dayType;
        assert rules[j] == rule;
      }
    }
  }

  lemma OneRule(a: Rule, b: Rule, dayType: DayType, rules: seq<Rule>)
    requires IsRuleOf(a, dayType, rules) && IsRuleOf(b, dayType, rules)
    ensures a == b
  {
  }

  lemma ChunkFeeIsPrice(rule: Rule, first: bool, minutes: int)
    requires ValidRule(rule) && minutes >= 1
    ensures IsPrice(ChunkFee(rule, first, minutes), rule, first, minutes)
  {
    var rest := AtLeast(0, minutes - rule.basicMinutes);
    CeilingCovers(rest, rule.unitMinutes);
    CeilingCovers(minutes, rule.unitMinutes);
    NoUnits(rule);
    var price := if first then rule.basicFee + Units(rest, rule) else Units(minutes, rule);
    assert IsFullPrice(price, rule, first, minutes);
  }

  /** The rules of a visit are those of the arguments. */
  ghost predicate VisitRules(v: Visit, rules: seq<Rule>) {
    IsRuleOf(v.weekday, Weekday, rules) && IsRuleOf(v.holiday, Holiday, rules)
  }

  lemma ChargeIsExplained(v: Visit, k: nat, rules: seq<Rule>)
    requires VisitRules(v, rules) && v.entry + k * DAY < v.exit && ValidRule(RuleAt(v, v.entry + k * DAY))
    ensures IsChargeOf(ChargeAt(v, v.entry + k * DAY), k, v.entry, v.exit, rules, v.calendar, v.free)
  {
    var start := v.entry + k * DAY;
    var c, rule := ChargeAt(v, start), RuleAt(v, start);
    CeilingCovers(c.end - c.start, MINUTE);
    DayOfMinutes(c.end - c.start);
    assert IsRuleAt(rule, start, rules, v.calendar);
    if !v.free {
      ChunkFeeIsPrice(rule, start == v.entry, c.minutes);
    }
  }

  /** The charges from `start` reach the exit. */
  lemma {:induction false} ChargesReachExit(v: Visit, start: int)
    requires start < v.exit && Charges(v, start).Some?
    ensures var n := |Charges(v, start).value|; n >= 1 && start + (n - 1) * DAY < v.exit <= start + n * DAY
    decreases v.exit - start
  {
    var end := ChunkEnd(v, start);
    if end < v.exit {
      ChargesReachExit(v, end);
    }
  }

  /** The `k`-th of them is the charge of the `k`-th 24 hours. */
  lemma {:induction false} ChargeOfDay(v: Visit, start: int, k: nat)
    requires start < v.exit && Charges(v, start).Some? && k < |Charges(v, start).value|
    ensures start + k * DAY < v.exit && ValidRule(RuleAt(v, start + k * DAY))
    ensures Charges(v, start).value[k] == ChargeAt(v, start + k * DAY)
    decreases k
  {
    if k > 0 {
      var end := ChunkEnd(v, start);
      assert Charges(v, start).value[k] == Charges(v, end).value[k - 1];
      ChargeOfDay(v, end, k - 1);
      assert start + k * DAY == end + (k - 1) * DAY;
    }
  }

  lemma FeeIsExplained(v: Visit, rules: seq<Rule>, charges: seq<Charge>)
    requires VisitRules(v, rules) && v.entry < v.exit && Charges(v, v.entry) == Some(charges)
    ensures Explains(CalculatedFee(Total(charges), charges), v.entry, v.exit, rules, v.calendar, v.free)
  {
    ChargesReachExit(v, v.entry);
    forall k | 0 <= k < |charges| ensures IsChargeOf(charges[k], k, v.entry, v.exit, rules, v.calendar, v.free) {
      ChargeOfDay(v, v.entry, k);
      ChargeIsExplained(v, k, rules);
    }
  }

  lemma InvalidRuleFrom(v: Visit, rules: seq<Rule>, start: int)
    requires VisitRules(v, rules)
    ensures InvalidFrom(start, v.exit, rules, v.calendar) <==> start < v.exit && !ValidRule(RuleAt(v, start))
  {
    assert IsRuleAt(RuleAt(v, start), start, rules, v.calendar);
    forall rule | IsRuleAt(rule, start, rules, v.calendar) ensures rule == RuleAt(v, start) {
      OneRule(rule, RuleAt(v, start), if OnHoliday(start, v.calendar) then Holiday else Weekday, rules);
    }
  }

  lemma InvalidRuleIsTouched(v: Visit, rules: seq<Rule>)
    requires VisitRules(v, rules)
    ensures Charges(v, v.entry).None? <==> TouchesInvalidRule(v.entry, v.exit, rules, v.calendar)
  {
    ChargesDefinedIff(v, v.entry);
    forall k: nat
      ensures InvalidFrom(v.entry + k * DAY, v.exit, rules, v.calendar)
              <==> v.entry + k * DAY < v.exit && !ValidRule(RuleAt(v, v.entry + k * DAY))
    {
      InvalidRuleFrom(v, rules, v.entry + k * DAY);
    }
  }

  lemma FreeVisit(entry: int, exit: int, rules: seq<Rule>, calendar: Calendar, grace: Option<int>, v: Visit)
    requires VisitOf(entry, exit, rules, calendar, grace) == Ok(v)
    ensures VisitRules(v, rules) && (v.free <==> IsFree(entry, exit, rules, calendar, grace))
    ensures v.entry == entry && v.exit == exit && v.calendar == calendar && entry < exit
  {
    RuleForIsLast(rules, Weekday);
    RuleForIsLast(rules, Holiday);
    var dayType := if OnHoliday(entry, calendar) then Holiday else Weekday;
    assert IsRuleAt(RuleAt(v, entry), entry, rules, calendar);
    forall rule | IsRuleAt(rule, entry, rules, calendar) ensures rule == RuleAt(v, entry) {
      OneRule(rule, RuleAt(v, entry), dayType, rules);
    }
  }

  /** The result in terms of the arguments. */
  lemma FeeMeaning(entry: int, exit: int, rules: seq<Rule>, calendar: Calendar, grace: Option<int>)
    ensures var result := Fee(entry, exit, rules, calendar, grace);
            && (result == Err(ExitNotAfterEntry) <==> exit <= entry)
            && (result == Err(RuleMissing) <==> entry < exit && (!HasRule(rules, Weekday) || !HasRule(rules, Holiday)))
            && (result == Err(RuleInvalid) <==>
                  && entry < exit && HasRule(rules, Weekday) && HasRule(rules, Holiday)
                  && TouchesInvalidRule(entry, exit, rules, calendar))
            && var free := IsFree(entry, exit, rules, calendar, grace);
               (result.Ok? ==> Explains(result.value, entry, exit, rules, calendar, free))
  {
    RuleForIsLast(rules, Weekday);
    RuleForIsLast(rules, Holiday);
    var v := VisitOf(entry, exit, rules, calendar, grace);
    if v.Ok? {
      FreeVisit(entry, exit, rules, calendar, grace, v.value);
      InvalidRuleIsTouched(v.value, rules);
      if Charges(v.value, entry).Some? {
        FeeIsExplained(v.value, rules, Charges(v.value, entry).value);
      }
    }
  }

  ghost predicate HasRule(rules: seq<Rule>, dayType: DayType) {
    exists j :: 0 <= j < |rules| && rules[j].dayType == dayType
  }

  /** `calculate_total_fee` for times that carry a zone. */
  method CalculateTotalFee(entry: int, exit: int, rules: seq<Rule>, calendar: Calendar, grace: Option<int>)
    returns (result: Result<CalculatedFee, FeeError>)
    ensures result == Fee(entry, exit, rules, calendar, grace)
    ensures result == Err(ExitNotAfterEntry) <==> exit <= entry
    ensures result == Err(RuleMissing) <==> entry < exit && (!HasRule(rules, Weekday) || !HasRule(rules, Holiday))
    ensures result == Err(RuleInvalid) <==>
              && entry < exit && HasRule(rules, Weekday) && HasRule(rules, Holiday)
              && TouchesInvalidRule(entry, exit, rules, calendar)
    ensures result.Ok? ==>
              Explains(result.value, entry, exit, rules, calendar, IsFree(entry, exit, rules, calendar, grace))
  {
    FeeMeaning(entry, exit, rules, calendar, grace);
    if exit <= entry {
      return Err(ExitNotAfterEntry);
    }
    var weekday, holiday := RuleFor(rules, Weekday), RuleFor(rules, Holiday);
    if weekday.None? || holiday.None? {
      return Err(RuleMissing);
    }
    var firstRule := if ResolveDayType(entry, calendar) == Holiday then holiday.value else weekday.value;
    var freeMinutes := if grace.Some? then grace.value else firstRule.freeMinutes;
    var v := Visit(entry, exit, weekday.value, holiday.value, calendar, exit - entry <= freeMinutes * MINUTE);
    result := ChargeVisit(v);
  }

  /** The loop over the chunks. */
  method ChargeVisit(v: Visit) returns (result: Result<CalculatedFee, FeeError>)
    ensures var charges := Charges(v, v.entry);
            result == if charges.None? then Err(RuleInvalid) else Ok(CalculatedFee(Total(charges.value), charges.value))
  {
    var total, breakdown, start := 0, [], v.entry;
    assert Charges(v, start).Some? ==> [] + Charges(v, start).value == Charges(v, start).value;
    while start < v.exit
      invariant Charges(v, v.entry) == Continued(breakdown, Charges(v, start))
      invariant total == Total(breakdown)
      decreases v.exit - start
    {
      var rule := RuleAt(v, start);
      if rule.basicMinutes <= 0 || rule.unitMinutes <= 0 || rule.basicFee < 0 || rule.unitFee < 0
          || rule.dailyMaxFee < 0 {
        return Err(RuleInvalid);
      }
      var charge := ChargeChunk(v, start);
      ghost var rest := Charges(v, charge.end);
      ContinuedAppend(breakdown, charge, if rest.Some? then rest.value else []);
      total := total + charge.fee;
      breakdown := breakdown + [charge];
      start := charge.end;
    }
    assert breakdown + [] == breakdown;
    return Ok(CalculatedFee(total, breakdown));
  }

  lemma NoUnits(rule: Rule)
    requires ValidRule(rule)
    ensures Units(0, rule) == 0
  {
    assert (rule.unitMinutes - 1) / rule.unitMinutes == 0;
  }

  // ----- the chunks tile the stay -----

  /** Consecutive chunks from `start` to `exit`, each 24 hours long but the last. */
  ghost predicate Tiles(charges: seq<Charge>, start: int, exit: int) {
    if charges == [] then start >= exit
    else
      && charges[0].start == start < exit
      && charges[0].end == Least(start + DAY, exit)
      && Tiles(charges[1..], charges[0].end, exit)
  }

  /** Whole days add whole minutes. */
  lemma DayOfMinutes(left: int)
    ensures Ceiling(left + DAY, MINUTE) == Ceiling(left, MINUTE) + 1440 && Ceiling(DAY, MINUTE) == 1440
    ensures left > 0 ==> Ceiling(left, MINUTE) >= 1
  {
  }

  /** The 24-hour chunks tile the stay and their minutes add up to the whole stay, rounded up once. */
  lemma {:induction false} ChunksTileTheStay(v: Visit, start: int)
    requires start <= v.exit && Charges(v, start).Some?
    ensures var charges := Charges(v, start).value;
            Tiles(charges, start, v.exit) && TotalMinutes(charges) == Ceiling(v.exit - start, MINUTE)
    decreases v.exit - start
  {
    if start < v.exit {
      var end, rest := ChunkEnd(v, start), Charges(v, ChunkEnd(v, start)).value;
      ChunksTileTheStay(v, end);
      DayOfMinutes(v.exit - start - DAY);
      DayOfMinutes(v.exit - start);
      assert ([ChargeAt(v, start)] + rest)[1..] == rest;
    }
  }

  // ----- the total -----

  lemma UnitsGrow(rule: Rule, minutes: int, more: int)
    requires ValidRule(rule) && 0 <= minutes <= more
    ensures 0 <= Units(minutes, rule) <= Units(more, rule)
  {
    var a, b := Ceiling(minutes, rule.unitMinutes), Ceiling(more, rule.unitMinutes);
    QuotientGrows(minutes + rule.unitMinutes - 1, more + rule.unitMinutes - 1, rule.unitMinutes);
    assert a * rule.unitFee <= b * rule.unitFee;
  }

  lemma QuotientOrder(d: int, p: int, q: int, r: int, t: int)
    requires d > 0 && 0 <= r && t < d && d * p + r <= d * q + t
    ensures p <= q
  {
    ProductGap(d, p - q);
    assert d * (p - q) == d * p - d * q;
  }

  lemma QuotientGrows(x: int, y: int, d: int)
    requires d > 0 && 0 <= x <= y
    ensures 0 <= x / d <= y / d
  {
    QuotientOrder(d, x / d, y / d, x % d, y % d);
    QuotientOrder(d, 0, x / d, 0, x % d);
  }

  /** A chunk costs nothing less for a longer time, never less than nothing and never more than a positive maximum. */
  lemma ChunkFeeGrows(rule: Rule, first: bool, minutes: int, more: int)
    requires ValidRule(rule) && 0 <= minutes <= more
    ensures 0 <= ChunkFee(rule, first, minutes) <= ChunkFee(rule, first, more)
    ensures rule.dailyMaxFee > 0 ==> ChunkFee(rule, first, minutes) <= rule.dailyMaxFee
  {
    UnitsGrow(rule, minutes, more);
    UnitsGrow(rule, AtLeast(0, minutes - rule.basicMinutes), AtLeast(0, more - rule.basicMinutes));
  }

  lemma {:induction false} TotalIsNotNegative(v: Visit, start: int)
    requires Charges(v, start).Some?
    ensures Total(Charges(v, start).value) >= 0
    decreases v.exit - start
  {
    if start < v.exit {
      var charge, rest := ChargeAt(v, start), Charges(v, ChunkEnd(v, start)).value;
      ChunkFeeGrows(RuleAt(v, start), start == v.entry, charge.minutes, charge.minutes);
      TotalIsNotNegative(v, ChunkEnd(v, start));
      assert ([charge] + rest)[1..] == rest;
    }
  }

  /** A visit inside the grace period costs nothing. */
  lemma {:induction false} FreeVisitCostsNothing(v: Visit, start: int)
    requires v.free && Charges(v, start).Some?
    ensures Total(Charges(v, start).value) == 0
    decreases v.exit - start
  {
    if start < v.exit {
      var rest := Charges(v, ChunkEnd(v, start)).value;
      FreeVisitCostsNothing(v, ChunkEnd(v, start));
      assert ([ChargeAt(v, start)] + rest)[1..] == rest;
    }
  }

  /** With positive maxima, the total is at most their sum over the charged days. */
  lemma {:induction false} TotalIsCapped(v: Visit, start: int)
    requires v.weekday.dailyMaxFee > 0 && v.holiday.dailyMaxFee > 0 && Charges(v, start).Some?
    ensures Total(Charges(v, start).value) <= TotalMaxima(v, Charges(v, start).value)
    decreases v.exit - start
  {
    if start < v.exit {
      var charge, rest := ChargeAt(v, start), Charges(v, ChunkEnd(v, start)).value;
      ChunkFeeGrows(RuleAt(v, start), start == v.entry, charge.minutes, charge.minutes);
      TotalIsCapped(v, ChunkEnd(v, start));
      assert ([charge] + rest)[1..] == rest;
    }
  }

  lemma {:induction false} LaterExitKeepsRules(v: Visit, later: Visit, start: int)
    requires later == v.(exit := later.exit) && v.exit <= later.exit && Charges(later, start).Some?
    ensures Charges(v, start).Some?
    decreases v.exit - start
  {
    if start < v.exit && ChunkEnd(v, start) < v.exit {
      LaterExitKeepsRules(v, later, ChunkEnd(v, start));
    }
  }

  /** A later exit never costs less. */
  lemma {:induction false} TotalGrows(v: Visit, later: Visit, start: int)
    requires later == v.(exit := later.exit) && v.exit <= later.exit && !v.free
    requires Charges(v, start).Some? && Charges(later, start).Some?
    ensures Total(Charges(v, start).value) <= Total(Charges(later, start).value)
    decreases v.exit - start
  {
    TotalIsNotNegative(later, start);
    if start < v.exit {
      var end, laterEnd := ChunkEnd(v, start), ChunkEnd(later, start);
      var rest, laterRest := Charges(v, end).value, Charges(later, laterEnd).value;
      var charge, laterCharge := ChargeAt(v, start), ChargeAt(later, start);
      assert ([charge] + rest)[1..] == rest && ([laterCharge] + laterRest)[1..] == laterRest;
      QuotientGrows(end - start + MINUTE - 1, laterEnd - start + MINUTE - 1, MINUTE);
      ChunkFeeGrows(RuleAt(v, start), start == v.entry, charge.minutes, laterCharge.minutes);
      if end < v.exit {
        TotalGrows(v, later, end);
      } else {
        TotalIsNotNegative(later, laterEnd);
      }
    }
  }

  // ----- the whole calculation -----

  /** It fails exactly for an exit not after the entry, a missing rule, or an invalid rule of a day the stay touches. */
  lemma FeeIsDefinedIff(entry: int, exit: int, rules: seq<Rule>, calendar: Calendar, grace: Option<int>)
    ensures Fee(entry, exit, rules, calendar, grace).Ok? <==>
              && entry < exit && RuleFor(rules, Weekday).Some? && RuleFor(rules, Holiday).Some?
              && forall k: nat :: entry + k * DAY < exit ==>
                   ValidRule(RuleFor(rules, ResolveDayType(entry + k * DAY, calendar)).value)
  {
    var v := VisitOf(entry, exit, rules, calendar, grace);
    if v.Ok? {
      ChargesDefinedIff(v.value, entry);
      forall k: nat ensures RuleAt(v.value, entry + k * DAY)
          == RuleFor(rules, ResolveDayType(entry + k * DAY, calendar)).value {
      }
    }
  }

  lemma {:induction false} ChargesDefinedIff(v: Visit, start: int)
    ensures Charges(v, start).Some?
            <==> forall k: nat :: start + k * DAY < v.exit ==> ValidRule(RuleAt(v, start + k * DAY))
    decreases v.exit - start
  {
    if start < v.exit {
      var end := ChunkEnd(v, start);
      ChargesDefinedIff(v, end);
      if Charges(v, start).Some? {
        forall k: nat | start + k * DAY < v.exit ensures ValidRule(RuleAt(v, start + k * DAY)) {
          if k > 0 {
            assert start + k * DAY == end + (k - 1) * DAY;
          }
        }
      } else if ValidRule(RuleAt(v, start)) {
        var k: nat :| end + k * DAY < v.exit && !ValidRule(RuleAt(v, end + k * DAY));
        assert end + k * DAY == start + (k + 1) * DAY;
      } else {
        assert start + 0 * DAY == start;
      }
    }
  }

  /** The facts a driver relies on: the breakdown explains the total, the grace period is free, the maxima cap it. */
  lemma FeeIsFair(entry: int, exit: int, rules: seq<Rule>, calendar: Calendar, grace: Option<int>, v: Visit)
    requires VisitOf(entry, exit, rules, calendar, grace) == Ok(v) && Fee(entry, exit, rules, calendar, grace).Ok?
    ensures var fee := Fee(entry, exit, rules, calendar, grace).value;
            && Tiles(fee.breakdown, entry, exit) && TotalMinutes(fee.breakdown) == Ceiling(exit - entry, MINUTE)
            && fee.total == Total(fee.breakdown) >= 0
            && (v.free ==> fee.total == 0)
            && (v.weekday.dailyMaxFee > 0 && v.holiday.dailyMaxFee > 0 ==> fee.total <= TotalMaxima(v, fee.breakdown))
  {
    ChunksTileTheStay(v, entry);
    TotalIsNotNegative(v, entry);
    if v.free {
      FreeVisitCostsNothing(v, entry);
    }
    if v.weekday.dailyMaxFee > 0 && v.holiday.dailyMaxFee > 0 {
      TotalIsCapped(v, entry);
    }
  }

  /** Leaving later never costs less. */
  lemma FeeNeverDecreases(entry: int, exit: int, later: int, rules: seq<Rule>, calendar: Calendar, grace: Option<int>)
    requires entry < exit <= later && Fee(entry, later, rules, calendar, grace).Ok?
    ensures Fee(entry, exit, rules, calendar, grace).Ok?
    ensures Fee(entry, exit, rules, calendar, grace).value.total
            <= Fee(entry, later, rules, calendar, grace).value.total
  {
    var v, w := VisitOf(entry, exit, rules, calendar, grace).value, VisitOf(entry, later, rules, calendar, grace).value;
    SameRulesCharge(w, w.(free := v.free), entry);
    LaterExitKeepsRules(v, w.(free := v.free), entry);
    TotalIsNotNegative(w, entry);
    if v.free {
      FreeVisitCostsNothing(v, entry);
    } else {
      TotalGrows(v, w, entry);
    }
  }

  lemma {:induction false} SameRulesCharge(v: Visit, w: Visit, start: int)
    requires w == v.(free := w.free)
    ensures Charges(v, start).Some? <==> Charges(w, start).Some?
    decreases v.exit - start
  {
    if start < v.exit {
      SameRulesCharge(v, w, ChunkEnd(v, start));
    }
  }
}
