/**
 The operating modes: what setpoint each mode asks for, which schedule period is
 in force, and how the battery-save mode drains the battery towards sunrise.
 Powers and states of charge are reals; times are nanoseconds.
 */
module Modes {
  import opened Bytes

  const MINUTE: int := 60_000_000_000

  datatype OperatingMode = Manual | ZeroGrid | TOU | Solar | BatterySave | Scheduled | Unknown

  datatype ScheduleTime = Sunrise(offset: int) | Sunset(offset: int) | Absolute(hour: int, minute: int)

  datatype SchedulePeriod = SchedulePeriod(
    name: string, startTime: ScheduleTime, endTime: ScheduleTime, days: seq<int>, mode: OperatingMode, priority: int)

  datatype TOUAction = Charge | Discharge | Hold

  datatype TOUPeriod = TOUPeriod(name: string, startHour: int, endHour: int, days: seq<int>, action: TOUAction)

  datatype SolarConfig = SolarConfig(zeroExport: bool, exportLimit: real, minSOC: real, maxSOC: real,
      preferSelfUse: bool)

  datatype BatterySaveConfig = BatterySaveConfig(minSOC: real, targetSOC: real)

  /** What is read from the clock; `saveUntil` is the sunrise of the battery-save mode. */
  datatype Clock = Clock(now: int, midnight: int, hour: int, weekday: int, sunrise: int, sunset: int, saveUntil: int)

  datatype Settings = Settings(
    mode: OperatingMode, overrideEnabled: bool, overrideValue: real,
    simulatedLoadEnabled: bool, simulatedLoadValue: real,
    maxPower: real, batteryCapacity: real,
    touPeriods: seq<TOUPeriod>, solar: SolarConfig, batterySave: BatterySaveConfig,
    scheduleEnabled: bool, periods: seq<SchedulePeriod>, soc: real)

  // ----- The schedule

  function Resolve(t: ScheduleTime, c: Clock): int {
    match t
    case Sunrise(offset) => c.sunrise + offset * MINUTE
    case Sunset(offset) => c.sunset + offset * MINUTE
    case Absolute(hour, minute) => c.midnight + (hour * 60 + minute) * MINUTE
  }

  predicate OnDay(days: seq<int>, c: Clock) {
    days == [] || c.weekday in days
  }

  /** A period that ends no later than it starts runs over midnight; both ends are open. */
  predicate Active(p: SchedulePeriod, c: Clock) {
    var start, end := Resolve(p.startTime, c), Resolve(p.endTime, c);
    OnDay(p.days, c) && if end <= start then c.now > start || c.now < end else start < c.now < end
  }

  /** When a period is active, with its two ends on the clock: so many minutes of 60,000,000,000 ns from sunrise or
      sunset, or from midnight; no days listed means every day, and both ends are open. */
  lemma ActiveOnTheClock(p: SchedulePeriod, c: Clock, start: int, end: int)
    requires start == match p.startTime
                      case Sunrise(m) => c.sunrise + m * 60_000_000_000
                      case Sunset(m) => c.sunset + m * 60_000_000_000
                      case Absolute(h, m) => c.midnight + h * 3_600_000_000_000 + m * 60_000_000_000
    requires end == match p.endTime
                    case Sunrise(m) => c.sunrise + m * 60_000_000_000
                    case Sunset(m) => c.sunset + m * 60_000_000_000
                    case Absolute(h, m) => c.midnight + h * 3_600_000_000_000 + m * 60_000_000_000
    ensures Active(p, c) <==>
              && (p.days == [] || c.weekday in p.days)
              && (if start < end then start < c.now && c.now < end else c.now > start || c.now < end)
  {
  }

  /** The period in force among the first `n`, found by one pass from the front. */
  function InForce(periods: seq<SchedulePeriod>, c: Clock, n: nat): (best: Option<nat>)
    requires n <= |periods|
    ensures best.Some? ==> best.value < n
  {
    if n == 0 then None
    else
      var before := InForce(periods, c, n - 1);
      if Active(periods[n - 1], c) && periods[n - 1].priority > PriorityOf(periods, before) then Some(n - 1) else before
  }

  function PriorityOf(periods: seq<SchedulePeriod>, best: Option<nat>): int
    requires best.Some? ==> best.value < |periods|
  {
    if best.None? then -1 else periods[best.value].priority
  }

  /** Period `i` is in force by right: it is active, of non-negative priority, no active
      period has a greater one, and none listed before it has the same. */
  ghost predicate BestOf(periods: seq<SchedulePeriod>, c: Clock, n: nat, i: nat)
    requires n <= |periods|
  {
    && i < n && Active(periods[i], c) && periods[i].priority >= 0
    && (forall j :: 0 <= j < n && Active(periods[j], c) ==> periods[j].priority <= periods[i].priority)
    && (forall j :: 0 <= j < i && Active(periods[j], c) ==> periods[j].priority < periods[i].priority)
  }

  /** The earliest-listed active period of the greatest priority is in force; none is in
      force exactly when every active one has a negative priority. */
  lemma {:induction false} ScheduleChoice(periods: seq<SchedulePeriod>, c: Clock, n: nat)
    requires n <= |periods|
    ensures forall i: nat :: InForce(periods, c, n) == Some(i) <==> BestOf(periods, c, n, i)
    ensures InForce(periods, c, n) == None
            <==> forall j :: 0 <= j < n && Active(periods[j], c) ==> periods[j].priority < 0
  {
    if n > 0 {
      ScheduleChoice(periods, c, n - 1);
      var best := InForce(periods, c, n);
      if best.Some? {
        assert BestOf(periods, c, n, best.value);
      }
    }
  }

  /** A negative priority hides a period even when it is the only one and active. */
  lemma NegativePriorityIsNeverInForce(c: Clock)
    ensures exists p :: Active(p, c) && InForce([p], c, 1) == None
  {
    var s := (c.now - c.sunrise) / MINUTE - 1;
    var p := SchedulePeriod("", Sunrise(s), Sunrise(s + 3), [], Solar, -1);
    assert Active(p, c);
    assert InForce([p], c, 0) == None;
  }

  /** Swapping two different end points gives the complement, except at the two moments themselves. */
  lemma OvernightIsComplement(p: SchedulePeriod, c: Clock)
    requires OnDay(p.days, c) && Resolve(p.startTime, c) != Resolve(p.endTime, c)
    ensures var q := p.(startTime := p.endTime, endTime := p.startTime);
            Active(q, c) == !Active(p, c) <==> c.now != Resolve(p.startTime, c) && c.now != Resolve(p.endTime, c)
  {
  }

  // ----- Time of use

  /** The first listed period of this hour and day, from `i` on. */
  function TouInForce(periods: seq<TOUPeriod>, c: Clock, i: nat): (r: Option<nat>)
    requires i <= |periods|
    ensures r.Some? ==>
              && i <= r.value < |periods|
              && var p := periods[r.value]; p.startHour <= c.hour < p.endHour && c.weekday in p.days
    ensures forall j :: i <= j < (if r.None? then |periods| else r.value) ==>
              !(periods[j].startHour <= c.hour < periods[j].endHour && c.weekday in periods[j].days)
    decreases |periods| - i
  {
    if i == |periods| then None
    else if TouMatches(periods[i], c) then Some(i)
    else TouInForce(periods, c, i + 1)
  }

  predicate TouMatches(p: TOUPeriod, c: Clock) {
    p.startHour <= c.hour < p.endHour && c.weekday in p.days
  }

  function TouWanted(s: Settings, c: Clock): real {
    var best := TouInForce(s.touPeriods, c, 0);
    if best.None? then 0.0
    else match s.touPeriods[best.value].action
      case Charge => s.maxPower
      case Discharge => -s.maxPower
      case Hold => 0.0
  }

  function TouSetpoint(s: Settings, c: Clock): real {
    var w := TouWanted(s, c);
    if s.soc >= 100.0 && w > 0.0 then 0.0
    else if s.soc <= s.batterySave.minSOC && w < 0.0 then 0.0
    else w
  }

  /** The period that decides: its hours and days match and none listed before it does. */
  ghost predicate Decides(periods: seq<TOUPeriod>, c: Clock, i: nat) {
    && i < |periods| && periods[i].startHour <= c.hour < periods[i].endHour && c.weekday in periods[i].days
    && forall j :: 0 <= j < i ==>
         !(periods[j].startHour <= c.hour < periods[j].endHour && c.weekday in periods[j].days)
  }

  /** Full charge exactly in a charging period below 100 percent, full discharge exactly in
      a discharging period above the minimum, and nothing else. */
  lemma TouFollowsThePeriod(s: Settings, c: Clock)
    requires s.maxPower > 0.0
    ensures TouSetpoint(s, c) == s.maxPower <==>
              s.soc < 100.0 && exists i: nat :: Decides(s.touPeriods, c, i) && s.touPeriods[i].action == Charge
    ensures TouSetpoint(s, c) == -s.maxPower <==>
              && s.soc > s.batterySave.minSOC
              && exists i: nat :: Decides(s.touPeriods, c, i) && s.touPeriods[i].action == Discharge
    ensures TouSetpoint(s, c) in {s.maxPower, -s.maxPower, 0.0}
  {
    var best := TouInForce(s.touPeriods, c, 0);
    if best.Some? {
      assert Decides(s.touPeriods, c, best.value);
    }
  }

  // ----- Solar

  function SolarWanted(cfg: SolarConfig, grid: real): real {
    if grid < 0.0 then
      if cfg.zeroExport then -grid
      else if cfg.exportLimit > 0.0 && grid < -cfg.exportLimit then -grid - cfg.exportLimit
      else 0.0
    else if grid > 50.0 && cfg.preferSelfUse then -grid
    else 0.0
  }

  function SolarSetpoint(s: Settings, grid: real): real {
    if s.soc <= s.solar.minSOC then
      if grid < 0.0 then if -grid < s.maxPower then -grid else s.maxPower else 0.0
    else if s.soc >= s.solar.maxSOC then 0.0
    else Clamp(SolarWanted(s.solar, grid), -s.maxPower, s.maxPower)
  }

  /** All cases of the solar mode in numbers, in the order they are asked about. */
  lemma SolarInNumbers(s: Settings, grid: real)
    requires s.maxPower >= 0.0
    ensures SolarSetpoint(s, grid) ==
            if s.soc <= s.solar.minSOC then
              if grid >= 0.0 then 0.0 else if -grid >= s.maxPower then s.maxPower else -grid
            else if s.soc >= s.solar.maxSOC then 0.0
            else
              var wanted := if grid < 0.0 && s.solar.zeroExport then -grid
                            else if grid < 0.0 && s.solar.exportLimit > 0.0 && grid < -s.solar.exportLimit
                            then -grid - s.solar.exportLimit
                            else if grid > 50.0 && s.solar.preferSelfUse then -grid
                            else 0.0;
              if wanted > s.maxPower then s.maxPower else if wanted < -s.maxPower then -s.maxPower else wanted
  {
  }

  /** The solar mode never asks for more than the grid power it answers, and never in
      the same direction; it discharges only above the minimum state of charge, for
      self-use, and charges only on export. */
  lemma SolarAnswersTheGrid(s: Settings, grid: real)
    requires s.maxPower >= 0.0
    ensures var w := SolarSetpoint(s, grid);
            && (grid >= 0.0 ==> -grid <= w <= 0.0)
            && (grid < 0.0 ==> 0.0 <= w <= -grid)
            && (w < 0.0 ==> s.solar.minSOC < s.soc < s.solar.maxSOC && s.solar.preferSelfUse && grid > 50.0)
            && (w > 0.0 ==> s.soc <= s.solar.minSOC || s.soc < s.solar.maxSOC)
  {
  }

  /** With zero export, all the excess is charged, up to the power limit, unless the battery is full. */
  lemma ZeroExportTakesAllExcess(s: Settings, grid: real)
    requires s.maxPower >= 0.0 && grid < 0.0
    ensures s.solar.zeroExport && s.soc < s.solar.maxSOC ==>
              grid + SolarSetpoint(s, grid) == if -grid <= s.maxPower then 0.0 else grid + s.maxPower
    ensures !s.solar.zeroExport && s.solar.minSOC < s.soc < s.solar.maxSOC && s.solar.exportLimit > 0.0
            && -grid - s.solar.exportLimit <= s.maxPower ==>
              grid + SolarSetpoint(s, grid) >= -s.solar.exportLimit
  {
  }

  /** With self-use preferred and some charge left, an import of more than 50 W is covered, up to the power limit. */
  lemma SelfUseCoversImport(s: Settings, grid: real)
    requires s.maxPower >= 0.0 && grid > 50.0 && s.solar.minSOC < s.soc < s.solar.maxSOC
    ensures grid + SolarSetpoint(s, grid) ==
            if !s.solar.preferSelfUse then grid else if grid <= s.maxPower then 0.0 else grid - s.maxPower
  {
  }

  // ----- Battery save

  /** Whole minutes until sunrise, `None` once it has come. */
  function MinutesLeft(c: Clock): (m: Option<nat>)
    ensures m.Some? ==> c.now + m.value * MINUTE <= c.saveUntil < c.now + (m.value + 1) * MINUTE
  {
    if c.saveUntil > c.now then Some((c.saveUntil - c.now) / MINUTE) else None
  }

  function HoursFor(minutes: nat): (h: real)
    ensures h > 0.0
  {
    if minutes == 0 then 0.1 else minutes as real / 60.0
  }

  /** The power that takes `gap` percent out of the battery in so many hours. */
  function DischargeFor(gap: real, capacity: real, hours: real): real
    requires hours > 0.0
  {
    gap / 100.0 * capacity / hours * 1000.0
  }

  function SaveSetpoint(s: Settings, c: Clock): real {
    var m := MinutesLeft(c);
    var gap := s.soc - s.batterySave.targetSOC;
    if m.None? || gap <= 0.0 then 0.0
    else -Clamp(DischargeFor(gap, s.batteryCapacity, HoursFor(m.value)), 0.0, s.maxPower)
  }

  /** The battery-save mode in numbers: with `m` whole minutes left the power that takes the charge above the target
      out in that time, or in 6 minutes when none is left, held to the power limit; nothing at or below the
      target, and nothing once the sun is up. */
  lemma SaveInNumbers(s: Settings, c: Clock, m: int, minutes: real)
    requires s.maxPower >= 0.0 && s.batteryCapacity >= 0.0
    requires m == (c.saveUntil - c.now) / 60_000_000_000 && minutes == if m == 0 then 6.0 else m as real
    ensures c.saveUntil <= c.now || s.soc <= s.batterySave.targetSOC ==> SaveSetpoint(s, c) == 0.0
    ensures c.saveUntil > c.now && s.soc > s.batterySave.targetSOC ==>
              var w := (s.soc - s.batterySave.targetSOC) / minutes * s.batteryCapacity * 600.0;
              SaveSetpoint(s, c) == -(if w > s.maxPower then s.maxPower else w)
  {
    if c.saveUntil > c.now && s.soc > s.batterySave.targetSOC {
      var gap := s.soc - s.batterySave.targetSOC;
      DischargeIsShare(gap, s.batteryCapacity, m);
      hide DischargeFor, HoursFor;
      ShareNotNegative(gap, minutes, s.batteryCapacity);
    }
  }

  lemma ShareNotNegative(gap: real, minutes: real, capacity: real)
    requires gap > 0.0 && minutes > 0.0 && capacity >= 0.0
    ensures gap / minutes * capacity * 600.0 >= 0.0
  {
    var share := gap / minutes;
    assert share * minutes == gap;
    assert share > 0.0;
    assert share * capacity >= 0.0;
  }

  /** Percent of the capacity that `watts` take out of the battery in `minutes`. */
  function Drained(watts: real, capacity: real, minutes: real): real
    requires capacity > 0.0
  {
    watts / 1000.0 * (minutes / 60.0) / capacity * 100.0
  }

  /** The state of charge after the battery has followed the setpoint for `minutes`. */
  function Followed(s: Settings, c: Clock, minutes: real): Settings
    requires s.batteryCapacity > 0.0
  {
    s.(soc := s.soc - Drained(-SaveSetpoint(s, c), s.batteryCapacity, minutes))
  }

  /** The time over which the current gap is spread: the minutes left, or 6 in the last minute. */
  function Horizon(minutes: nat): (h: real)
    ensures h >= 1.0
  {
    if minutes == 0 then 6.0 else minutes as real
  }

  /** The power for `gap` is the same as a constant multiple of its share of the horizon. */
  lemma DischargeIsShare(gap: real, capacity: real, m: nat)
    ensures DischargeFor(gap, capacity, HoursFor(m)) == gap / Horizon(m) * capacity * 600.0
  {
    var h, horizon := HoursFor(m), Horizon(m);
    assert h * 60.0 == horizon;
    hide HoursFor, Horizon;
    var share := gap / horizon;
    assert share * h * 60.0 == gap by {
      assert share * horizon == gap;
    }
    Reorder(share, capacity, h);
    QuotientIs(gap / 100.0 * capacity, h, share * capacity * 0.6);
  }

  /** Draining at the power for `gap` takes out the share of `gap` that `minutes` is of the horizon. */
  lemma DrainedShare(gap: real, capacity: real, m: nat, minutes: real)
    requires capacity > 0.0
    ensures Drained(DischargeFor(gap, capacity, HoursFor(m)), capacity, minutes) == gap / Horizon(m) * minutes
  {
    var share := gap / Horizon(m);
    DischargeIsShare(gap, capacity, m);
    var w := share * capacity * 600.0;
    QuotientIs(w / 1000.0 * (minutes / 60.0), capacity, share * minutes * 0.01) by {
      Reorder(share, capacity, minutes);
    }
  }

  lemma Reorder(x: real, y: real, z: real)
    ensures x * y * z == x * z * y
  {
  }

  lemma QuotientIs(x: real, y: real, q: real)
    requires y != 0.0 && x == q * y
    ensures x / y == q
  {
  }

  lemma DrainedGrows(low: real, high: real, capacity: real, minutes: real)
    requires capacity > 0.0 && minutes >= 0.0 && low <= high
    ensures Drained(low, capacity, minutes) <= Drained(high, capacity, minutes)
    ensures minutes > 0.0 && low > 0.0 ==> Drained(low, capacity, minutes) > 0.0
    ensures low >= 0.0 ==> Drained(low, capacity, minutes) >= 0.0
    ensures low <= 0.0 ==> Drained(low, capacity, minutes) <= 0.0
  {
    var hours := minutes / 60.0;
    var a, b := low / 1000.0 * hours, high / 1000.0 * hours;
    assert a <= b;
    var qa, qb := a / capacity, b / capacity;
    assert qa * capacity == a && qb * capacity == b;
    assert qa <= qb;
  }

  /** Below its target the battery is left alone; above it, following the setpoint for no
      longer than the horizon stays at or above the target. Where the power limit does not
      bite, a longer time goes below it. */
  lemma TargetIsKeptExactlyWithinHorizon(s: Settings, c: Clock, minutes: real)
    requires s.batteryCapacity > 0.0 && minutes >= 0.0
    ensures s.soc <= s.batterySave.targetSOC || MinutesLeft(c).None? ==> Followed(s, c, minutes).soc == s.soc
    ensures s.soc > s.batterySave.targetSOC && MinutesLeft(c).Some? ==>
              var h := Horizon(MinutesLeft(c).value);
              && (minutes <= h ==> Followed(s, c, minutes).soc >= s.batterySave.targetSOC)
              && (-SaveSetpoint(s, c) < s.maxPower ==>
                    (minutes <= h <==> Followed(s, c, minutes).soc >= s.batterySave.targetSOC))
  {
    DrainedGrows(0.0, 0.0, s.batteryCapacity, minutes);
    if s.soc > s.batterySave.targetSOC && MinutesLeft(c).Some? {
      var m, gap := MinutesLeft(c).value, s.soc - s.batterySave.targetSOC;
      var full := DischargeFor(gap, s.batteryCapacity, HoursFor(m));
      DrainedShare(gap, s.batteryCapacity, m, minutes);
      DischargePositive(gap, s.batteryCapacity, HoursFor(m));
      DrainedGrows(-SaveSetpoint(s, c), full, s.batteryCapacity, minutes);
      ShareWithin(gap, Horizon(m), minutes);
    }
  }

  lemma DischargePositive(gap: real, capacity: real, hours: real)
    requires gap > 0.0 && capacity > 0.0 && hours > 0.0
    ensures DischargeFor(gap, capacity, hours) > 0.0
  {
    assert gap / 100.0 * capacity > 0.0;
  }

  lemma ShareWithin(gap: real, h: real, minutes: real)
    requires gap > 0.0 && h > 0.0 && minutes >= 0.0
    ensures gap / h * minutes <= gap <==> minutes <= h
  {
    var share := gap / h;
    assert share * h == gap && share > 0.0;
    if minutes <= h {
      assert share * minutes <= share * h;
    } else {
      assert share * minutes > share * h;
    }
  }

  /** One tick of a run: what the clock says, and how long until the next tick. */
  datatype Tick = Tick(clock: Clock, minutes: real)

  function Saved(s: Settings, ticks: seq<Tick>): Settings
    requires s.batteryCapacity > 0.0
    decreases |ticks|
  {
    if ticks == [] then s else Saved(Followed(s, ticks[0].clock, ticks[0].minutes), ticks[1..])
  }

  ghost predicate AtMostAMinute(ticks: seq<Tick>) {
    forall k :: 0 <= k < |ticks| ==> 0.0 <= ticks[k].minutes <= 1.0
  }

  /** If the battery follows the commands, no run of ticks of at most a minute takes the
      state of charge below its target, whatever the clock does between them; a battery
      that starts below the target is not drained at all. */
  lemma {:induction false} NeverBelowTarget(s: Settings, ticks: seq<Tick>)
    requires s.batteryCapacity > 0.0 && AtMostAMinute(ticks)
    ensures s.soc >= s.batterySave.targetSOC ==> Saved(s, ticks).soc >= s.batterySave.targetSOC
    ensures s.soc <= s.batterySave.targetSOC ==> Saved(s, ticks).soc == s.soc
    decreases |ticks|
  {
    hide Followed, Horizon;
    if ticks != [] {
      TargetIsKeptExactlyWithinHorizon(s, ticks[0].clock, ticks[0].minutes);
      FollowedKeepsSettings(s, ticks[0].clock, ticks[0].minutes);
      NeverBelowTarget(Followed(s, ticks[0].clock, ticks[0].minutes), ticks[1..]);
    }
  }

  lemma FollowedKeepsSettings(s: Settings, c: Clock, minutes: real)
    requires s.batteryCapacity > 0.0
    ensures Followed(s, c, minutes) == s.(soc := Followed(s, c, minutes).soc)
  {
  }

  /** The power limit does not bite with so many minutes left. */
  ghost predicate Unlimited(s: Settings, minutes: nat) {
    DischargeFor(s.soc - s.batterySave.targetSOC, s.batteryCapacity, HoursFor(minutes)) <= s.maxPower
  }

  function At(c: Clock, minutes: nat): Clock {
    c.(now := c.now + minutes * MINUTE)
  }

  /** `k` ticks, one a minute, from `c` on. */
  function EveryMinute(s: Settings, c: Clock, k: nat): Settings
    requires s.batteryCapacity > 0.0
    ensures EveryMinute(s, c, k) == s.(soc := EveryMinute(s, c, k).soc)
  {
    if k == 0 then s else Followed(EveryMinute(s, c, k - 1), At(c, k - 1), 1.0)
  }

  /** A gap of `share` for each minute left asks for the same power whatever the number of minutes. */
  lemma SamePower(share: real, capacity: real, n: nat, gap: real, m: nat, gap': real)
    requires n > 0 && m > 0 && capacity > 0.0 && gap == share * n as real && gap' == share * m as real
    ensures DischargeFor(gap, capacity, HoursFor(n)) == DischargeFor(gap', capacity, HoursFor(m))
    ensures Drained(DischargeFor(gap, capacity, HoursFor(n)), capacity, 1.0) == share
  {
    DischargeIsShare(gap, capacity, n);
    DischargeIsShare(gap', capacity, m);
    QuotientIs(gap, n as real, share);
    QuotientIs(gap', m as real, share);
    DrainedShare(gap, capacity, n, 1.0);
  }

  lemma LaterClock(c: Clock, k: nat)
    requires MinutesLeft(c).Some? && k <= MinutesLeft(c).value
    ensures k < MinutesLeft(c).value ==> MinutesLeft(At(c, k)) == Some(MinutesLeft(c).value - k)
  {
  }

  /** What a tick commands when the gap is on the line. */
  lemma SetpointOnLine(s: Settings, c: Clock, k: nat, r: Settings, share: real)
    requires s.batteryCapacity > 0.0 && share > 0.0
    requires MinutesLeft(c).Some? && k <= MinutesLeft(c).value && MinutesLeft(c).value > 0
    requires s.soc - s.batterySave.targetSOC == share * MinutesLeft(c).value as real
    requires r == s.(soc := r.soc) && r.soc - s.batterySave.targetSOC == share * (MinutesLeft(c).value - k) as real
    requires Unlimited(s, MinutesLeft(c).value)
    ensures k == MinutesLeft(c).value ==> SaveSetpoint(r, At(c, k)) == 0.0
    ensures k < MinutesLeft(c).value ==> SaveSetpoint(r, At(c, k)) == SaveSetpoint(s, c)
    ensures k < MinutesLeft(c).value ==> Drained(-SaveSetpoint(r, At(c, k)), s.batteryCapacity, 1.0) == share
  {
    hide DischargeFor, HoursFor, Drained;
    var m := MinutesLeft(c).value;
    LaterClock(c, k);
    if k < m {
      var now, start := r.soc - s.batterySave.targetSOC, s.soc - s.batterySave.targetSOC;
      SamePower(share, s.batteryCapacity, m - k, now, m, start);
      PositiveProduct(share, m as real);
      PositiveProduct(share, (m - k) as real);
      DischargePositive(start, s.batteryCapacity, HoursFor(m));
    }
  }

  lemma PositiveProduct(x: real, y: real)
    requires x > 0.0 && y > 0.0
    ensures x * y > 0.0
  {
  }

  lemma OneLess(share: real, m: nat, k: nat)
    requires 0 < k <= m
    ensures share * (m - (k - 1)) as real - share == share * (m - k) as real
  {
  }

  lemma {:induction false} FallsByShare(s: Settings, c: Clock, k: nat, share: real)
    requires s.batteryCapacity > 0.0 && share > 0.0
    requires MinutesLeft(c).Some? && k <= MinutesLeft(c).value && MinutesLeft(c).value > 0
    requires s.soc - s.batterySave.targetSOC == share * MinutesLeft(c).value as real
    requires Unlimited(s, MinutesLeft(c).value)
    ensures var (m, r) := (MinutesLeft(c).value, EveryMinute(s, c, k));
            && r.soc - s.batterySave.targetSOC == share * (m - k) as real
            && SaveSetpoint(r, At(c, k)) == if k < m then SaveSetpoint(s, c) else 0.0
  {
    hide Drained, DischargeFor, HoursFor, SaveSetpoint, MinutesLeft;
    if k > 0 {
      FallsByShare(s, c, k - 1, share);
      SetpointOnLine(s, c, k - 1, EveryMinute(s, c, k - 1), share);
      OneLess(share, MinutesLeft(c).value, k);
      assert EveryMinute(s, c, k).soc == EveryMinute(s, c, k - 1).soc - share;
    }
    hide EveryMinute;
    SetpointOnLine(s, c, k, EveryMinute(s, c, k), share);
  }

  /** With one tick a minute and no power limit in the way, every tick commands the same
      power, the state of charge falls on a straight line, and it is exactly at its
      target in the minute of sunrise. */
  lemma StraightLineToTarget(s: Settings, c: Clock, k: nat)
    requires s.batteryCapacity > 0.0 && s.soc > s.batterySave.targetSOC
    requires MinutesLeft(c).Some? && k <= MinutesLeft(c).value && MinutesLeft(c).value > 0
    requires Unlimited(s, MinutesLeft(c).value)
    ensures var (m, gap) := (MinutesLeft(c).value, s.soc - s.batterySave.targetSOC);
            var r := EveryMinute(s, c, k);
            && r.soc == s.batterySave.targetSOC + gap / m as real * (m - k) as real
            && (k == m ==> r.soc == s.batterySave.targetSOC)
            && SaveSetpoint(r, At(c, k)) == if k < m then SaveSetpoint(s, c) else 0.0
  {
    hide DischargeFor, HoursFor, SaveSetpoint, EveryMinute;
    var m, gap := MinutesLeft(c).value, s.soc - s.batterySave.targetSOC;
    var share := gap / m as real;
    assert share * m as real == gap && share > 0.0;
    FallsByShare(s, c, k, share);
  }

  // ----- All modes together

  datatype ModeData = ModeData(
    current: OperatingMode, override: bool, overrideVal: real, autoSetpoint: real,
    scheduleEnabled: bool, schedulePeriod: string)

  /** The mode that decides: with a schedule, that of the period in force, or zero-grid control when there is none. */
  function EffectiveMode(s: Settings, c: Clock): OperatingMode {
    if s.mode == Scheduled && s.scheduleEnabled then
      var best := InForce(s.periods, c, |s.periods|);
      if best.Some? then s.periods[best.value].mode else ZeroGrid
    else s.mode
  }

  function SetpointOf(mode: OperatingMode, s: Settings, c: Clock, grid: real): real {
    match mode
    case TOU => TouSetpoint(s, c)
    case Solar => SolarSetpoint(s, grid)
    case BatterySave => SaveSetpoint(s, c)
    case _ => 0.0
  }

  function Setpoint(s: Settings, c: Clock, grid: real): real {
    if s.overrideEnabled then s.overrideValue
    else Clamp(SetpointOf(EffectiveMode(s, c), s, c, grid), -s.maxPower, s.maxPower)
  }

  /** What is shown of the decision; without a period in force the mode shown stays `Scheduled`. */
  function Report(s: Settings, c: Clock, grid: real): ModeData {
    var shown := ModeData(s.mode, s.overrideEnabled, s.overrideValue, Setpoint(s, c, grid), false, "");
    if s.overrideEnabled || s.mode != Scheduled || !s.scheduleEnabled then shown
    else
      var best := InForce(s.periods, c, |s.periods|);
      if best.None? then shown.(scheduleEnabled := true, schedulePeriod := "none")
      else
        var p := s.periods[best.value];
        shown.(current := p.mode, scheduleEnabled := true, schedulePeriod := p.name)
  }

  /** Which mode decides: the one set, or with an enabled schedule that of the period in force by right, and zero-grid
      control when every active period has a negative priority or none is active. */
  lemma ModeThatDecides(s: Settings, c: Clock)
    ensures s.mode != Scheduled || !s.scheduleEnabled ==> EffectiveMode(s, c) == s.mode
    ensures s.mode == Scheduled && s.scheduleEnabled ==>
              && (forall i: nat :: BestOf(s.periods, c, |s.periods|, i) ==> EffectiveMode(s, c) == s.periods[i].mode)
              && ((forall j :: 0 <= j < |s.periods| && Active(s.periods[j], c) ==> s.periods[j].priority < 0) ==>
                    EffectiveMode(s, c) == ZeroGrid)
  {
    ScheduleChoice(s.periods, c, |s.periods|);
  }

  /** What is asked for: the override's value as it is, otherwise what the deciding mode asks for, held to the
      power limit, and nothing in the manual, zero-grid, schedule-less and unknown modes. */
  lemma SetpointOfEachMode(s: Settings, c: Clock, grid: real)
    requires s.maxPower >= 0.0
    ensures s.overrideEnabled ==> Setpoint(s, c, grid) == s.overrideValue
    ensures !s.overrideEnabled ==>
              var (w, mode) := (Setpoint(s, c, grid), EffectiveMode(s, c));
              && (mode == Solar ==> w == SolarSetpoint(s, grid))
              && (mode == TOU ==> w == TouSetpoint(s, c))
              && (mode == BatterySave ==> w == SaveSetpoint(s, c))
              && (mode == Manual || mode == ZeroGrid || mode == Scheduled || mode == Unknown ==> w == 0.0)
  {
    SolarAnswersTheGrid(s, grid);
  }

  /** What is shown: the setpoint asked for, the override, and of a schedule in use the period in force and its mode, or
      "none" beside the mode set. */
  lemma ReportInFull(s: Settings, c: Clock, grid: real)
    ensures var d := Report(s, c, grid);
            && d.autoSetpoint == Setpoint(s, c, grid)
            && d.override == s.overrideEnabled && d.overrideVal == s.overrideValue
            && (d.scheduleEnabled <==> !s.overrideEnabled && s.mode == Scheduled && s.scheduleEnabled)
            && (!d.scheduleEnabled ==> d.current == s.mode && d.schedulePeriod == "")
            && (d.scheduleEnabled ==>
                  && (forall i: nat :: BestOf(s.periods, c, |s.periods|, i) ==>
                        d.current == s.periods[i].mode && d.schedulePeriod == s.periods[i].name)
                  && ((forall j :: 0 <= j < |s.periods| && Active(s.periods[j], c) ==> s.periods[j].priority < 0) ==>
                        d.current == Scheduled && d.schedulePeriod == "none"))
  {
    ScheduleChoice(s.periods, c, |s.periods|);
    hide Setpoint;
  }

  /** Without an override no mode asks for more than the power limit, and none asks for
      discharge when the state of charge is at its own minimum. */
  lemma ModesProtectTheBattery(s: Settings, c: Clock, grid: real)
    requires !s.overrideEnabled && s.maxPower >= 0.0
    ensures var (w, mode) := (Setpoint(s, c, grid), EffectiveMode(s, c));
            && -s.maxPower <= w <= s.maxPower
            && w == SetpointOf(mode, s, c, grid)
            && (w != 0.0 ==> mode == TOU || mode == Solar || mode == BatterySave)
            && (w < 0.0 && mode == TOU ==> s.soc > s.batterySave.minSOC)
            && (w < 0.0 && mode == Solar ==> s.soc > s.solar.minSOC)
            && (w < 0.0 && mode == BatterySave ==> s.soc > s.batterySave.targetSOC && c.now < c.saveUntil)
            && (w > 0.0 && mode == TOU ==> s.soc < 100.0)
            && (w > 0.0 ==> mode != BatterySave)
  {
    SolarAnswersTheGrid(s, grid);
  }

  class Controller {
    var mode: OperatingMode
    var overrideEnabled: bool
    var overrideValue: real
    var simulatedLoadEnabled: bool
    var simulatedLoadValue: real
    const maxPower: real
    const batteryCapacity: real
    var touSchedule: seq<TOUPeriod>
    var solarConfig: SolarConfig
    var batterySaveConfig: BatterySaveConfig
    var scheduleEnabled: bool
    var schedulePeriods: seq<SchedulePeriod>
    var currentSOC: real

    function State(): Settings
      reads this
    {
      Settings(mode, overrideEnabled, overrideValue, simulatedLoadEnabled, simulatedLoadValue,
               maxPower, batteryCapacity, touSchedule, solarConfig, batterySaveConfig, scheduleEnabled,
                   schedulePeriods, currentSOC)
    }

    constructor (maxPower: real, batteryCapacity: real)
      ensures State() == Settings(ZeroGrid, false, 0.0, false, 0.0, maxPower, batteryCapacity, [],
                                  SolarConfig(true, 0.0, 20.0, 100.0, true), BatterySaveConfig(20.0, 30.0),
                                  false, [], 0.0)
    {
      mode := ZeroGrid;
      overrideEnabled, overrideValue := false, 0.0;
      simulatedLoadEnabled, simulatedLoadValue := false, 0.0;
      this.maxPower, this.batteryCapacity := maxPower, batteryCapacity;
      touSchedule := [];
      solarConfig := SolarConfig(true, 0.0, 20.0, 100.0, true);
      batterySaveConfig := BatterySaveConfig(20.0, 30.0);
      scheduleEnabled, schedulePeriods := false, [];
      currentSOC := 0.0;
    }

    method UpdateSOC(soc: real)
      modifies this`currentSOC
      ensures State() == old(State()).(soc := soc)
    {
      currentSOC := soc;
    }

    method FindCurrentSchedulePeriod(c: Clock) returns (bestMatch: Option<nat>)
      ensures bestMatch == if scheduleEnabled then InForce(schedulePeriods, c, |schedulePeriods|) else None
    {
      if !scheduleEnabled || |schedulePeriods| == 0 {
        return None;
      }
      bestMatch := None;
      var bestPriority := -1;
      for i := 0 to |schedulePeriods|
        invariant bestMatch == InForce(schedulePeriods, c, i)
        invariant bestPriority == PriorityOf(schedulePeriods, bestMatch)
      {
        var p := schedulePeriods[i];
        var dayMatches := |p.days| == 0;
        for k := 0 to |p.days|
          invariant dayMatches <==> |p.days| == 0 || c.weekday in p.days[..k]
        {
          if p.days[k] == c.weekday {
            dayMatches := true;
            break;
          }
        }
        assert dayMatches == OnDay(p.days, c);
        if !dayMatches {
          continue;
        }
        var startTime, endTime := Resolve(p.startTime, c), Resolve(p.endTime, c);
        if endTime < startTime || endTime == startTime {
          if c.now > startTime || c.now < endTime {
            if p.priority > bestPriority {
              bestMatch, bestPriority := Some(i), p.priority;
            }
          }
        } else if c.now > startTime && c.now < endTime {
          if p.priority > bestPriority {
            bestMatch, bestPriority := Some(i), p.priority;
          }
        }
      }
    }

    method CalculateTOU(c: Clock) returns (setpoint: real)
      ensures setpoint == TouSetpoint(State(), c)
    {
      var currentPeriod: Option<TOUPeriod> := None;
      ghost var found := TouInForce(touSchedule, c, 0);
      for i := 0 to |touSchedule|
        invariant currentPeriod == None && found == TouInForce(touSchedule, c, i)
      {
        var p := touSchedule[i];
        if c.hour >= p.startHour && c.hour < p.endHour && c.weekday in p.days {
          currentPeriod := Some(p);
          break;
        }
      }
      if currentPeriod.None? {
        return 0.0;
      }
      match currentPeriod.value.action {
        case Charge => setpoint := maxPower;
        case Discharge => setpoint := -maxPower;
        case Hold => setpoint := 0.0;
      }
      if currentSOC >= 100.0 && setpoint > 0.0 {
        setpoint := 0.0;
      }
      if currentSOC <= batterySaveConfig.minSOC && setpoint < 0.0 {
        setpoint := 0.0;
      }
    }

    method Calculate(gridPower: real, c: Clock) returns (setpoint: real, data: ModeData)
      ensures setpoint == Setpoint(State(), c, gridPower)
      ensures data == Report(State(), c, gridPower)
      ensures data.override == overrideEnabled && data.overrideVal == overrideValue
    {
      data := ModeData(mode, overrideEnabled, overrideValue, 0.0, false, "");
      if overrideEnabled {
        data := data.(autoSetpoint := overrideValue);
        return overrideValue, data;
      }
      var effectiveMode := mode;
      if mode == Scheduled && scheduleEnabled {
        var period := FindCurrentSchedulePeriod(c);
        if period.Some? {
          effectiveMode := schedulePeriods[period.value].mode;
          data := data.(scheduleEnabled := true, schedulePeriod := schedulePeriods[period.value].name,
                        current := effectiveMode);
        } else {
          effectiveMode := ZeroGrid;
          data := data.(scheduleEnabled := true, schedulePeriod := "none");
        }
      }
      match effectiveMode {
        case TOU => setpoint := CalculateTOU(c);
        case Solar => setpoint := SolarSetpoint(State(), gridPower);
        case BatterySave => setpoint := SaveSetpoint(State(), c);
        case _ => setpoint := 0.0;
      }
      setpoint := Clamp(setpoint, -maxPower, maxPower);
      data := data.(autoSetpoint := setpoint);
    }
  }
}
