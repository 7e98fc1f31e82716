/**
 The in-memory round-robin database: circular archives that hold the last samples
 of a thinned history, and a meter of the energy imported and exported. Times are
 nanoseconds, 0 being the zero time.
 */
module Rrd {
  import opened Bytes

  const HOUR: int := 3_600_000_000_000

  datatype Sample = Sample(
    timestamp: int, gridPower: real, batPower: real, batSOC: real, batVoltage: real, solarPower: real,
    importWh: real, exportWh: real)

  // ----- Energy

  datatype Reading = Reading(time: int, power: real)

  /** The reading before, if there is one with a time, and the totals. */
  datatype Meter = Meter(last: Option<Reading>, importWh: real, exportWh: real)

  const NEW_METER := Meter(None, 0.0, 0.0)

  function Hours(duration: int): real {
    duration as real / HOUR as real
  }

  /** The energy of a constant power over a time. */
  function Energy(power: real, duration: int): real {
    power * Hours(duration)
  }

  function ReadingOf(s: Sample): Option<Reading> {
    if s.timestamp == 0 then None else Some(Reading(s.timestamp, s.gridPower))
  }

  function Metered(m: Meter, s: Sample): Meter {
    var here := m.(last := ReadingOf(s));
    if m.last.None? then here
    else
      var duration := s.timestamp - m.last.value.time;
      var power := (m.last.value.power + s.gridPower) / 2.0;
      if !(0 < duration < HOUR) then here
      else if power > 0.0 then here.(importWh := m.importWh + Energy(power, duration))
      else here.(exportWh := m.exportWh + Energy(-power, duration))
  }

  /** One sample in numbers: the mean of its power and that of the sample before, over the time
      between them in hours, joins the imported energy when it is positive and the exported
      energy otherwise; nothing after a sample without a time, after an hour or more, or when
      the clock has not moved on. */
  lemma MeteredInNumbers(m: Meter, s: Sample)
    ensures Metered(m, s).last == if s.timestamp == 0 then None else Some(Reading(s.timestamp, s.gridPower))
    ensures m.last.None? ==> Metered(m, s).importWh == m.importWh && Metered(m, s).exportWh == m.exportWh
    ensures m.last.Some? ==>
              var ns := s.timestamp - m.last.value.time;
              var mean := (m.last.value.power + s.gridPower) / 2.0;
              var wh := mean * (ns as real / 3_600_000_000_000.0);
              if ns <= 0 || ns >= 3_600_000_000_000 then
                Metered(m, s).importWh == m.importWh && Metered(m, s).exportWh == m.exportWh
              else if mean > 0.0 then
                Metered(m, s).importWh == m.importWh + wh && Metered(m, s).exportWh == m.exportWh
              else
                Metered(m, s).importWh == m.importWh && Metered(m, s).exportWh == m.exportWh - wh
  {
    if m.last.Some? && 0 < s.timestamp - m.last.value.time < HOUR {
      SignOfEnergy((m.last.value.power + s.gridPower) / 2.0, s.timestamp - m.last.value.time);
    }
  }

  function MeterAfter(history: seq<Sample>): Meter {
    if history == [] then NEW_METER else Metered(MeterAfter(history[..|history| - 1]), history[|history| - 1])
  }

  /** The area under the straight line between two neighbouring samples less than an hour apart. */
  function Trapezoid(a: Sample, b: Sample): real {
    var duration := b.timestamp - a.timestamp;
    if a.timestamp == 0 || !(0 < duration < HOUR) then 0.0 else Energy((a.gridPower + b.gridPower) / 2.0, duration)
  }

  /** The sum over all neighbours among the first `n` samples. */
  function Trapezoids(history: seq<Sample>, n: nat): real
    requires n <= |history|
  {
    if n < 2 then 0.0 else Trapezoids(history, n - 1) + Trapezoid(history[n - 2], history[n - 1])
  }

  lemma MeteredStep(m: Meter, a: Sample, b: Sample)
    requires m.last == ReadingOf(a)
    ensures var q := Metered(m, b);
            && q.last == ReadingOf(b)
            && q.importWh - q.exportWh == m.importWh - m.exportWh + Trapezoid(a, b)
            && q.importWh >= m.importWh && q.exportWh >= m.exportWh
  {
    hide Energy;
    if m.last.Some? && 0 < b.timestamp - a.timestamp < HOUR {
      SignOfEnergy((a.gridPower + b.gridPower) / 2.0, b.timestamp - a.timestamp);
    }
  }

  lemma SignOfEnergy(power: real, duration: int)
    requires duration > 0
    ensures power >= 0.0 ==> Energy(power, duration) >= 0.0
    ensures power <= 0.0 ==> Energy(-power, duration) >= 0.0
    ensures Energy(-power, duration) == -Energy(power, duration)
  {
    var hours := Hours(duration);
    assert hours > 0.0;
    assert power >= 0.0 ==> power * hours >= 0.0;
  }

  /** Imported less exported energy is exactly the sum of the trapezoids, for any history. */
  lemma {:induction false} EnergyBalance(history: seq<Sample>)
    ensures MeterAfter(history).importWh - MeterAfter(history).exportWh == Trapezoids(history, |history|)
    ensures MeterAfter(history).last == if history == [] then None else ReadingOf(history[|history| - 1])
  {
    if history != [] {
      var n := |history| - 1;
      var before := history[..n];
      EnergyBalance(before);
      TrapezoidsOfPrefix(history, n, n);
      if n > 0 {
        MeteredStep(MeterAfter(before), history[n - 1], history[n]);
      }
    }
  }

  lemma {:induction false} TrapezoidsOfPrefix(history: seq<Sample>, n: nat, k: nat)
    requires k <= n <= |history|
    ensures Trapezoids(history[..n], k) == Trapezoids(history, k)
  {
    if k >= 2 {
      TrapezoidsOfPrefix(history, n, k - 1);
    }
  }

  // ----- Archives

  /** The newest sample of a history as it is stored, with the totals at that moment. */
  function Stamp(history: seq<Sample>): Sample
    requires history != []
  {
    history[|history| - 1].(importWh := MeterAfter(history).importWh, exportWh := MeterAfter(history).exportWh)
  }

  predicate TooSoon(kept: seq<Sample>, s: Sample, resolution: int) {
    kept != [] && s.timestamp - kept[|kept| - 1].timestamp < resolution
  }

  /** Greedy thinning: a sample is retained when it comes at least `resolution` after the last one retained. */
  function Thinned(history: seq<Sample>, resolution: int): seq<Sample> {
    if history == [] then []
    else
      var kept := Thinned(history[..|history| - 1], resolution);
      if TooSoon(kept, Stamp(history), resolution) then kept else kept + [Stamp(history)]
  }

  function LastOnes(s: seq<Sample>, n: nat): (r: seq<Sample>)
    ensures |r| == (if |s| <= n then |s| else n)
    ensures forall i :: 0 <= i < |r| ==> r[i] == s[|s| - |r| + i]
  {
    if |s| <= n then s else s[|s| - n..]
  }

  function Newest(s: seq<Sample>): Option<Sample> {
    if s == [] then None else Some(s[|s| - 1])
  }

  lemma NewestOfLastOnes(s: seq<Sample>, n: nat)
    requires n > 0
    ensures Newest(LastOnes(s, n)) == Newest(s)
  {
  }

  /** What one more sample makes of an archive of at most `max`. */
  function Kept(kept: seq<Sample>, s: Sample, resolution: int, max: nat): seq<Sample> {
    if TooSoon(kept, s, resolution) then kept else LastOnes(kept + [s], max)
  }

  /** Throwing the oldest samples away early makes no difference to what is kept later. */
  lemma KeptFromThinned(thinned: seq<Sample>, s: Sample, resolution: int, max: nat)
    requires max > 0
    ensures Kept(LastOnes(thinned, max), s, resolution, max)
            == LastOnes(if thinned != [] && s.timestamp - thinned[|thinned| - 1].timestamp < resolution
                        then thinned else thinned + [s], max)
  {
    var last := LastOnes(thinned, max);
    if !TooSoon(thinned, s, resolution) {
      assert LastOnes(last + [s], max) == LastOnes(thinned + [s], max);
    }
  }

  lemma OneSampleMore(history: seq<Sample>, s: Sample, resolution: int, max: nat)
    requires max > 0
    ensures MeterAfter(history + [s]) == Metered(MeterAfter(history), s)
    ensures var m := Metered(MeterAfter(history), s);
            Stamp(history + [s]) == s.(importWh := m.importWh, exportWh := m.exportWh)
    ensures var kept := Thinned(history, resolution);
            Thinned(history + [s], resolution)
            == if kept != [] && s.timestamp - kept[|kept| - 1].timestamp < resolution
               then kept else kept + [Stamp(history + [s])]
    ensures Kept(LastOnes(Thinned(history, resolution), max), Stamp(history + [s]), resolution, max)
            == LastOnes(Thinned(history + [s], resolution), max)
  {
    hide Metered, Kept, LastOnes;
    assert (history + [s])[..|history|] == history;
    KeptFromThinned(Thinned(history, resolution), Stamp(history + [s]), resolution, max);
  }

  /** Neighbours retained are at least the resolution apart, whatever the clock did. */
  lemma {:induction false} RetainedGaps(history: seq<Sample>, resolution: int, i: nat)
    requires i + 1 < |Thinned(history, resolution)|
    ensures Thinned(history, resolution)[i + 1].timestamp - Thinned(history, resolution)[i].timestamp >= resolution
  {
    var n := |history| - 1;
    if i + 1 < |Thinned(history[..n], resolution)| {
      RetainedGaps(history[..n], resolution, i);
    }
  }

  /** ... so with a positive resolution the retained times strictly increase. */
  lemma {:induction false} RetainedIncrease(history: seq<Sample>, resolution: int, i: nat, j: nat)
    requires resolution > 0 && i < j < |Thinned(history, resolution)|
    ensures var t := Thinned(history, resolution);
            t[j].timestamp - t[i].timestamp >= resolution * (j - i) && t[i].timestamp < t[j].timestamp
    decreases j
  {
    RetainedGaps(history, resolution, j - 1);
    if i < j - 1 {
      RetainedIncrease(history, resolution, i, j - 1);
    }
  }

  /** The stored totals never fall from one retained sample to a later one. */
  lemma {:induction false} TotalsNeverFall(history: seq<Sample>, resolution: int, i: nat, j: nat)
    requires i <= j < |Thinned(history, resolution)|
    ensures var t := Thinned(history, resolution);
            && t[i].importWh <= t[j].importWh <= MeterAfter(history).importWh
            && t[i].exportWh <= t[j].exportWh <= MeterAfter(history).exportWh
  {
    var n := |history| - 1;
    var before := history[..n];
    EnergyBalance(before);
    if n > 0 {
      MeteredStep(MeterAfter(before), history[n - 1], history[n]);
    }
    var kept := Thinned(before, resolution);
    if j < |kept| {
      TotalsNeverFall(before, resolution, i, j);
    } else if i < |kept| {
      TotalsNeverFall(before, resolution, i, i);
    }
  }

  /** After the clock jumps back nothing is retained until it has caught up with the
      last retained time plus the resolution. */
  lemma {:induction false} NothingUntilCaughtUp(history: seq<Sample>, more: seq<Sample>, resolution: int)
    requires Thinned(history, resolution) != []
    requires var t := Thinned(history, resolution);
             forall k :: 0 <= k < |more| ==> more[k].timestamp < t[|t| - 1].timestamp + resolution
    ensures Thinned(history + more, resolution) == Thinned(history, resolution)
  {
    if more == [] {
      assert history + more == history;
    } else {
      var n := |more| - 1;
      NothingUntilCaughtUp(history, more[..n], resolution);
      assert history + more == history + more[..n] + [more[n]];
      OneSampleMore(history + more[..n], more[n], resolution, 1);
    }
  }

  // ----- A circular archive

  function Wrap(x: nat, n: nat): (r: nat)
    requires x < 2 * n
    ensures r < n
  {
    if x < n then x else x - n
  }

  lemma WrapIsModulo(x: nat, n: nat)
    requires x < 2 * n
    ensures Wrap(x, n) == x % n
  {
  }

  /** The `count` samples before `position` in a circular buffer, oldest first. */
  function Ring(buf: seq<Sample>, position: nat, count: nat): (s: seq<Sample>)
    requires position < |buf| && count <= |buf|
    ensures |s| == count
    ensures forall i :: 0 <= i < count ==> s[i] == buf[Wrap(position - count + |buf| + i, |buf|)]
  {
    seq(count, i requires 0 <= i < count => buf[Wrap(position - count + |buf| + i, |buf|)])
  }

  /** Writing at the position and moving it on appends, and drops the oldest from a full buffer. */
  lemma RingPush(buf: seq<Sample>, position: nat, count: nat, s: Sample)
    requires position < |buf| && count <= |buf|
    ensures Ring(buf[position := s], Wrap(position + 1, |buf|), if count < |buf| then count + 1 else count)
            == LastOnes(Ring(buf, position, count) + [s], |buf|)
  {
    hide Ring, LastOnes, Wrap;
    var (n, next, c) := (|buf|, Wrap(position + 1, |buf|), if count < |buf| then count + 1 else count);
    var (t, u) := (Ring(buf[position := s], next, c), LastOnes(Ring(buf, position, count) + [s], n));
    forall i | 0 <= i < c
      ensures t[i] == u[i]
    {
      PlaceAfterPush(position, count, n, i);
    }
  }

  /** Where the `i`th sample stands after a push: the last at the position written, the others where they were. */
  lemma PlaceAfterPush(position: nat, count: nat, n: nat, i: nat)
    requires position < n && count <= n && i < if count < n then count + 1 else count
    ensures var (next, c) := (Wrap(position + 1, n), if count < n then count + 1 else count);
            var place := Wrap(next - c + n + i, n);
            if i == c - 1 then place == position
            else place != position && place == Wrap(position - count + n + (i + count + 1 - c), n)
  {
  }

  lemma RingLast(buf: seq<Sample>, position: nat, count: nat)
    requires position < |buf| && 0 < count <= |buf|
    ensures var k := (position - 1 + |buf|) % |buf|; 0 <= k < |buf| && Ring(buf, position, count)[count - 1] == buf[k]
  {
    WrapIsModulo(position - 1 + |buf|, |buf|);
  }

  class Archive {
    const resolution: int
    const maxSamples: nat
    const samples: array<Sample>
    var position: nat
    var count: nat

    ghost predicate Valid()
      reads this
    {
      1 <= maxSamples == samples.Length && position < maxSamples && count <= maxSamples
    }

    /** The valid samples, oldest first. */
    ghost function Contents(): (s: seq<Sample>)
      requires Valid()
      reads this, samples
    {
      Ring(samples[..], position, count)
    }

    constructor (resolution: int, maxSamples: nat)
      requires maxSamples >= 1
      ensures Valid() && Contents() == [] && fresh(samples)
      ensures this.resolution == resolution && this.maxSamples == maxSamples
    {
      this.resolution, this.maxSamples := resolution, maxSamples;
      samples := new Sample[maxSamples](_ => Sample(0, 0.0, 0.0, 0.0, 0.0, 0.0, 0.0, 0.0));
      position, count := 0, 0;
    }

    method Add(s: Sample)
      requires Valid()
      modifies this`position, this`count, samples
      ensures Valid()
      ensures Contents() == Kept(old(Contents()), s, resolution, maxSamples)
    {
      hide Ring, Wrap, LastOnes;
      ghost var before := Contents();
      if count > 0 {
        RingLast(samples[..], position, count);
        var lastIdx := (position - 1 + maxSamples) % maxSamples;
        if s.timestamp - samples[lastIdx].timestamp < resolution {
          return;
        }
      }
      RingPush(samples[..], position, count, s);
      ghost var buf := samples[..];
      samples[position] := s;
      assert samples[..] == buf[position := s];
      WrapIsModulo(position + 1, maxSamples);
      position := (position + 1) % maxSamples;
      if count < maxSamples {
        count := count + 1;
      }
    }

    method All() returns (result: seq<Sample>)
      requires Valid()
      ensures result == Contents()
    {
      result := [];
      WrapIsModulo(position - count + maxSamples, maxSamples);
      var startIdx := (position - count + maxSamples) % maxSamples;
      for i := 0 to count
        invariant |result| == i && forall k :: 0 <= k < i ==> result[k] == Contents()[k]
      {
        WrapIsModulo(startIdx + i, maxSamples);
        var idx := (startIdx + i) % maxSamples;
        assert samples[..][idx] == Contents()[i];
        result := result + [samples[idx]];
      }
    }
  }

  // ----- The database

  datatype ArchiveConfig = ArchiveConfig(resolution: int, retention: int)

  const DEFAULT_CONFIG := [ArchiveConfig(HOUR / 12, 24 * HOUR), ArchiveConfig(HOUR, 720 * HOUR)]

  /** Integer division that rounds towards zero. */
  function Quotient(a: int, b: int): int
    requires b != 0
  {
    if a >= 0 then a / b else -(-a / b)
  }

  function Capacity(cfg: ArchiveConfig): nat
    requires cfg.resolution != 0
  {
    var n := Quotient(cfg.retention, cfg.resolution);
    if n < 1 then 1 else n
  }

  /** How many samples an archive keeps: as often as the resolution goes into the retention, and at least one. */
  lemma CapacityInNumbers(cfg: ArchiveConfig)
    requires cfg.resolution > 0
    ensures Capacity(cfg) >= 1
    ensures cfg.retention >= cfg.resolution ==>
              Capacity(cfg) * cfg.resolution <= cfg.retention < (Capacity(cfg) + 1) * cfg.resolution
    ensures cfg.retention < cfg.resolution ==> Capacity(cfg) == 1
  {
    QuotientBounds(cfg.retention, cfg.resolution);
    hide Quotient;
  }

  lemma QuotientBounds(a: int, b: int)
    requires b > 0
    ensures a >= b ==> Quotient(a, b) >= 1
    ensures a >= b ==> Quotient(a, b) * b <= a < (Quotient(a, b) + 1) * b
    ensures a < b ==> Quotient(a, b) <= 0
  {
    if a >= 0 {
      DivisionBounds(a, b);
    } else {
      DivisionBounds(-a, b);
    }
  }

  lemma DivisionBounds(a: nat, b: int)
    requires b > 0
    ensures a / b >= 0 && (a / b) * b <= a < (a / b + 1) * b
    ensures a >= b ==> a / b >= 1
    ensures a < b ==> a / b == 0
  {
    assert a == (a / b) * b + a % b;
  }

  /** Without a configuration: every five minutes for a day, and every hour for thirty days. */
  lemma DefaultArchives()
    ensures |DEFAULT_CONFIG| == 2
    ensures DEFAULT_CONFIG[0].resolution == 300_000_000_000 && Capacity(DEFAULT_CONFIG[0]) == 288
    ensures DEFAULT_CONFIG[1].resolution == 3_600_000_000_000 && Capacity(DEFAULT_CONFIG[1]) == 720
  {
  }

  class RRD {
    const archives: seq<Archive>
    var lastSample: int
    var lastGridPower: real
    var totalImportWh: real
    var totalExportWh: real
    /** All samples added since the last reset, as they were given. */
    ghost var history: seq<Sample>

    ghost predicate Separate() {
      forall i, j :: 0 <= i < j < |archives| ==>
          archives[i] != archives[j] && archives[i].samples != archives[j].samples
    }

    function MeterNow(): Meter
      reads this
    {
      Meter(if lastSample == 0 then None else Some(Reading(lastSample, lastGridPower)), totalImportWh, totalExportWh)
    }

    /** The state is what the history makes of it, whatever is left in stale slots. */
    ghost predicate Valid()
      reads this, archives, set a | a in archives :: a.samples
    {
      && Separate()
      && MeterNow() == MeterAfter(history)
      && forall k :: 0 <= k < |archives| ==>
           archives[k].Valid() && archives[k].Contents()
               == LastOnes(Thinned(history, archives[k].resolution), archives[k].maxSamples)
    }

    constructor (archives: seq<Archive>)
      requires forall k :: 0 <= k < |archives| ==> archives[k].Valid() && archives[k].Contents() == []
      requires forall i, j :: 0 <= i < j < |archives| ==>
              archives[i] != archives[j] && archives[i].samples != archives[j].samples
      ensures Valid() && history == [] && this.archives == archives
    {
      this.archives := archives;
      lastSample, lastGridPower, totalImportWh, totalExportWh := 0, 0.0, 0.0, 0.0;
      history := [];
    }

    method Add(sample: Sample)
      requires Valid()
      modifies this, archives, set a | a in archives :: a.samples
      ensures Valid() && history == old(history) + [sample]
    {
      hide Kept, Thinned, Stamp, LastOnes, Metered, MeterAfter, Ring;
      Accumulate(sample);
      var s := sample.(importWh := totalImportWh, exportWh := totalExportWh);
      OneSampleMore(history, sample, 0, 1);
      AddToArchives(s);
      forall k | 0 <= k < |archives|
        ensures archives[k].Contents() == LastOnes(Thinned(history + [sample], archives[k].resolution),
                archives[k].maxSamples)
      {
        OneSampleMore(history, sample, archives[k].resolution, archives[k].maxSamples);
      }
      history := history + [sample];
    }

    /** The energy since the sample before, then this sample as the next one's predecessor. */
    method Accumulate(s: Sample)
      modifies this`lastSample, this`lastGridPower, this`totalImportWh, this`totalExportWh
      ensures MeterNow() == Metered(old(MeterNow()), s)
    {
      hide Energy;
      if lastSample != 0 {
        var duration := s.timestamp - lastSample;
        if duration > 0 && duration < HOUR {
          var avgPower := (lastGridPower + s.gridPower) / 2.0;
          if avgPower > 0.0 {
            totalImportWh := totalImportWh + Energy(avgPower, duration);
          } else {
            totalExportWh := totalExportWh + Energy(-avgPower, duration);
          }
        }
      }
      lastSample := s.timestamp;
      lastGridPower := s.gridPower;
    }

    method AddToArchives(s: Sample)
      requires Separate() && forall k :: 0 <= k < |archives| ==> archives[k].Valid()
      modifies archives, set a | a in archives :: a.samples
      ensures forall k :: 0 <= k < |archives| ==>
                && archives[k].Valid()
                && archives[k].Contents()
                    == Kept(old(archives[k].Contents()), s, archives[k].resolution, archives[k].maxSamples)
    {
      hide Ring, Kept;
      for i := 0 to |archives|
        invariant forall k :: 0 <= k < |archives| ==> archives[k].Valid()
        invariant forall k :: i <= k < |archives| ==> archives[k].Contents() == old(archives[k].Contents())
        invariant forall k :: 0 <= k < i ==>
                    archives[k].Contents()
                        == Kept(old(archives[k].Contents()), s, archives[k].resolution, archives[k].maxSamples)
      {
        archives[i].Add(s);
      }
    }

    method GetSamples(archiveIndex: int) returns (result: seq<Sample>)
      requires Valid()
      ensures result == if 0 <= archiveIndex < |archives|
                        then var a := archives[archiveIndex]; LastOnes(Thinned(history, a.resolution), a.maxSamples)
                        else []
    {
      if archiveIndex < 0 || archiveIndex >= |archives| {
        return [];
      }
      result := archives[archiveIndex].All();
    }

    method GetLatest() returns (latest: Option<Sample>)
      requires Valid()
      ensures |archives| == 0 ==> latest == None
      ensures |archives| > 0 ==>
                var t := Thinned(history, archives[0].resolution);
                latest == if t == [] then None else Some(t[|t| - 1])
    {
      hide Ring, Wrap, Thinned, MeterAfter, LastOnes;
      if |archives| == 0 || archives[0].count == 0 {
        if |archives| > 0 {
          NewestOfLastOnes(Thinned(history, archives[0].resolution), archives[0].maxSamples);
        }
        return None;
      }
      var arch := archives[0];
      RingLast(arch.samples[..], arch.position, arch.count);
      NewestOfLastOnes(Thinned(history, arch.resolution), arch.maxSamples);
      var lastIdx := (arch.position - 1 + arch.maxSamples) % arch.maxSamples;
      return Some(arch.samples[lastIdx]);
    }

    /** Afterwards the database is what a new one is: its history is empty, and `Valid` ties
        everything it reports to that. */
    method Reset()
      requires Valid()
      modifies this, archives
      ensures Valid() && history == []
    {
      for i := 0 to |archives|
        invariant forall k :: 0 <= k < |archives| ==> archives[k].Valid()
        invariant forall k :: 0 <= k < i ==> archives[k].Contents() == []
      {
        archives[i].position := 0;
        archives[i].count := 0;
      }
      totalImportWh, totalExportWh := 0.0, 0.0;
      lastSample := 0;
      history := [];
    }
  }

  /** Two databases of the same shape with the same history since their last reset hold
      and report the same, whatever else happened to them before. */
  lemma HistoryDecidesEverything(a: RRD, b: RRD)
    requires a.Valid() && b.Valid() && a.history == b.history && |a.archives| == |b.archives|
    requires forall k :: 0 <= k < |a.archives| ==>
               a.archives[k].resolution == b.archives[k].resolution
                   && a.archives[k].maxSamples == b.archives[k].maxSamples
    ensures a.MeterNow() == b.MeterNow()
    ensures forall k :: 0 <= k < |a.archives| ==> a.archives[k].Contents() == b.archives[k].Contents()
  {
  }

  method New(cfg: seq<ArchiveConfig>) returns (r: RRD)
    requires forall k :: 0 <= k < |cfg| ==> cfg[k].resolution != 0
    ensures fresh(r) && r.Valid() && r.history == []
    ensures var c := if cfg == [] then DEFAULT_CONFIG else cfg;
            && |r.archives| == |c|
            && forall k :: 0 <= k < |c| ==>
                r.archives[k].resolution == c[k].resolution && r.archives[k].maxSamples == Capacity(c[k])
  {
    var c := if |cfg| == 0 then DEFAULT_CONFIG else cfg;
    var archives: seq<Archive> := [];
    for i := 0 to |c|
      invariant |archives| == i
      invariant forall k :: 0 <= k < i ==>
                  && fresh(archives[k]) && fresh(archives[k].samples)
                  && archives[k].Valid() && archives[k].Contents() == []
                  && archives[k].resolution == c[k].resolution && archives[k].maxSamples == Capacity(c[k])
      invariant forall j, k :: 0 <= j < k < i ==>
              archives[j] != archives[k] && archives[j].samples != archives[k].samples
    {
      var arch := new Archive(c[i].resolution, Capacity(c[i]));
      archives := archives + [arch];
    }
    r := new RRD(archives);
  }
}
