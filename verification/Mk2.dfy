/**
 The MK2 driver: what it does with a received frame, as a function on its state,
 and the driver object that does it in place.
 */
module Mk2 {
  import opened Bytes
  import opened Mk2Frames
  import VeBus

  // ----- Scaling

  const V_MAINS := 0
  const I_MAINS := 1
  const V_INVERTER := 2
  const I_INVERTER := 3
  const V_BAT := 4
  const I_BAT := 5
  const INVERTER_PERIOD := 7
  const MAIN_PERIOD := 8
  const CHARGE_STATE := 13
  const SCALE_COUNT := 14

  datatype Scaling = Scaling(factor: real, offset: int, signed: bool, supported: bool)

  /** A raw factor of 0x4000 or more stands for a fraction. Reals have no infinity for raw 0x8000; 0 stands for it. */
  function Factor(raw: int): real
    requires -0x8000 <= raw < 0x8000
  {
    var size := if raw < 0 then -raw else raw;
    if size == 0x8000 then 0.0
    else if size >= 0x4000 then 1.0 / (0x8000 - size) as real
    else size as real
  }

  /** The answer to a scale request, from its command byte on; a short one means the value is not supported. */
  function ScaleOf(f: seq<byte>): Scaling {
    if |f| < 6 then Scaling(0.0, 0, false, false)
    else
      var raw := Signed16(Le16(f[1], f[2]));
      var offset := if |f| == 6 then Signed16(Le16(f[3], f[4])) else Signed16(Le16(f[4], f[5]));
      Scaling(Factor(raw), offset, raw < 0, true)
  }

  /** Both layouts of the answer carry the same scale: the raw factor's sign, its
      size or the reciprocal of its distance to 0x8000, and the offset. */
  lemma ScaleLayouts(raw: int, offset: int, gap: byte, check: byte)
    requires -0x8000 < raw < 0x8000 && -0x8000 <= offset < 0x8000
    ensures var (slo, shi) := (raw % 256, raw / 256 % 256);
            var (olo, ohi) := (offset % 256, offset / 256 % 256);
            var s := ScaleOf([0x8E, slo, shi, olo, ohi, check]);
            && s == ScaleOf([0x8E, slo, shi, gap, olo, ohi, check])
            && s.supported && s.offset == offset && s.signed == (raw < 0)
            && var size := if raw < 0 then -raw else raw;
               if size < 0x4000 then s.factor == size as real else s.factor * (0x8000 - size) as real == 1.0
  {
    hide Le16, Signed16, Factor;
    SignedWord(raw);
    SignedWord(offset);
    FactorInNumbers(raw);
  }

  lemma FactorInNumbers(raw: int)
    requires -0x8000 < raw < 0x8000
    ensures var size := if raw < 0 then -raw else raw;
            if size < 0x4000 then Factor(raw) == size as real else Factor(raw) * (0x8000 - size) as real == 1.0
  {
  }

  /** An answer of fewer than six bytes, the command byte among them, means that there is no such value. */
  lemma ShortAnswerIsUnsupported(f: seq<byte>)
    ensures |f| < 6 <==> !ScaleOf(f).supported
    ensures |f| < 6 ==> ScaleOf(f) == Scaling(0.0, 0, false, false)
  {
  }

  function ApplyScale(s: Scaling, value: real): real {
    if !s.supported then value else s.factor * (value + s.offset as real)
  }

  function ApplyScaleAndSign(s: Scaling, lo: byte, hi: byte): real {
    if !s.supported then 0.0
    else if s.signed then ApplyScale(s, Signed16(Le16(lo, hi)) as real)
    else ApplyScale(s, Le16(lo, hi) as real)
  }

  predicate NoPeriod(data: byte) {
    data == 0xFF || data == 0x00
  }

  /** A period of zero has no frequency; reals have no infinity for it and 0 stands for it. */
  function Frequency(s: Scaling, data: byte): real {
    var period := ApplyScale(s, data as real);
    if NoPeriod(data) || period == 0.0 then 0.0 else 10.0 / period
  }

  // ----- State

  datatype LedState = LedOn | LedBlink | LedOff

  datatype Info = Info(
    version: nat, valid: bool, errors: nat,
    batVoltage: real, batCurrent: real,
    inVoltage: real, inCurrent: real, inFrequency: real,
    outVoltage: real, outCurrent: real, outFrequency: real,
    chargeState: real, leds: seq<LedState>)

  const EMPTY_INFO := Info(0, false, 0, 0.0, 0.0, 0.0, 0.0, 0.0, 0.0, 0.0, 0.0, 0.0, [])

  datatype Host = Host(info: Info, scales: seq<Scaling>, scaleCount: nat, sent: seq<seq<byte>>, reports: seq<Info>)
  {
    function Send(command: seq<byte>): Host {
      this.(sent := sent + [CommandFrame(command)])
    }
  }

  const TARGET_REQUEST: seq<byte> := [0x41, 0x01, 0x00]
  const DC_REQUEST: seq<byte> := [0x46, 0x00]
  const AC_REQUEST: seq<byte> := [0x46, 0x01]
  const LED_REQUEST: seq<byte> := [0x4C]
  const CHARGE_REQUEST: seq<byte> := [0x57, 0x30, 0x0D, 0x00]

  function ScaleRequest(i: nat): seq<byte>
    requires i < 256
  {
    [0x57, 0x36, i, 0x00]
  }

  function LedAt(on: byte, blink: byte, i: nat): LedState {
    if (on / Power2(i)) % 2 == 1 then LedOn else if (blink / Power2(i)) % 2 == 1 then LedBlink else LedOff
  }

  function LedsOf(on: byte, blink: byte): seq<LedState> {
    seq(8, i requires 0 <= i < 8 => LedAt(on, blink, i))
  }

  // ----- What a frame does. `None` is an index out of range, which ends the program.

  /** Each byte is shifted by its index and the result multiplied by 8: that is how the shift and
      the product associate. */
  function VersionSum(f: seq<byte>, n: nat): nat
    requires n <= |f|
  {
    if n == 0 then 0 else VersionSum(f, n - 1) + f[n - 1] * Power2(n - 1) * 8
  }

  /** So the version kept is the little-endian number the device sends for two answers only. */
  lemma VersionIsLittleEndianTwice(f: seq<byte>)
    requires |f| >= 4
    ensures VersionSum(f, 4) == LittleEndian(f, 4) <==> f[..4] == [0, 0, 0, 0] || f[..4] == [240, 7, 0, 0]
  {
    assert f[..4] == [f[0], f[1], f[2], f[3]];
    BothSums(f, f[0], f[1], f[2], f[3]);
    hide VersionSum, LittleEndian;
    EqualSums(f[0], f[1], f[2], f[3]);
  }

  lemma BothSums(f: seq<byte>, a: nat, b: nat, c: nat, d: nat)
    requires |f| >= 4 && f[0] == a && f[1] == b && f[2] == c && f[3] == d
    ensures VersionSum(f, 4) == 8 * a + 16 * b + 32 * c + 64 * d
    ensures LittleEndian(f, 4) == a + 0x100 * b + 0x1_0000 * c + 0x100_0000 * d
  {
    assert Power2(1) == 2 && Power2(2) == 4 && Power2(3) == 8;
    assert VersionSum(f, 1) == VersionSum(f, 0) + a * Power2(0) * 8;
    assert VersionSum(f, 2) == VersionSum(f, 1) + b * 2 * 8;
    assert VersionSum(f, 3) == VersionSum(f, 2) + c * 4 * 8;
    assert Power256(1) == 0x100 && Power256(2) == 0x1_0000 && Power256(3) == 0x100_0000;
    assert LittleEndian(f, 1) == LittleEndian(f, 0) + a * Power256(0);
    assert LittleEndian(f, 2) == LittleEndian(f, 1) + b * 0x100;
    assert LittleEndian(f, 3) == LittleEndian(f, 2) + c * 0x1_0000;
  }

  lemma EqualSums(a: nat, b: nat, c: nat, d: nat)
    requires a < 256 && b < 256 && c < 256 && d < 256
    ensures 8 * a + 16 * b + 32 * c + 64 * d == a + 0x100 * b + 0x1_0000 * c + 0x100_0000 * d
            <==> a == b == c == d == 0 || (a == 240 && b == 7 && c == d == 0)
  {
  }

  function VersionDecode(h: Host, f: seq<byte>): Option<Host> {
    if |f| < 4 then None
    else
      var version := VersionSum(f, 4);
      var h := h.(info := h.info.(version := version, valid := true));
      Some(h.Send(if h.scaleCount < SCALE_COUNT then ScaleRequest(h.scaleCount) else DC_REQUEST))
  }

  function ScaleDecode(h: Host, f: seq<byte>): Option<Host> {
    var h := h.(scales := h.scales + [ScaleOf(f)], scaleCount := h.scaleCount + 1);
    Some(if h.scaleCount < SCALE_COUNT then h.Send(ScaleRequest(h.scaleCount)) else h)
  }

  function DcDecode(h: Host, f: seq<byte>): Option<Host> {
    if |f| < 14 || |h.scales| <= I_BAT || (!NoPeriod(f[13]) && |h.scales| <= INVERTER_PERIOD) then None
    else
      var used := ApplyScale(h.scales[I_BAT], Le24(f[7], f[8], f[9]) as real);
      var charge := ApplyScale(h.scales[I_BAT], Le24(f[10], f[11], f[12]) as real);
      Some(h.(info := h.info.(
          batVoltage := ApplyScaleAndSign(h.scales[V_BAT], f[5], f[6]),
          batCurrent := used - charge,
          outFrequency := if NoPeriod(f[13]) then 0.0 else Frequency(h.scales[INVERTER_PERIOD], f[13])))
        .Send(AC_REQUEST))
  }

  function AcDecode(h: Host, f: seq<byte>): Option<Host> {
    if |f| < 14 || |h.scales| <= I_INVERTER || (!NoPeriod(f[13]) && |h.scales| <= MAIN_PERIOD) then None
    else
      Some(h.(info := h.info.(
          inVoltage := ApplyScale(h.scales[V_MAINS], Signed16(Le16(f[5], f[6])) as real),
          inCurrent := ApplyScale(h.scales[I_MAINS], Signed16(Le16(f[7], f[8])) as real),
          outVoltage := ApplyScale(h.scales[V_INVERTER], Signed16(Le16(f[9], f[10])) as real),
          outCurrent := ApplyScale(h.scales[I_INVERTER], Signed16(Le16(f[11], f[12])) as real),
          inFrequency := if NoPeriod(f[13]) then 0.0 else Frequency(h.scales[MAIN_PERIOD], f[13])))
        .Send(LED_REQUEST))
  }

  function LedDecode(h: Host, f: seq<byte>): Option<Host> {
    if |f| < 2 then None
    else Some(h.(info := h.info.(leds := LedsOf(f[0], f[1]))).Send(CHARGE_REQUEST))
  }

  /** A frame too short for the state would be read on into what the buffer held before; that counts
      as out of range too. */
  function StateDecode(h: Host, f: seq<byte>): Option<Host> {
    if |f| < 3 || |h.scales| <= CHARGE_STATE then None
    else
      var report := h.info.(chargeState := ApplyScaleAndSign(h.scales[CHARGE_STATE], f[1], f[2]));
      Some(h.(info := EMPTY_INFO, reports := h.reports + [report]))
  }

  /** The effect of a frame with a good checksum; `frame` begins with the header byte. */
  function Handle(h: Host, frame: seq<byte>): Option<Host>
    requires frame != []
  {
    if frame[0] == FRAME_HEADER then
      if |frame| < 2 then None
      else if frame[1] == 0x56 then VersionDecode(h, frame[2..])
      else if frame[1] == 0x57 then
        if |frame| < 3 then None
        else if frame[2] == 0x8E then ScaleDecode(h, frame[2..])
        else if frame[2] == 0x85 then StateDecode(h, frame[2..])
        else Some(h)
      else if frame[1] == 0x4C then LedDecode(h, frame[2..])
      else Some(h)
    else if frame[0] == INFO_HEADER then
      if |frame| < 6 then None
      else if frame[5] == 0x0C then DcDecode(h, frame[1..])
      else if frame[5] == 0x08 then AcDecode(h, frame[1..])
      else Some(h)
    else Some(h)
  }

  // ----- The same in numbers

  /** The value shown for the raw number `v`: factor times the number with its offset, or the number itself on
      a missing scale. */
  ghost predicate IsReading(value: real, s: Scaling, v: int) {
    value == if s.supported then s.factor * (v + s.offset) as real else v as real
  }

  /** The same where a missing scale gives 0. */
  ghost predicate IsReadingOr0(value: real, s: Scaling, v: int) {
    value == if s.supported then s.factor * (v + s.offset) as real else 0.0
  }

  /** Discharged less charged: the offset cancels, and only the factor is left. */
  ghost predicate IsDifference(value: real, s: Scaling, used: nat, charge: nat) {
    value == if s.supported then s.factor * (used - charge) as real else (used - charge) as real
  }

  lemma ScaledNumber(s: Scaling, v: int)
    ensures IsReading(ApplyScale(s, v as real), s, v)
  {
  }

  lemma SignedWord(v: int)
    requires -0x8000 <= v < 0x8000
    ensures Signed16(Le16(v % 256, v / 256 % 256)) == v
  {
    VeBus.LowBytes(v);
    Signed16OfLow16(v);
    assert Le16(Low16(v) % 256, Low16(v) / 256) == Low16(v);
  }

  /** A number with the sign of its scale, which comes out as 0 on a missing scale. */
  lemma WordReadsBack(s: Scaling, v: int)
    requires if s.signed then -0x8000 <= v < 0x8000 else 0 <= v < 0x1_0000
    ensures IsReadingOr0(ApplyScaleAndSign(s, v % 256, v / 256 % 256), s, v)
  {
    ScaledNumber(s, v);
    hide ApplyScale;
    if s.signed {
      SignedWord(v);
    }
  }

  lemma Word24ReadsBack(v: nat)
    requires v < 0x100_0000
    ensures Le24(v % 256, v / 256 % 256, v / 0x1_0000) == v
  {
    assert v / 256 / 256 == v / 0x1_0000;
  }

  lemma OffsetCancels(s: Scaling, used: nat, charge: nat)
    ensures IsDifference(ApplyScale(s, used as real) - ApplyScale(s, charge as real), s, used, charge)
  {
  }

  /** No period, 0 or 0xFF, is frequency 0; any other is such that frequency times scaled period is 10. */
  ghost predicate IsFrequency(f: real, s: Scaling, data: int) {
    && (data == 0 || data == 0xFF ==> f == 0.0)
    && var period := if s.supported then s.factor * (data + s.offset) as real else data as real;
       data != 0 && data != 0xFF && period != 0.0 ==> f * period == 10.0
  }

  lemma FrequencyOf(s: Scaling, data: byte)
    ensures IsFrequency(Frequency(s, data), s, data)
    ensures data == 0 || data == 0xFF ==> Frequency(s, data) == 0.0
  {
    ScaledNumber(s, data);
    hide ApplyScale;
  }

  /** The numbers a device puts into a DC frame come out scaled: the voltage with its
      sign, the current as the scaled difference of discharge and charge, in which the
      offset cancels, the frequency from the scaled period. Nothing else changes but the request that follows. */
  lemma DcReadsBack(h: Host, head: seq<byte>, voltage: int, used: nat, charge: nat, period: byte)
    requires |head| == 6 && head[0] == 0x20 && head[5] == 0x0C && |h.scales| == 14
    requires used < 0x100_0000 && charge < 0x100_0000
    requires if h.scales[4].signed then -0x8000 <= voltage < 0x8000 else 0 <= voltage < 0x1_0000
    ensures var g := Handle(h, head + [voltage % 256, voltage / 256 % 256,
                                       used % 256, used / 256 % 256, used / 0x1_0000,
                                       charge % 256, charge / 256 % 256, charge / 0x1_0000, period]);
            && g.Some?
            && g.value == h.(sent := h.sent + [[0x03, 0xFF, 0x46, 0x01, 0xB7]],
                             info := h.info.(batVoltage := g.value.info.batVoltage,
                                             batCurrent := g.value.info.batCurrent,
                                             outFrequency := g.value.info.outFrequency))
            && IsReadingOr0(g.value.info.batVoltage, h.scales[4], voltage)
            && IsDifference(g.value.info.batCurrent, h.scales[5], used, charge)
            && IsFrequency(g.value.info.outFrequency, h.scales[7], period)
  {
    hide Handle, DcDecode, IsFrequency, IsReadingOr0, IsDifference;
    hide ApplyScale, ApplyScaleAndSign, Frequency, Le24, CommandFrame;
    var parts: seq<byte> := [voltage % 256, voltage / 256 % 256, used % 256, used / 256 % 256, used / 0x1_0000,
                             charge % 256, charge / 256 % 256, charge / 0x1_0000, period];
    DcParts(h, head, parts);
    WordReadsBack(h.scales[V_BAT], voltage);
    Word24ReadsBack(used);
    Word24ReadsBack(charge);
    OffsetCancels(h.scales[I_BAT], used, charge);
    FrequencyOf(h.scales[INVERTER_PERIOD], period);
    RequestsInBytes();
  }

  lemma DcParts(h: Host, head: seq<byte>, b: seq<byte>)
    requires |head| == 6 && head[0] == 0x20 && head[5] == 0x0C && |h.scales| == 14 && |b| == 9
    ensures Handle(h, head + b) == Some(
      h.(sent := h.sent + [CommandFrame(AC_REQUEST)],
         info := h.info.(
           batVoltage := ApplyScaleAndSign(h.scales[V_BAT], b[0], b[1]),
           batCurrent := ApplyScale(h.scales[I_BAT], Le24(b[2], b[3], b[4]) as real)
                         - ApplyScale(h.scales[I_BAT], Le24(b[5], b[6], b[7]) as real),
           outFrequency := Frequency(h.scales[INVERTER_PERIOD], b[8]))))
  {
    hide ApplyScale, ApplyScaleAndSign, Le24, CommandFrame;
    FrequencyOf(h.scales[INVERTER_PERIOD], b[8]);
    var f := (head + b)[1..];
    assert f[5] == b[0] && f[6] == b[1] && f[7] == b[2] && f[8] == b[3] && f[9] == b[4];
    assert f[10] == b[5] && f[11] == b[6] && f[12] == b[7] && f[13] == b[8];
    hide Frequency, IsFrequency;
  }

  /** A real inverter: its period scale 0x7857 with offset 256 makes 50.03 Hz of the period byte 0x88. */
  lemma InverterFrequencyExample(h: Host, head: seq<byte>, check: byte)
    requires |head| == 6 && head[0] == 0x20 && head[5] == 0x0C && |h.scales| == 14
    requires h.scales[7] == ScaleOf([0x8E, 0x57, 0x78, 0x00, 0x01, check]) && !h.scales[4].signed
    ensures var g := Handle(h, head + [0, 0, 0, 0, 0, 0, 0, 0, 0x88]);
            g.Some? && 50.02 < g.value.info.outFrequency < 50.03
  {
    hide Handle;
    DcReadsBack(h, head, 0, 0, 0, 0x88);
    ScaleLayouts(0x7857, 256, 0, check);
    hide ScaleOf;
    assert 0x8000 - 0x7857 == 1961 && 0x88 + 256 == 392;
    TenOver(Handle(h, head + [0, 0, 0, 0, 0, 0, 0, 0, 0x88]).value.info.outFrequency, h.scales[7].factor);
  }

  lemma TenOver(f: real, factor: real)
    requires factor * 1961.0 == 1.0 && (factor * 392.0 != 0.0 ==> f * (factor * 392.0) == 10.0)
    ensures 50.02 < f < 50.03
  {
    assert factor == 1.0 / 1961.0;
  }

  /** The same for an AC frame, whose four numbers are all signed and come out as they are on a missing scale. */
  lemma AcReadsBack(h: Host, head: seq<byte>, inVolts: int, inAmps: int, outVolts: int, outAmps: int, period: byte)
    requires |head| == 6 && head[0] == 0x20 && head[5] == 0x08 && |h.scales| == 14
    requires -0x8000 <= inVolts < 0x8000 && -0x8000 <= inAmps < 0x8000
    requires -0x8000 <= outVolts < 0x8000 && -0x8000 <= outAmps < 0x8000
    ensures var g := Handle(h, head + [inVolts % 256, inVolts / 256 % 256, inAmps % 256, inAmps / 256 % 256,
                                       outVolts % 256, outVolts / 256 % 256, outAmps % 256, outAmps / 256 % 256,
                                       period]);
            && g.Some?
            && g.value == h.(sent := h.sent + [[0x02, 0xFF, 0x4C, 0xB3]],
                             info := h.info.(inVoltage := g.value.info.inVoltage,
                                             inCurrent := g.value.info.inCurrent,
                                             outVoltage := g.value.info.outVoltage,
                                             outCurrent := g.value.info.outCurrent,
                                             inFrequency := g.value.info.inFrequency))
            && IsReading(g.value.info.inVoltage, h.scales[0], inVolts)
            && IsReading(g.value.info.inCurrent, h.scales[1], inAmps)
            && IsReading(g.value.info.outVoltage, h.scales[2], outVolts)
            && IsReading(g.value.info.outCurrent, h.scales[3], outAmps)
            && IsFrequency(g.value.info.inFrequency, h.scales[8], period)
  {
    hide Handle, AcDecode, IsFrequency, IsReading, ApplyScale, Frequency, Le16, Signed16, CommandFrame;
    var parts: seq<byte> := [inVolts % 256, inVolts / 256 % 256, inAmps % 256, inAmps / 256 % 256,
                             outVolts % 256, outVolts / 256 % 256, outAmps % 256, outAmps / 256 % 256, period];
    AcParts(h, head, parts);
    SignedWord(inVolts);
    SignedWord(inAmps);
    SignedWord(outVolts);
    SignedWord(outAmps);
    ScaledNumber(h.scales[V_MAINS], inVolts);
    ScaledNumber(h.scales[I_MAINS], inAmps);
    ScaledNumber(h.scales[V_INVERTER], outVolts);
    ScaledNumber(h.scales[I_INVERTER], outAmps);
    FrequencyOf(h.scales[MAIN_PERIOD], period);
    RequestsInBytes();
  }

  lemma AcParts(h: Host, head: seq<byte>, b: seq<byte>)
    requires |head| == 6 && head[0] == 0x20 && head[5] == 0x08 && |h.scales| == 14 && |b| == 9
    ensures Handle(h, head + b) == Some(
      h.(sent := h.sent + [CommandFrame(LED_REQUEST)],
         info := h.info.(
           inVoltage := ApplyScale(h.scales[V_MAINS], Signed16(Le16(b[0], b[1])) as real),
           inCurrent := ApplyScale(h.scales[I_MAINS], Signed16(Le16(b[2], b[3])) as real),
           outVoltage := ApplyScale(h.scales[V_INVERTER], Signed16(Le16(b[4], b[5])) as real),
           outCurrent := ApplyScale(h.scales[I_INVERTER], Signed16(Le16(b[6], b[7])) as real),
           inFrequency := Frequency(h.scales[MAIN_PERIOD], b[8]))))
  {
    hide ApplyScale, Le16, Signed16, CommandFrame;
    FrequencyOf(h.scales[MAIN_PERIOD], b[8]);
    var f := (head + b)[1..];
    assert f[5] == b[0] && f[6] == b[1] && f[7] == b[2] && f[8] == b[3] && f[9] == b[4];
    assert f[10] == b[5] && f[11] == b[6] && f[12] == b[7] && f[13] == b[8];
    hide Frequency, IsFrequency;
  }

  /** A charge answer completes the report with the scaled charge and begins an empty one. */
  lemma StateReadsBack(h: Host, charge: int, rest: seq<byte>)
    requires |h.scales| == 14
    requires if h.scales[13].signed then -0x8000 <= charge < 0x8000 else 0 <= charge < 0x1_0000
    ensures var g := Handle(h, [0xFF, 0x57, 0x85, charge % 256, charge / 256 % 256] + rest);
            && g.Some? && |g.value.reports| == |h.reports| + 1
            && var report := g.value.reports[|h.reports|];
            && IsReadingOr0(report.chargeState, h.scales[13], charge)
            && g.value == h.(reports := h.reports + [h.info.(chargeState := report.chargeState)],
                             info := Info(0, false, 0, 0.0, 0.0, 0.0, 0.0, 0.0, 0.0, 0.0, 0.0, 0.0, []))
  {
    hide IsReadingOr0, ApplyScaleAndSign;
    WordReadsBack(h.scales[CHARGE_STATE], charge);
    var f := ([0xFF, 0x57, 0x85, charge % 256, charge / 256 % 256] + rest)[2..];
    assert f[1] == charge % 256 && f[2] == charge / 256 % 256;
    assert Handle(h, [0xFF, 0x57, 0x85, charge % 256, charge / 256 % 256] + rest) == StateDecode(h, f);
  }

  /** Each LED shows what its own bit says: on before blinking, and off when neither bit is set. */
  lemma LedsReadBack(h: Host, on: byte, blink: byte, rest: seq<byte>, i: nat)
    requires i < 8
    ensures var g := Handle(h, [0xFF, 0x4C, on, blink] + rest);
            var unit := [1, 2, 4, 8, 16, 32, 64, 128][i];
            && g.Some? && |g.value.info.leds| == 8
            && g.value == h.(sent := h.sent + [[0x05, 0xFF, 0x57, 0x30, 0x0D, 0x00, 0x68]],
                             info := h.info.(leds := g.value.info.leds))
            && (g.value.info.leds[i] == LedOn <==> on / unit % 2 == 1)
            && (g.value.info.leds[i] == LedBlink <==> on / unit % 2 == 0 && blink / unit % 2 == 1)
  {
    RequestsInBytes();
    PowersOfTwo();
    hide CommandFrame;
    assert LedsOf(on, blink)[i] == LedAt(on, blink, i);
  }

  lemma PowersOfTwo()
    ensures Power2(0) == 1 && Power2(1) == 2 && Power2(2) == 4 && Power2(3) == 8
    ensures Power2(4) == 16 && Power2(5) == 32 && Power2(6) == 64 && Power2(7) == 128
  {
    assert Power2(2) == 2 * Power2(1) && Power2(4) == 2 * Power2(3) && Power2(6) == 2 * Power2(5);
  }

  /** A version frame: the number kept, and the next request, for the scale that is missing or the DC readings. */
  lemma VersionReadsBack(h: Host, a: byte, b: byte, c: byte, d: byte, rest: seq<byte>)
    requires h.scaleCount < 256
    ensures var n := h.scaleCount;
            var ask: seq<byte> := if n < 14 then [0x05, 0xFF, 0x57, 0x36, n, 0x00, (1024 - 0x191 - n) % 256]
                                  else [0x03, 0xFF, 0x46, 0x00, 0xB8];
            Handle(h, [0xFF, 0x56, a, b, c, d] + rest)
            == Some(h.(info := h.info.(version := 8 * (a as nat) + 16 * b + 32 * c + 64 * d, valid := true),
                       sent := h.sent + [ask]))
  {
    var f := ([0xFF, 0x56, a, b, c, d] + rest)[2..];
    BothSums(f, a, b, c, d);
    RequestsInBytes();
    ScaleRequestInBytes(h.scaleCount);
    hide CommandFrame, VersionSum;
  }

  /** A scale answer is the next scale, whatever it is, and asks for the one after it, up to 14. */
  lemma ScaleReadsBack(h: Host, answer: seq<byte>)
    requires h.scaleCount < 255
    ensures var n := h.scaleCount + 1;
            Handle(h, [0xFF, 0x57, 0x8E] + answer)
            == Some(h.(scales := h.scales + [ScaleOf([0x8E] + answer)], scaleCount := n,
                       sent := if n < 14 then h.sent + [[0x05, 0xFF, 0x57, 0x36, n, 0x00, (1024 - 0x191 - n) % 256]]
                               else h.sent))
  {
    assert ([0xFF, 0x57, 0x8E] + answer)[2..] == [0x8E] + answer;
    ScaleRequestInBytes(h.scaleCount + 1);
    hide CommandFrame, ScaleOf;
  }

  /** All other frames change nothing. */
  lemma OtherFramesAreIgnored(h: Host, f: seq<byte>)
    requires |f| >= 6
    requires f[0] == 0xFF ==> f[1] != 0x56 && f[1] != 0x4C && (f[1] == 0x57 ==> f[2] != 0x8E && f[2] != 0x85)
    requires f[0] == 0x20 ==> f[5] != 0x0C && f[5] != 0x08
    ensures Handle(h, f) == Some(h)
  {
  }

  /** The requests of the driver, byte by byte. */
  lemma RequestsInBytes()
    ensures CommandFrame(TARGET_REQUEST) == [0x04, 0xFF, 0x41, 0x01, 0x00, 0xBB]
    ensures CommandFrame(DC_REQUEST) == [0x03, 0xFF, 0x46, 0x00, 0xB8]
    ensures CommandFrame(AC_REQUEST) == [0x03, 0xFF, 0x46, 0x01, 0xB7]
    ensures CommandFrame(LED_REQUEST) == [0x02, 0xFF, 0x4C, 0xB3]
    ensures CommandFrame(CHARGE_REQUEST) == [0x05, 0xFF, 0x57, 0x30, 0x0D, 0x00, 0x68]
  {
    TwoByteRequests();
    OtherRequests();
  }

  lemma TwoByteRequests()
    ensures CommandFrame([0x46, 0x00]) == [0x03, 0xFF, 0x46, 0x00, 0xB8]
    ensures CommandFrame([0x46, 0x01]) == [0x03, 0xFF, 0x46, 0x01, 0xB7]
    ensures CommandFrame([0x4C]) == [0x02, 0xFF, 0x4C, 0xB3]
  {
    VeBus.SumOfTwo(0x03, 0xFF);
    VeBus.SumOfTwo(0x02, 0xFF);
    VeBus.SumOfTwo(0x46, 0x00);
    VeBus.SumOfTwo(0x46, 0x01);
    SumSnoc([], 0x4C);
    AppendNothing<byte>([0x4C]);
    hide VeBus.Sealed, Sum;
    VeBus.SealedBy([0x03, 0xFF], [0x46, 0x00], 0xB8);
    VeBus.SealedBy([0x03, 0xFF], [0x46, 0x01], 0xB7);
    VeBus.SealedBy([0x02, 0xFF], [0x4C], 0xB3);
    assert CommandFrame([0x46, 0x00]) == [0x03, 0xFF] + [0x46, 0x00] + [0xB8];
    assert CommandFrame([0x46, 0x01]) == [0x03, 0xFF] + [0x46, 0x01] + [0xB7];
    assert CommandFrame([0x4C]) == [0x02, 0xFF] + [0x4C] + [0xB3];
  }

  lemma OtherRequests()
    ensures CommandFrame([0x41, 0x01, 0x00]) == [0x04, 0xFF, 0x41, 0x01, 0x00, 0xBB]
    ensures CommandFrame([0x57, 0x30, 0x0D, 0x00]) == [0x05, 0xFF, 0x57, 0x30, 0x0D, 0x00, 0x68]
  {
    VeBus.SumOfTwo(0x04, 0xFF);
    VeBus.SumOfTwo(0x05, 0xFF);
    VeBus.SumOfThree(0x41, 0x01, 0x00);
    VeBus.SumOfFour(0x57, 0x30, 0x0D, 0x00);
    hide VeBus.Sealed, Sum;
    VeBus.SealedBy([0x04, 0xFF], [0x41, 0x01, 0x00], 0xBB);
    VeBus.SealedBy([0x05, 0xFF], [0x57, 0x30, 0x0D, 0x00], 0x68);
    assert CommandFrame([0x41, 0x01, 0x00]) == [0x04, 0xFF] + [0x41, 0x01, 0x00] + [0xBB];
    assert CommandFrame([0x57, 0x30, 0x0D, 0x00]) == [0x05, 0xFF] + [0x57, 0x30, 0x0D, 0x00] + [0x68];
  }

  lemma ScaleRequestInBytes(i: nat)
    requires i < 256
    ensures CommandFrame(ScaleRequest(i)) == [0x05, 0xFF, 0x57, 0x36, i, 0x00, (1024 - 0x191 - i) % 256]
  {
    VeBus.SumOfTwo(0x05, 0xFF);
    VeBus.SumOfFour(0x57, 0x36, i, 0x00);
    hide VeBus.Sealed, Sum;
    VeBus.CheckCompletes(0x191 + i);
    var c := (1024 - 0x191 - i) % 256;
    VeBus.SealedBy([0x05, 0xFF], [0x57, 0x36, i, 0x00], c);
    assert CommandFrame(ScaleRequest(i)) == [0x05, 0xFF] + [0x57, 0x36, i, 0x00] + [c];
  }

  /** The effect of one round of the frame locker; a rejected frame changes nothing. */
  function Advance(h: Host, e: Event): Option<Host>
    requires e.Handed? ==> |e.frame| >= 2
  {
    match e
    case Handed(frame) => Handle(h, frame[1..])
    case Failed(errors) => Some(h.(info := h.info.(errors := h.info.errors + errors, valid := false)))
    case _ => Some(h)
  }

  /** When the input ends in the middle of a frame, the lock is given up, what is left of the input is gone,
      the readings are no longer valid, and one error is counted, or two for a locked receiver with nothing at all. */
  lemma EndOfInput(r: Reader, h: Host, input: seq<byte>)
    requires if input == [] then true
             else if r.locked then |input| - 2 < input[0]
             else (input[0] == 0xFF || input[0] == 0x20) && |input| - 1 < r.previous
    ensures var round := NextRound(r, input);
            && round.reader == Reader(false, if input == [] then 0 else input[0]) && round.rest == []
            && Advance(h, round.event)
               == Some(h.(info := h.info.(errors := h.info.errors + (if r.locked && input == [] then 2 else 1),
                                          valid := false)))
  {
  }

  datatype Served = Served(reader: Reader, host: Host)

  /** The rounds until all input is used up; `None` when a frame ends the program. */
  function Serve(r: Reader, h: Host, input: seq<byte>): Option<Served>
    decreases |input|
  {
    if input == [] then Some(Served(r, h))
    else
      var round := NextRound(r, input);
      match Advance(h, round.event)
      case None => None
      case Some(g) => Serve(round.reader, g, round.rest)
  }

  function HandleAll(h: Host, frames: seq<seq<byte>>): Option<Host>
    decreases frames
  {
    if frames == [] then Some(h)
    else if |frames[0]| < 2 then None
    else match Handle(h, frames[0][1..])
      case None => None
      case Some(g) => HandleAll(g, frames[1..])
  }

  /** A locked driver takes a stream of well-formed frames one by one, each exactly once. */
  lemma {:induction false} ServesEveryFrame(r: Reader, h: Host, frames: seq<seq<byte>>)
    requires r.locked && AllWellFormed(frames)
    ensures Serve(r, h, Flatten(frames)) ==
            match HandleAll(h, frames)
            case None => None
            case Some(g) => Some(Served(Reader(true, Remembered(r.previous, frames)), g))
    decreases |frames|
  {
    if frames != [] {
      var f, rest := frames[0], Flatten(frames[1..]);
      LockedTakesFrame(r, f, rest);
      AppendNothing(rest);
      assert Flatten(frames) == f + rest;
      if Handle(h, f[1..]).Some? {
        ServesEveryFrame(Reader(true, f[0]), Handle(h, f[1..]).value, frames[1..]);
      }
    }
  }

  // ----- The driver

  class Mk2Ser {
    var input: seq<byte>          // what the device has still to deliver
    var sent: seq<seq<byte>>      // what has been written to it
    var info: Info
    var scales: seq<Scaling>
    var scaleCount: nat
    var frameLock: bool
    var frameLength: byte
    var reports: seq<Info>        // what has been offered on the info channel

    function State(): Host
      reads this
    {
      Host(info, scales, scaleCount, sent, reports)
    }

    function Locker(): Reader
      reads this
    {
      Reader(frameLock, frameLength)
    }

    constructor (device: seq<byte>)
      ensures State() == Host(EMPTY_INFO, [], 0, [CommandFrame(TARGET_REQUEST)], [])
      ensures Locker() == Reader(false, 0) && input == device
    {
      input := device;
      info, scales, scaleCount, reports := EMPTY_INFO, [], 0, [];
      frameLock, frameLength := false, 0;
      sent := [];
      new;
      SendCommand(TARGET_REQUEST);
    }

    method SendCommand(data: seq<byte>)
      modifies this`sent
      ensures sent == old(sent) + [CommandFrame(data)]
    {
      var dataOut := Compose(data);
      sent := sent + [dataOut[..]];
    }

    method AddError()
      modifies this`info
      ensures info == old(info).(errors := old(info).errors + 1, valid := false)
    {
      info := info.(errors := info.errors + 1, valid := false);
    }

    method ReadByte() returns (b: byte)
      modifies this`input, this`info
      ensures old(input) != [] ==> b == old(input)[0] && input == old(input)[1..] && info == old(info)
      ensures old(input) == [] ==>
                b == 0 && input == [] && info == old(info).(errors := old(info).errors + 1, valid := false)
    {
      if input == [] {
        AddError();
        return 0;
      }
      b := input[0];
      input := input[1..];
    }

    /** Reads exactly `n` bytes, or what there is and fails. */
    method ReadFull(n: nat) returns (d: seq<byte>, failed: bool)
      modifies this`input
      ensures failed == (|old(input)| < n)
      ensures !failed ==> d == old(input)[..n] && input == old(input)[n..]
      ensures failed ==> input == []
    {
      if |input| < n {
        input := [];
        return [], true;
      }
      d, input, failed := input[..n], input[n..], false;
    }

    method CheckChecksum(l: byte, t: byte, d: seq<byte>) returns (ok: bool)
      ensures ok == ((l + t + Sum(d)) % 256 == 0)
    {
      var cr: nat := (l + t) % 256;
      for i := 0 to |d|
        invariant cr == (l + t + Sum(d[..i])) % 256
      {
        SumSnoc(d[..i], d[i]);
        assert d[..i] + [d[i]] == d[..i + 1];
        WrapTwice(l + t + Sum(d[..i]), d[i]);
        cr := (cr + d[i]) % 256;
      }
      assert d[..|d|] == d;
      return cr == 0;
    }

    /** The loop itself, for as long as the device delivers. */
    method FrameLocker() returns (ok: bool)
      modifies this
      ensures ok == Serve(old(Locker()), old(State()), old(input)).Some?
      ensures ok ==> input == [] && Served(Locker(), State()) == Serve(old(Locker()), old(State()), old(input)).value
    {
      ghost var whole := Serve(Locker(), State(), input);
      while input != []
        invariant whole == Serve(Locker(), State(), input)
        decreases |input|
      {
        ok := FrameLockerRound();
        if !ok {
          return false;
        }
      }
      return true;
    }

    /** One round of the loop in `frameLocker`; not `ok` when it ends the program. */
    method FrameLockerRound() returns (ok: bool)
      modifies this
      ensures var round := NextRound(old(Locker()), old(input));
              && ok == Advance(old(State()), round.event).Some?
              && (ok ==> input == round.rest && Locker() == round.reader)
              && (ok ==> State() == Advance(old(State()), round.event).value)
    {
      hide Handle, Sum;
      ok := true;
      ghost var all := input;
      if frameLock {
        frameLength := ReadByte();
        var frame, failed := ReadFull(frameLength + 1);
        if failed {
          AddError();
          frameLock := false;
        } else {
          WholeFrame(all, frameLength + 1);
          ok := HandleFrame(frameLength, frame);
        }
      } else {
        var tmp := ReadByte();
        if tmp == FRAME_HEADER || tmp == INFO_HEADER {
          var d, failed := ReadFull(frameLength);
          if failed {
            AddError();
          } else {
            WholeFrame(all, frameLength);
            var good := CheckChecksum(frameLength, tmp, d);
            if good {
              frameLock := true;
            }
          }
        }
        frameLength := tmp;
      }
    }

    method HandleFrame(l: byte, frame: seq<byte>) returns (ok: bool)
      requires frame != []
      modifies this`info, this`scales, this`scaleCount, this`sent, this`reports, this`frameLock
      ensures (l + Sum(frame)) % 256 != 0 ==> ok && State() == old(State()) && !frameLock
      ensures (l + Sum(frame)) % 256 == 0 ==>
                && ok == Handle(old(State()), frame).Some?
                && (ok ==> State() == Handle(old(State()), frame).value && frameLock == old(frameLock))
    {
      assert frame == [frame[0]] + frame[1..];
      var good := CheckChecksum(l, frame[0], frame[1..]);
      if !good {
        frameLock := false;
        return true;
      }
      if frame[0] == FRAME_HEADER {
        if |frame| < 2 {
          return false;
        }
        if frame[1] == 0x56 {
          ok := DecodeVersion(frame[2..]);
        } else if frame[1] == 0x57 {
          if |frame| < 3 {
            return false;
          }
          if frame[2] == 0x8E {
            DecodeScale(frame[2..]);
          } else if frame[2] == 0x85 {
            ok := DecodeState(frame[2..]);
            return;
          }
          return true;
        } else if frame[1] == 0x4C {
          ok := DecodeLed(frame[2..]);
        } else {
          return true;
        }
      } else if frame[0] == INFO_HEADER {
        if |frame| < 6 {
          return false;
        }
        if frame[5] == 0x0C {
          ok := DecodeDc(frame[1..]);
        } else if frame[5] == 0x08 {
          ok := DecodeAc(frame[1..]);
        } else {
          return true;
        }
      } else {
        return true;
      }
    }

    method DecodeVersion(f: seq<byte>) returns (ok: bool)
      modifies this`info, this`sent
      ensures ok == VersionDecode(old(State()), f).Some?
      ensures ok ==> State() == VersionDecode(old(State()), f).value
    {
      if |f| < 4 {
        return false;
      }
      var version: nat := 0;
      var unit: nat := 1;
      for i := 0 to 4
        invariant unit == Power2(i) && version == VersionSum(f, i)
      {
        version := version + f[i] * unit * 8;
        unit := 2 * unit;
      }
      info := info.(version := version, valid := true);
      if scaleCount < SCALE_COUNT {
        SendCommand(ScaleRequest(scaleCount));
      } else {
        SendCommand(DC_REQUEST);
      }
      return true;
    }

    method DecodeScale(f: seq<byte>)
      modifies this`scales, this`scaleCount, this`sent
      ensures Some(State()) == ScaleDecode(old(State()), f)
    {
      var tmp := Scaling(0.0, 0, false, false);
      if |f| >= 6 {
        var scl := Signed16(Le16(f[1], f[2]));
        var ofs;
        if |f| == 6 {
          ofs := Signed16(Le16(f[3], f[4]));
        } else {
          ofs := Signed16(Le16(f[4], f[5]));
        }
        tmp := Scaling(Factor(scl), ofs, scl < 0, true);
      }
      scales := scales + [tmp];
      scaleCount := scaleCount + 1;
      if scaleCount < SCALE_COUNT {
        SendCommand(ScaleRequest(scaleCount));
      }
    }

    method DecodeDc(f: seq<byte>) returns (ok: bool)
      modifies this`info, this`sent
      ensures ok == DcDecode(old(State()), f).Some?
      ensures ok ==> State() == DcDecode(old(State()), f).value
    {
      if |f| < 14 || |scales| <= I_BAT || (!NoPeriod(f[13]) && |scales| <= INVERTER_PERIOD) {
        return false;
      }
      info := info.(batVoltage := ApplyScaleAndSign(scales[V_BAT], f[5], f[6]));
      var usedC := ApplyScale(scales[I_BAT], Le24(f[7], f[8], f[9]) as real);
      var chargeC := ApplyScale(scales[I_BAT], Le24(f[10], f[11], f[12]) as real);
      info := info.(batCurrent := usedC - chargeC);
      info := info.(outFrequency := if NoPeriod(f[13]) then 0.0 else Frequency(scales[INVERTER_PERIOD], f[13]));
      SendCommand(AC_REQUEST);
      return true;
    }

    method DecodeAc(f: seq<byte>) returns (ok: bool)
      modifies this`info, this`sent
      ensures ok == AcDecode(old(State()), f).Some?
      ensures ok ==> State() == AcDecode(old(State()), f).value
    {
      if |f| < 14 || |scales| <= I_INVERTER || (!NoPeriod(f[13]) && |scales| <= MAIN_PERIOD) {
        return false;
      }
      info := info.(inVoltage := ApplyScale(scales[V_MAINS], Signed16(Le16(f[5], f[6])) as real));
      info := info.(inCurrent := ApplyScale(scales[I_MAINS], Signed16(Le16(f[7], f[8])) as real));
      info := info.(outVoltage := ApplyScale(scales[V_INVERTER], Signed16(Le16(f[9], f[10])) as real));
      info := info.(outCurrent := ApplyScale(scales[I_INVERTER], Signed16(Le16(f[11], f[12])) as real));
      info := info.(inFrequency := if NoPeriod(f[13]) then 0.0 else Frequency(scales[MAIN_PERIOD], f[13]));
      SendCommand(LED_REQUEST);
      return true;
    }

    method DecodeLed(f: seq<byte>) returns (ok: bool)
      modifies this`info, this`sent
      ensures ok == LedDecode(old(State()), f).Some?
      ensures ok ==> State() == LedDecode(old(State()), f).value
    {
      if |f| < 2 {
        return false;
      }
      var leds := GetLEDs(f[0], f[1]);
      info := info.(leds := leds);
      SendCommand(CHARGE_REQUEST);
      return true;
    }

    method DecodeState(f: seq<byte>) returns (ok: bool)
      modifies this`info, this`reports
      ensures ok == StateDecode(old(State()), f).Some?
      ensures ok ==> State() == StateDecode(old(State()), f).value
    {
      if |f| < 3 || |scales| <= CHARGE_STATE {
        return false;
      }
      info := info.(chargeState := ApplyScaleAndSign(scales[CHARGE_STATE], f[1], f[2]));
      UpdateReport();
      return true;
    }

    method UpdateReport()
      modifies this`info, this`reports
      ensures reports == old(reports) + [old(info)] && info == EMPTY_INFO
    {
      reports := reports + [info];
      info := EMPTY_INFO;
    }
  }

  /** The command with its length, header and checksum. */
  method Compose(data: seq<byte>) returns (dataOut: array<byte>)
    ensures fresh(dataOut) && dataOut[..] == CommandFrame(data)
  {
    hide Sum, CommandFrame;
    var l := |data|;
    dataOut := new byte[l + 3](i => 0);
    dataOut[0] := (l + 1) % 256;
    dataOut[1] := FRAME_HEADER;
    var header: int := dataOut[0] + FRAME_HEADER;
    var cr: byte := (0x200 - header) % 256;
    ghost var body := [dataOut[0], dataOut[1]] + data;
    SumOfHead(body);
    for i := 0 to l
      invariant dataOut[0] == body[0] && dataOut[1] == body[1]
      invariant forall k :: 0 <= k < i ==> dataOut[k + 2] == data[k]
      invariant (cr + Sum(body[..i + 2])) % 256 == 0
    {
      SumOfPrefix(body, i + 2);
      CheckGoesOn(cr, Sum(body[..i + 2]), data[i]);
      cr := (cr + 256 - data[i]) % 256;
      dataOut[i + 2] := data[i];
    }
    dataOut[l + 2] := cr;
    SealedByParts(dataOut[..], data);
  }

  lemma SumOfPrefix(s: seq<byte>, i: nat)
    requires i < |s|
    ensures Sum(s[..i + 1]) == Sum(s[..i]) + s[i]
  {
    assert s[..i + 1] == s[..i] + [s[i]];
    SumSnoc(s[..i], s[i]);
  }

  lemma SumOfHead(s: seq<byte>)
    requires |s| >= 2
    ensures Sum(s[..2]) - s[0] == s[1]
  {
    VeBus.SumOfTwo(s[0], s[1]);
    assert s[..2] == [s[0], s[1]];
  }

  lemma CheckGoesOn(cr: nat, sum: nat, d: byte)
    requires (cr + sum) % 256 == 0
    ensures ((cr + 256 - d) % 256 + (sum + d)) % 256 == 0
  {
  }

  lemma SealedByParts(f: seq<byte>, data: seq<byte>)
    requires |f| == |data| + 3 && f[0] == (|data| + 1) % 256 && f[1] == FRAME_HEADER
    requires forall k :: 0 <= k < |data| ==> f[k + 2] == data[k]
    requires (f[|data| + 2] + Sum(([f[0], f[1]] + data)[..|data| + 2])) % 256 == 0
    ensures f == CommandFrame(data)
  {
    var body := [f[0], f[1]] + data;
    assert body[..|data| + 2] == body && f == body + [f[|data| + 2]];
    SumSnoc(body, f[|data| + 2]);
    VeBus.SealedIsUnique(f, body);
  }

  method GetLEDs(on: byte, blink: byte) returns (leds: seq<LedState>)
    ensures leds == LedsOf(on, blink)
  {
    leds := [];
    var shift := 1;
    for i := 0 to 8
      invariant shift == Power2(i)
      invariant leds == LedsOf(on, blink)[..i]
    {
      if (on / shift) % 2 == 1 {
        leds := leds + [LedOn];
      } else if (blink / shift) % 2 == 1 {
        leds := leds + [LedBlink];
      } else {
        leds := leds + [LedOff];
      }
      shift := 2 * shift;
    }
  }

  /** The byte read first and the `n` bytes read behind it are the next `n + 1` bytes. */
  lemma WholeFrame(s: seq<byte>, n: nat)
    requires |s| >= n + 1
    ensures s[1..][..n] == s[1..n + 1] && s[1..][n..] == s[n + 1..]
    ensures s[..n + 1] == [s[0]] + s[1..n + 1]
    ensures Sum(s[..n + 1]) == s[0] + Sum(s[1..n + 1])
    ensures s[..n + 1][1..] == s[1..n + 1]
  {
  }
}
