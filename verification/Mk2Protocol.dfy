/**
 The conversation between the MK2 driver and its device. The device answers the
 driver's requests one by one, in order; besides that it may send a version frame
 at any time. Everything proved here holds for every such run.
 */
module Mk2Protocol {
  import opened Bytes
  import opened Mk2Frames
  import opened Mk2

  // ----- What the device sends. A frame begins with its header byte.

  predicate IsVersion(f: seq<byte>) {
    |f| >= 6 && f[0] == FRAME_HEADER && f[1] == 0x56
  }

  predicate IsTargetAnswer(f: seq<byte>) {
    |f| >= 2 && f[0] == FRAME_HEADER && f[1] == 0x41
  }

  predicate IsScaleAnswer(f: seq<byte>) {
    |f| >= 3 && f[0] == FRAME_HEADER && f[1] == 0x57 && f[2] == 0x8E
  }

  predicate IsDcAnswer(f: seq<byte>) {
    |f| >= 15 && f[0] == INFO_HEADER && f[5] == 0x0C
  }

  predicate IsAcAnswer(f: seq<byte>) {
    |f| >= 15 && f[0] == INFO_HEADER && f[5] == 0x08
  }

  predicate IsLedAnswer(f: seq<byte>) {
    |f| >= 4 && f[0] == FRAME_HEADER && f[1] == 0x4C
  }

  predicate IsChargeAnswer(f: seq<byte>) {
    |f| >= 5 && f[0] == FRAME_HEADER && f[1] == 0x57 && f[2] == 0x85
  }

  predicate IsScaleRequest(r: seq<byte>) {
    |r| >= 5 && r[2] == 0x57 && r[3] == 0x36
  }

  /** The device's answer to a request, told apart by the bytes of the request itself. */
  predicate Answers(r: seq<byte>, f: seq<byte>) {
    && |r| >= 4
    && if r[2] == 0x41 then IsTargetAnswer(f)
       else if IsScaleRequest(r) then IsScaleAnswer(f)
       else if r[2] == 0x57 && r[3] == 0x30 then IsChargeAnswer(f)
       else if r[2] == 0x46 && r[3] == 0x00 then IsDcAnswer(f)
       else if r[2] == 0x46 && r[3] == 0x01 then IsAcAnswer(f)
       else r[2] == 0x4C && IsLedAnswer(f)
  }

  lemma CommandByte(data: seq<byte>, k: nat)
    requires k < |data|
    ensures |CommandFrame(data)| == |data| + 3 && CommandFrame(data)[k + 2] == data[k]
  {
    assert CommandFrame(data)[k + 2] == CommandFrame(data)[..|data| + 2][k + 2];
  }

  // ----- Runs

  datatype Event = Answer(frame: seq<byte>) | Version(frame: seq<byte>)

  /** The driver and the number of its requests answered so far. */
  datatype System = System(host: Host, answered: nat)
  {
    predicate AllAnswered() {
      answered == |host.sent|
    }

    /** The one request not answered yet is `command`. */
    predicate WaitsFor(command: seq<byte>) {
      |host.sent| == answered + 1 && host.sent[answered] == CommandFrame(command)
    }
  }

  const START := System(Host(EMPTY_INFO, [], 0, [CommandFrame(TARGET_REQUEST)], []), 0)

  predicate Possible(s: System, e: Event) {
    match e
    case Answer(f) => s.answered < |s.host.sent| && Answers(s.host.sent[s.answered], f)
    case Version(f) => IsVersion(f)
  }

  function Step(s: System, e: Event): Option<System>
    requires e.frame != []
  {
    match Handle(s.host, e.frame)
    case None => None
    case Some(h) => Some(System(h, if e.Answer? then s.answered + 1 else s.answered))
  }

  /** The state after the events of a run; `None` when the driver has stopped on an index out of range. */
  function Exec(events: seq<Event>): Option<System> {
    if events == [] then Some(START)
    else
      var s := Exec(Before(events));
      if s.None? || Last(events).frame == [] then None else Step(s.value, Last(events))
  }

  ghost predicate Run(events: seq<Event>) {
    events == [] ||
    (Run(Before(events)) && Exec(Before(events)).Some? && Possible(Exec(Before(events)).value, Last(events)))
  }

  function Before(events: seq<Event>): seq<Event>
    requires events != []
  {
    events[..|events| - 1]
  }

  function Last(events: seq<Event>): Event
    requires events != []
  {
    events[|events| - 1]
  }

  // ----- What each frame does

  lemma VersionEffect(h: Host, f: seq<byte>)
    requires IsVersion(f)
    ensures Handle(h, f) == Some(
      h.(info := h.info.(version := VersionSum(f[2..], 4), valid := true))
       .Send(if h.scaleCount < SCALE_COUNT then ScaleRequest(h.scaleCount) else DC_REQUEST))
  {
  }

  lemma ScaleEffect(h: Host, f: seq<byte>)
    requires IsScaleAnswer(f)
    ensures var g := h.(scales := h.scales + [ScaleOf(f[2..])], scaleCount := h.scaleCount + 1);
            Handle(h, f) == Some(if g.scaleCount < SCALE_COUNT then g.Send(ScaleRequest(g.scaleCount)) else g)
  {
  }

  /** `after` is `h` with new readings and one more request. */
  ghost predicate Measured(h: Host, after: Option<Host>, command: seq<byte>) {
    after.Some? && after.value == h.(info := after.value.info).Send(command)
  }

  lemma DcEffect(h: Host, f: seq<byte>)
    requires IsDcAnswer(f) && |h.scales| >= SCALE_COUNT
    ensures Handle(h, f) == DcDecode(h, f[1..]) && Measured(h, Handle(h, f), AC_REQUEST)
  {
  }

  lemma AcEffect(h: Host, f: seq<byte>)
    requires IsAcAnswer(f) && |h.scales| >= SCALE_COUNT
    ensures Handle(h, f) == AcDecode(h, f[1..]) && Measured(h, Handle(h, f), LED_REQUEST)
  {
  }

  lemma LedEffect(h: Host, f: seq<byte>)
    requires IsLedAnswer(f)
    ensures Handle(h, f) == LedDecode(h, f[2..]) && Measured(h, Handle(h, f), CHARGE_REQUEST)
  {
  }

  lemma ChargeEffect(h: Host, f: seq<byte>)
    requires IsChargeAnswer(f) && |h.scales| >= SCALE_COUNT
    ensures Handle(h, f) == StateDecode(h, f[2..])
    ensures Handle(h, f).Some? && |Handle(h, f).value.reports| == |h.reports| + 1
    ensures var report := h.info.(chargeState := ApplyScaleAndSign(h.scales[CHARGE_STATE], f[3], f[4]));
            Handle(h, f).value == h.(info := EMPTY_INFO, reports := h.reports + [report])
  {
  }

  lemma TargetEffect(h: Host, f: seq<byte>)
    requires IsTargetAnswer(f)
    ensures Handle(h, f) == Some(h)
  {
  }

  // ----- Safety of every run

  /** A request for a reading, which needs the scales. */
  ghost predicate AsksForReading(r: seq<byte>) {
    r == CommandFrame(DC_REQUEST) || r == CommandFrame(AC_REQUEST)
    || r == CommandFrame(LED_REQUEST) || r == CommandFrame(CHARGE_REQUEST)
  }

  ghost predicate AsksForScale(r: seq<byte>) {
    exists i: nat :: i < SCALE_COUNT && r == CommandFrame(ScaleRequest(i))
  }

  ghost predicate Invariant(s: System) {
    && s.host.scaleCount == |s.host.scales|
    && s.answered <= |s.host.sent|
    && forall k :: s.answered <= k < |s.host.sent| ==>
         || s.host.sent[k] == CommandFrame(TARGET_REQUEST)
         || AsksForScale(s.host.sent[k])
         || (AsksForReading(s.host.sent[k]) && s.host.scaleCount >= SCALE_COUNT)
  }

  /** The answer to a request of each kind has the frame form that goes with it. */
  lemma AnswerForms(f: seq<byte>)
    ensures Answers(CommandFrame(TARGET_REQUEST), f) <==> IsTargetAnswer(f)
    ensures Answers(CommandFrame(DC_REQUEST), f) <==> IsDcAnswer(f)
    ensures Answers(CommandFrame(AC_REQUEST), f) <==> IsAcAnswer(f)
    ensures Answers(CommandFrame(LED_REQUEST), f) <==> IsLedAnswer(f)
    ensures Answers(CommandFrame(CHARGE_REQUEST), f) <==> IsChargeAnswer(f)
  {
    CommandByte(TARGET_REQUEST, 0);
    CommandByte(DC_REQUEST, 0);
    CommandByte(DC_REQUEST, 1);
    CommandByte(AC_REQUEST, 0);
    CommandByte(AC_REQUEST, 1);
    CommandByte(LED_REQUEST, 0);
    CommandByte(CHARGE_REQUEST, 0);
    CommandByte(CHARGE_REQUEST, 1);
  }

  lemma ScaleAnswerForm(i: nat, f: seq<byte>)
    requires i < 256
    ensures Answers(CommandFrame(ScaleRequest(i)), f) <==> IsScaleAnswer(f)
    ensures IsScaleRequest(CommandFrame(ScaleRequest(i))) && CommandFrame(ScaleRequest(i))[4] == i
  {
    CommandByte(ScaleRequest(i), 0);
    CommandByte(ScaleRequest(i), 1);
    CommandByte(ScaleRequest(i), 2);
  }

  /** In every run no index is out of range: readings arrive only once all scales are there. */
  lemma {:induction false} EveryRunIsSafe(events: seq<Event>)
    requires Run(events)
    ensures Exec(events).Some? && Invariant(Exec(events).value)
    decreases |events|
  {
    if events != [] {
      EveryRunIsSafe(Before(events));
      StepKeepsInvariant(Exec(Before(events)).value, Last(events));
    }
  }

  lemma StepKeepsInvariant(s: System, e: Event)
    requires Invariant(s) && Possible(s, e)
    ensures e.frame != [] && Step(s, e).Some? && Invariant(Step(s, e).value)
  {
    hide Handle, CommandFrame, ScaleRequest;
    var f := e.frame;
    if e.Version? {
      VersionEffect(s.host, f);
    } else {
      var r := s.host.sent[s.answered];
      AnswerForms(f);
      if r == CommandFrame(TARGET_REQUEST) {
        TargetEffect(s.host, f);
      } else if AsksForScale(r) {
        var i: nat :| i < SCALE_COUNT && r == CommandFrame(ScaleRequest(i));
        ScaleAnswerForm(i, f);
        ScaleEffect(s.host, f);
      } else if r == CommandFrame(DC_REQUEST) {
        DcEffect(s.host, f);
      } else if r == CommandFrame(AC_REQUEST) {
        AcEffect(s.host, f);
      } else if r == CommandFrame(LED_REQUEST) {
        LedEffect(s.host, f);
      } else {
        ChargeEffect(s.host, f);
      }
    }
  }

  // ----- Which scale answer lands in which entry

  /** The answer to a scale request that a step receives, as a sequence of none or
      one: the entry it was asked for and the scale it gives. */
  function ScaleAnswer(s: System, e: Event): seq<(byte, Scaling)> {
    if e.Answer? && |e.frame| >= 2 && s.answered < |s.host.sent| && IsScaleRequest(s.host.sent[s.answered])
    then [(s.host.sent[s.answered][4], ScaleOf(e.frame[2..]))]
    else []
  }

  /** The scale answers of a run, in order. */
  function ScaleAnswers(events: seq<Event>): seq<(byte, Scaling)> {
    if events == [] || Exec(Before(events)).None? then []
    else ScaleAnswers(Before(events)) + ScaleAnswer(Exec(Before(events)).value, Last(events))
  }

  /** The scales are the answers to requests 0, 1, 2 and so on. */
  ghost predicate InOrder(answers: seq<(byte, Scaling)>, scales: seq<Scaling>) {
    |answers| == |scales| && forall i :: 0 <= i < |scales| ==> answers[i] == (i, scales[i])
  }

  /** The entries asked for by the scale requests from the `i`th request on. */
  function AskedFrom(sent: seq<seq<byte>>, i: nat): seq<nat>
    decreases |sent| - i
  {
    if i >= |sent| then [] else Asked(sent[i]) + AskedFrom(sent, i + 1)
  }

  function Asked(r: seq<byte>): seq<nat> {
    if IsScaleRequest(r) then [r[4]] else []
  }

  /** The entries asked for and not answered yet, in the order the answers will come. */
  function Pending(s: System): seq<nat> {
    AskedFrom(s.host.sent, s.answered)
  }

  lemma {:induction false} AskedFromSnoc(sent: seq<seq<byte>>, r: seq<byte>, i: nat)
    requires i <= |sent|
    ensures AskedFrom(sent + [r], i) == AskedFrom(sent, i) + Asked(r)
    decreases |sent| - i
  {
    if i < |sent| {
      AskedFromSnoc(sent, r, i + 1);
      AppendAssoc(Asked(sent[i]), AskedFrom(sent, i + 1), Asked(r));
    } else {
      assert AskedFrom(sent + [r], i) == Asked(r) + AskedFrom(sent + [r], i + 1);
    }
  }

  /** What a step does to the pending entries and the scales: a version frame asks for
      the next entry while there are fewer than 14 scales, a scale answer is taken for
      the oldest pending entry and asks for the one after the new scale, and no other frame does either. */
  ghost predicate Moves(s: System, t: System, e: Event) {
    var (q, c, answer) := (Pending(s), |s.host.scales|, ScaleAnswer(s, e));
    if e.Version? then answer == [] && t.host.scales == s.host.scales && Pending(t) == q + NextEntry(c)
    else if answer == [] then t.host.scales == s.host.scales && Pending(t) == q
    else
      && |answer| == 1 && q != [] && answer[0].0 == q[0]
      && t.host.scales == s.host.scales + [answer[0].1] && Pending(t) == q[1..] + NextEntry(c + 1)
  }

  function NextEntry(c: nat): seq<nat> {
    if c < SCALE_COUNT then [c] else []
  }

  lemma ReadingsAskNoScale()
    ensures Asked(CommandFrame(TARGET_REQUEST)) == Asked(CommandFrame(DC_REQUEST)) == []
    ensures Asked(CommandFrame(AC_REQUEST)) == Asked(CommandFrame(LED_REQUEST)) == []
    ensures Asked(CommandFrame(CHARGE_REQUEST)) == []
  {
    CommandByte(TARGET_REQUEST, 0);
    CommandByte(DC_REQUEST, 0);
    CommandByte(AC_REQUEST, 0);
    CommandByte(LED_REQUEST, 0);
    CommandByte(CHARGE_REQUEST, 0);
    CommandByte(CHARGE_REQUEST, 1);
  }

  lemma ScaleRequestAsks(i: nat)
    requires i < 256
    ensures Asked(CommandFrame(ScaleRequest(i))) == [i]
  {
    ScaleAnswerForm(i, []);
  }

  lemma VersionMoves(s: System, e: Event)
    requires Invariant(s) && Possible(s, e) && e.Version?
    ensures Step(s, e).Some? && Moves(s, Step(s, e).value, e)
  {
    VersionEffect(s.host, e.frame);
    var command := if s.host.scaleCount < SCALE_COUNT then ScaleRequest(s.host.scaleCount) else DC_REQUEST;
    AskedFromSnoc(s.host.sent, CommandFrame(command), s.answered);
    if s.host.scaleCount < SCALE_COUNT {
      ScaleRequestAsks(s.host.scaleCount);
    } else {
      ReadingsAskNoScale();
    }
  }

  /** The oldest pending entry gets the answer as the next scale. */
  lemma AnswerTaken(s: System, t: System, e: Event, i: byte, rest: seq<nat>)
    requires e.Answer? && |e.frame| >= 2 && ScaleAnswer(s, e) == [(i, ScaleOf(e.frame[2..]))]
    requires Pending(s) == [i] + rest && Pending(t) == rest + NextEntry(|s.host.scales| + 1)
    requires t.host.scales == s.host.scales + [ScaleOf(e.frame[2..])]
    ensures Moves(s, t, e)
  {
    hide Pending, ScaleAnswer, ScaleOf, NextEntry;
    assert Pending(s)[1..] == rest;
  }

  lemma ScaleAnswerMoves(s: System, e: Event)
    requires Invariant(s) && Possible(s, e) && e.Answer? && AsksForScale(s.host.sent[s.answered])
    ensures Step(s, e).Some? && Moves(s, Step(s, e).value, e)
  {
    var r := s.host.sent[s.answered];
    var i: nat :| i < SCALE_COUNT && r == CommandFrame(ScaleRequest(i));
    ScaleAnswerForm(i, e.frame);
    ScaleRequestAsks(i);
    ScaleEffect(s.host, e.frame);
    hide Handle, CommandFrame, ScaleRequest, Moves;
    var rest := AskedFrom(s.host.sent, s.answered + 1);
    assert Pending(s) == [i] + rest && Pending(s)[1..] == rest;
    var c := s.host.scaleCount + 1;
    if c < SCALE_COUNT {
      ScaleRequestAsks(c);
      AskedFromSnoc(s.host.sent, CommandFrame(ScaleRequest(c)), s.answered + 1);
    } else {
      AppendNothing(rest);
    }
    AnswerTaken(s, Step(s, e).value, e, i, rest);
  }

  /** An answer to another request than for a scale, after which at most one such request more is out. */
  lemma OtherAnswerMoves(s: System, t: System, e: Event, more: seq<seq<byte>>)
    requires e.Answer? && s.answered < |s.host.sent| && Asked(s.host.sent[s.answered]) == []
    requires more == [] || (|more| == 1 && Asked(more[0]) == [])
    requires t.answered == s.answered + 1 && t.host.sent == s.host.sent + more && t.host.scales == s.host.scales
    ensures Moves(s, t, e)
  {
    assert Pending(s) == AskedFrom(s.host.sent, s.answered + 1);
    AppendNothing(s.host.sent);
    if more != [] {
      assert more == [more[0]];
      AskedFromSnoc(s.host.sent, more[0], s.answered + 1);
    }
  }

  lemma ReadingMoves(s: System, e: Event)
    requires Invariant(s) && Possible(s, e) && e.Answer? && !AsksForScale(s.host.sent[s.answered])
    ensures e.frame != [] && Step(s, e).Some? && Moves(s, Step(s, e).value, e)
  {
    hide Handle, CommandFrame, IsScaleRequest, Asked, Answers, Moves;
    var r, f := s.host.sent[s.answered], e.frame;
    AnswerForms(f);
    ReadingsAskNoScale();
    AppendNothing(s.host.sent);
    if r == CommandFrame(TARGET_REQUEST) {
      TargetEffect(s.host, f);
      OtherAnswerMoves(s, Step(s, e).value, e, []);
    } else if r == CommandFrame(DC_REQUEST) {
      DcEffect(s.host, f);
      OtherAnswerMoves(s, Step(s, e).value, e, [CommandFrame(AC_REQUEST)]);
    } else if r == CommandFrame(AC_REQUEST) {
      AcEffect(s.host, f);
      OtherAnswerMoves(s, Step(s, e).value, e, [CommandFrame(LED_REQUEST)]);
    } else if r == CommandFrame(LED_REQUEST) {
      LedEffect(s.host, f);
      OtherAnswerMoves(s, Step(s, e).value, e, [CommandFrame(CHARGE_REQUEST)]);
    } else {
      ChargeEffect(s.host, f);
      OtherAnswerMoves(s, Step(s, e).value, e, []);
    }
  }

  lemma EveryStepMoves(s: System, e: Event)
    requires Invariant(s) && Possible(s, e)
    ensures e.frame != [] && Step(s, e).Some? && Moves(s, Step(s, e).value, e)
  {
    if e.Version? {
      VersionMoves(s, e);
    } else if AsksForScale(s.host.sent[s.answered]) {
      var i: nat :| i < SCALE_COUNT && s.host.sent[s.answered] == CommandFrame(ScaleRequest(i));
      ScaleAnswerForm(i, e.frame);
      ScaleAnswerMoves(s, e);
    } else {
      ReadingMoves(s, e);
    }
  }

  // ----- Version frames and the negotiation

  /** The condition on an event: no version frame while fewer than 14 scales are there and a scale
      request is unanswered. */
  predicate CalmEvent(s: System, e: Event) {
    e.Version? ==> |s.host.scales| >= SCALE_COUNT || Pending(s) == []
  }

  ghost predicate CalmRun(events: seq<Event>) {
    events == [] ||
    (&& CalmRun(Before(events)) && Exec(Before(events)).Some?
     && Possible(Exec(Before(events)).value, Last(events)) && CalmEvent(Exec(Before(events)).value, Last(events)))
  }

  /** Every pending request is for the entry its answer will get. */
  ghost predicate Aligned(s: System) {
    forall k :: 0 <= k < |Pending(s)| ==> Pending(s)[k] == |s.host.scales| + k
  }

  /** At most the next entry is pending. */
  ghost predicate CalmState(s: System) {
    var c := |s.host.scales|;
    c <= SCALE_COUNT && (Pending(s) == [] || (c < SCALE_COUNT && Pending(s) == [c]))
  }

  /** What has once gone wrong stays wrong: an answer in the wrong entry stays there, and
      a misplaced request will be answered into the wrong entry. */
  lemma MisplacedForGood(s: System, t: System, e: Event, answers: seq<(byte, Scaling)>)
    requires Moves(s, t, e) && InOrder(answers + ScaleAnswer(s, e), t.host.scales) && Aligned(t)
    ensures InOrder(answers, s.host.scales) && Aligned(s)
  {
    hide ScaleAnswer, Pending;
    var a := ScaleAnswer(s, e);
    assert forall i :: 0 <= i < |answers| ==> answers[i] == (answers + a)[i];
    if a != [] {
      assert (answers + a)[|answers|] == a[0];
      assert forall k :: 1 <= k < |Pending(s)| ==> Pending(t)[k - 1] == Pending(s)[k];
    } else {
      assert forall k :: 0 <= k < |Pending(s)| ==> Pending(t)[k] == Pending(s)[k];
    }
  }

  lemma CalmMove(s: System, t: System, e: Event, answers: seq<(byte, Scaling)>)
    requires Moves(s, t, e) && CalmState(s) && InOrder(answers, s.host.scales) && CalmEvent(s, e)
    ensures CalmState(t) && InOrder(answers + ScaleAnswer(s, e), t.host.scales)
  {
    hide ScaleAnswer, Pending;
  }

  lemma DisturbingMove(s: System, t: System, e: Event)
    requires Moves(s, t, e) && !CalmEvent(s, e)
    ensures !Aligned(t)
  {
    hide ScaleAnswer, Pending;
    var k := |Pending(s)|;
    assert Pending(t)[k] == |s.host.scales| && |t.host.scales| == |s.host.scales|;
  }

  /** In every run, however many requests are outstanding: each scale is and will be the
      answer to the request for its own entry if and only if no version frame came in the middle of the negotiation. */
  lemma {:induction false} AlignedIffCalm(events: seq<Event>)
    requires Run(events)
    ensures Exec(events).Some?
    ensures var s := Exec(events).value;
            && (CalmRun(events) <==> InOrder(ScaleAnswers(events), s.host.scales) && Aligned(s))
            && (CalmRun(events) ==> CalmState(s))
    decreases |events|
  {
    EveryRunIsSafe(events);
    if events == [] {
      NothingPendingAtStart();
    } else {
      var s, e := Exec(Before(events)).value, Last(events);
      EveryRunIsSafe(Before(events));
      AlignedIffCalm(Before(events));
      EveryStepMoves(s, e);
      ExecNext(events, s);
      var t, answers := Exec(events).value, ScaleAnswers(Before(events));
      hide Moves, InOrder, Aligned, Handle;
      if InOrder(ScaleAnswers(events), t.host.scales) && Aligned(t) {
        MisplacedForGood(s, t, e, answers);
        if !CalmEvent(s, e) {
          DisturbingMove(s, t, e);
        }
      }
      if CalmRun(events) {
        CalmMove(s, t, e, answers);
        CalmIsAligned(t);
      }
    }
  }

  lemma NothingPendingAtStart()
    ensures Pending(START) == []
  {
    ReadingsAskNoScale();
    assert START.host.sent[0] == CommandFrame(TARGET_REQUEST);
    assert AskedFrom(START.host.sent, 1) == [];
  }

  lemma CalmIsAligned(s: System)
    requires CalmState(s)
    ensures Aligned(s)
  {
  }

  /** Whenever no scale request is outstanding: the scales are the answers to requests 0, 1,
      2 and so on, at most 14, if and only if no version frame came while a scale request
      was unanswered and scales were missing. */
  lemma ScalesMatchRequestsIffCalm(events: seq<Event>)
    requires Run(events) && Exec(events).Some? && Pending(Exec(events).value) == []
    ensures InOrder(ScaleAnswers(events), Exec(events).value.host.scales) <==> CalmRun(events)
    ensures CalmRun(events) ==> |Exec(events).value.host.scales| <= SCALE_COUNT
  {
    AlignedIffCalm(events);
  }

  /** In a calm run the scales are in order at every moment, also in the middle of the negotiation. */
  lemma CalmScalesMatchRequests(events: seq<Event>)
    requires CalmRun(events)
    ensures Exec(events).Some? && |Exec(events).value.host.scales| <= SCALE_COUNT
    ensures InOrder(ScaleAnswers(events), Exec(events).value.host.scales)
  {
    CalmRunIsRun(events);
    AlignedIffCalm(events);
  }

  lemma {:induction false} CalmRunIsRun(events: seq<Event>)
    requires CalmRun(events)
    ensures Run(events)
    decreases |events|
  {
    if events != [] {
      CalmRunIsRun(Before(events));
    }
  }

  lemma ExecNext(events: seq<Event>, s: System)
    requires events != [] && Exec(Before(events)) == Some(s) && Last(events).frame != []
    ensures Exec(events) == Step(s, Last(events))
    ensures ScaleAnswers(events) == ScaleAnswers(Before(events)) + ScaleAnswer(s, Last(events))
  {
  }

  // ----- Runs in which version frames come only when nothing is outstanding

  ghost predicate QuietRun(events: seq<Event>) {
    events == [] ||
    (&& QuietRun(Before(events)) && Exec(Before(events)).Some?
     && Possible(Exec(Before(events)).value, Last(events))
     && (Last(events).Version? ==> Exec(Before(events)).value.AllAnswered()))
  }

  ghost predicate NothingMeasured(info: Info) {
    info == EMPTY_INFO.(version := info.version, valid := info.valid)
  }

  ghost predicate Starting(s: System) {
    s.host.scaleCount == 0 && s.WaitsFor(TARGET_REQUEST) && NothingMeasured(s.host.info)
  }

  ghost predicate Idle(s: System) {
    (s.host.scaleCount == 0 || s.host.scaleCount == SCALE_COUNT) && s.AllAnswered() && NothingMeasured(s.host.info)
  }

  ghost predicate Negotiating(s: System) {
    s.host.scaleCount < SCALE_COUNT && s.WaitsFor(ScaleRequest(s.host.scaleCount)) && NothingMeasured(s.host.info)
  }

  /** A driver that has these scales and nothing else. */
  function Fresh(scales: seq<Scaling>): Host {
    Host(EMPTY_INFO, scales, |scales|, [], [])
  }

  /** What some frames alone do to a driver. */
  function Replay(h: Host, events: seq<Event>): Option<Host> {
    if events == [] then Some(h)
    else
      var g := Replay(h, Before(events));
      if g.None? || Last(events).frame == [] then None else Handle(g.value, Last(events).frame)
  }

  const CYCLE := [DC_REQUEST, AC_REQUEST, LED_REQUEST, CHARGE_REQUEST]

  ghost predicate IsCycle(c: seq<Event>) {
    && 1 <= |c| <= 5
    && c[0].Version? && IsVersion(c[0].frame)
    && (|c| > 1 ==> c[1].Answer? && IsDcAnswer(c[1].frame))
    && (|c| > 2 ==> c[2].Answer? && IsAcAnswer(c[2].frame))
    && (|c| > 3 ==> c[3].Answer? && IsLedAnswer(c[3].frame))
    && (|c| > 4 ==> c[4].Answer? && IsChargeAnswer(c[4].frame))
  }

  /** The same readings and scales. */
  ghost predicate Agree(g: Host, h: Host) {
    g.info == h.info && g.scales == h.scales && g.scaleCount == h.scaleCount
  }

  lemma InfoDependsOnReadings(g: Host, h: Host, f: seq<byte>)
    requires Agree(g, h) && f != [] && f[0] == INFO_HEADER
    ensures Handle(g, f).Some? == Handle(h, f).Some?
    ensures Handle(g, f).Some? ==>
              && Agree(Handle(g, f).value, Handle(h, f).value)
              && NewReports(g, Handle(g, f).value) == NewReports(h, Handle(h, f).value)
  {
  }

  lemma CommandDependsOnReadings(g: Host, h: Host, f: seq<byte>)
    requires Agree(g, h) && f != [] && f[0] != INFO_HEADER
    ensures Handle(g, f).Some? == Handle(h, f).Some?
    ensures Handle(g, f).Some? ==>
              && Agree(Handle(g, f).value, Handle(h, f).value)
              && NewReports(g, Handle(g, f).value) == NewReports(h, Handle(h, f).value)
  {
  }

  /** What a frame does to the readings, and what it reports, depends on the readings and scales only. */
  lemma HandleDependsOnReadings(g: Host, h: Host, f: seq<byte>)
    requires Agree(g, h) && f != []
    ensures Handle(g, f).Some? == Handle(h, f).Some?
    ensures Handle(g, f).Some? ==>
              && Agree(Handle(g, f).value, Handle(h, f).value)
              && NewReports(g, Handle(g, f).value) == NewReports(h, Handle(h, f).value)
  {
    if f[0] == INFO_HEADER {
      InfoDependsOnReadings(g, h, f);
    } else {
      CommandDependsOnReadings(g, h, f);
    }
    hide Handle;
  }

  function NewReports(before: Host, after: Host): seq<Info> {
    if |before.reports| <= |after.reports| then after.reports[|before.reports|..] else []
  }

  /** Inside the cycle `c`: its next request is outstanding, and the readings so far are those of `c` alone. */
  ghost predicate CycleState(s: System, c: seq<Event>) {
    && IsCycle(c) && |c| <= 4
    && s.host.scaleCount == |s.host.scales| == SCALE_COUNT
    && s.WaitsFor(CYCLE[|c| - 1])
    && Replay(Fresh(s.host.scales), c).Some?
    && Agree(Replay(Fresh(s.host.scales), c).value, s.host)
    && Replay(Fresh(s.host.scales), c).value.reports == []
  }

  ghost predicate EndsWith(events: seq<Event>, c: seq<Event>) {
    |c| <= |events| && events[|events| - |c|..] == c
  }

  ghost predicate BetweenCycles(s: System) {
    && s.host.scaleCount == |s.host.scales| <= SCALE_COUNT
    && (Starting(s) || Idle(s) || Negotiating(s))
  }

  ghost predicate QuietState(events: seq<Event>, s: System) {
    BetweenCycles(s) || exists c :: CycleState(s, c) && EndsWith(events, c)
  }

  /** One more report, and it is the one report that the frames of `c` make a driver with the same scales give. */
  ghost predicate Reported(before: Host, after: Host, c: seq<Event>) {
    && |after.reports| == |before.reports| + 1 && after.reports[..|before.reports|] == before.reports
    && Replay(Fresh(before.scales), c).Some?
    && Replay(Fresh(before.scales), c).value.reports == [after.reports[|before.reports|]]
  }

  ghost predicate QuietEvent(s: System, e: Event) {
    Possible(s, e) && (e.Version? ==> s.AllAnswered())
  }

  // ----- Steps of a quiet run

  lemma BetweenCyclesStep(s: System, e: Event)
    requires BetweenCycles(s) && QuietEvent(s, e)
    ensures e.frame != [] && Step(s, e).Some?
    ensures var t := Step(s, e).value;
            && t.host.reports == s.host.reports
            && (BetweenCycles(t) || CycleState(t, [e]))
  {
    AnswerForms(e.frame);
    if Starting(s) {
      TargetEffect(s.host, e.frame);
    } else if Negotiating(s) {
      ScaleAnswerForm(s.host.scaleCount, e.frame);
      ScaleEffect(s.host, e.frame);
    } else {
      VersionEffect(s.host, e.frame);
      if s.host.scaleCount == SCALE_COUNT {
        CycleBegins(s, e);
      }
    }
  }

  lemma CycleBegins(s: System, e: Event)
    requires Idle(s) && s.host.scaleCount == |s.host.scales| == SCALE_COUNT
    requires e.Version? && IsVersion(e.frame)
    ensures Step(s, e).Some? && CycleState(Step(s, e).value, [e])
  {
    var clean := Fresh(s.host.scales);
    VersionEffect(s.host, e.frame);
    VersionEffect(clean, e.frame);
    ReplayNext(clean, [], e, clean);
  }

  lemma ReplayNext(h: Host, c: seq<Event>, e: Event, g: Host)
    requires Replay(h, c) == Some(g) && e.frame != []
    ensures Replay(h, c + [e]) == Handle(g, e.frame)
  {
    assert Before(c + [e]) == c;
  }

  /** Inside a cycle the next event is the answer waited for. It continues the
      cycle; if it is the charge state, the report holds what the cycle alone measured. */
  lemma CycleStep(s: System, c: seq<Event>, e: Event)
    requires CycleState(s, c) && QuietEvent(s, e)
    ensures |c| <= 4 && e.frame != [] && Step(s, e).Some? && IsCycle(c + [e])
    ensures var t := Step(s, e).value;
            if |c| < 4 then CycleState(t, c + [e]) && t.host.reports == s.host.reports
               else BetweenCycles(t) && Reported(s.host, t.host, c + [e])
  {
    WaitingForReading(s, CYCLE[|c| - 1], e);
    var clean := Fresh(s.host.scales);
    var g := Replay(clean, c).value;
    ReplayNext(clean, c, e, g);
    ReadingEffect(s.host, |c|, e.frame);
    ReadingEffect(g, |c|, e.frame);
    var t, k := Handle(s.host, e.frame).value, Handle(g, e.frame).value;
    HandleDependsOnReadings(g, s.host, e.frame);
    assert IsCycle(c + [e]);
    if |c| == 4 {
      assert t.reports[|s.host.reports|..] == [t.reports[|s.host.reports|]];
      assert k.reports[|g.reports|..] == k.reports;
    }
  }

  /** The event while a reading is waited for is its answer. */
  lemma WaitingForReading(s: System, command: seq<byte>, e: Event)
    requires s.WaitsFor(command) && command in CYCLE && QuietEvent(s, e)
    ensures e.Answer? && e.frame != []
    ensures command == DC_REQUEST ==> IsDcAnswer(e.frame)
    ensures command == AC_REQUEST ==> IsAcAnswer(e.frame)
    ensures command == LED_REQUEST ==> IsLedAnswer(e.frame)
    ensures command == CHARGE_REQUEST ==> IsChargeAnswer(e.frame)
  {
    AnswerForms(e.frame);
  }

  /** The `k`-th answer of a cycle leads to the next request, and the fourth to a report and cleared readings. */
  lemma ReadingEffect(h: Host, k: nat, f: seq<byte>)
    requires 1 <= k <= 4 && |h.scales| == SCALE_COUNT
    requires (k == 1 ==> IsDcAnswer(f)) && (k == 2 ==> IsAcAnswer(f))
    requires (k == 3 ==> IsLedAnswer(f)) && (k == 4 ==> IsChargeAnswer(f))
    ensures Handle(h, f).Some?
    ensures k < 4 ==> Measured(h, Handle(h, f), CYCLE[k])
    ensures k == 4 ==> |Handle(h, f).value.reports| == |h.reports| + 1
                       && Handle(h, f).value == h.(info := EMPTY_INFO, reports := Handle(h, f).value.reports)
                       && Handle(h, f).value.reports[..|h.reports|] == h.reports
  {
    if k == 1 {
      DcEffect(h, f);
    } else if k == 2 {
      AcEffect(h, f);
    } else if k == 3 {
      LedEffect(h, f);
    } else {
      ChargeEffect(h, f);
    }
  }

  // ----- Whole quiet runs

  lemma EndsWithNext(events: seq<Event>, c: seq<Event>)
    requires events != [] && EndsWith(Before(events), c)
    ensures EndsWith(events, c + [Last(events)])
  {
  }

  lemma QuietStep(events: seq<Event>, s: System)
    requires events != [] && Exec(Before(events)) == Some(s)
    requires QuietState(Before(events), s) && QuietEvent(s, Last(events))
    ensures Exec(events).Some? && QuietState(events, Exec(events).value)
  {
    hide BetweenCycles, CycleState, QuietEvent, Step, Exec, IsCycle, Reported;
    if BetweenCycles(s) {
      BetweenCyclesStep(s, Last(events));
      assert EndsWith(events, [Last(events)]);
    } else {
      var c :| CycleState(s, c) && EndsWith(Before(events), c);
      CycleStep(s, c, Last(events));
      EndsWithNext(events, c);
    }
    ExecNext(events, s);
  }

  /** A quiet run is always starting up, idle, negotiating or inside a cycle. */
  lemma {:induction false} QuietRunState(events: seq<Event>)
    requires QuietRun(events)
    ensures Exec(events).Some?
    ensures QuietState(events, Exec(events).value)
    decreases |events|
  {
    if events != [] {
      QuietRunState(Before(events));
      QuietStep(events, Exec(Before(events)).value);
    }
  }

  /** In a quiet run every report is made by exactly the last five events, one
      version frame and one DC, AC, LED and charge answer, and holds what these
      alone give: no reading is missing, and none is left over from before. */
  lemma QuietReportIsOneCycle(events: seq<Event>)
    requires QuietRun(events) && events != []
    ensures Exec(Before(events)).Some? && Exec(events).Some?
    ensures var (before, after) := (Exec(Before(events)).value.host, Exec(events).value.host);
            after.reports != before.reports ==>
              |events| >= 5 && IsCycle(events[|events| - 5..]) && Reported(before, after, events[|events| - 5..])
  {
    hide BetweenCycles, CycleState, Step, Exec, IsCycle, Reported;
    QuietRunState(Before(events));
    var s := Exec(Before(events)).value;
    if BetweenCycles(s) {
      BetweenCyclesStep(s, Last(events));
    } else {
      var c :| CycleState(s, c) && EndsWith(Before(events), c);
      CycleStep(s, c, Last(events));
      EndsWithNext(events, c);
      assert |c| == 4 ==> events[|events| - 5..] == c + [Last(events)];
    }
    ExecNext(events, s);
  }

  lemma {:induction false} OneAnswerPerScale(events: seq<Event>)
    requires Run(events)
    ensures Exec(events).Some? && |ScaleAnswers(events)| == |Exec(events).value.host.scales|
    decreases |events|
  {
    EveryRunIsSafe(events);
    if events != [] {
      OneAnswerPerScale(Before(events));
      var s := Exec(Before(events)).value;
      EveryRunIsSafe(Before(events));
      EveryStepMoves(s, Last(events));
      ExecNext(events, s);
    }
  }

  /** An example: in any run, a version frame while only the next scale request is outstanding
      has it sent again, and once both are answered entry `i + 1` holds an answer to request `i`. */
  lemma VersionWhileNegotiatingShiftsScales(events: seq<Event>, v: seq<byte>, a: seq<byte>, b: seq<byte>)
    requires Run(events) && Exec(events).Some?
    requires var s := Exec(events).value; s.host.scaleCount < SCALE_COUNT && s.WaitsFor(ScaleRequest(s.host.scaleCount))
    requires IsVersion(v) && IsScaleAnswer(a) && IsScaleAnswer(b)
    ensures var i := Exec(events).value.host.scaleCount;
            var longer := events + [Version(v)] + [Answer(a)] + [Answer(b)];
            && Run(longer) && Exec(longer).Some?
            && |ScaleAnswers(longer)| == |Exec(longer).value.host.scales| == i + 2
            && ScaleAnswers(longer)[i + 1] == (i, Exec(longer).value.host.scales[i + 1])
  {
    EveryRunIsSafe(events);
    OneAnswerPerScale(events);
    var s := Exec(events).value;
    var one := events + [Version(v)];
    assert Before(one) == events && Last(one) == Version(v);
    ExecNext(one, s);
    VersionEffect(s.host, v);
    var s1 := Exec(one).value;
    OneMoreScale(one, s1, a, s.host.scaleCount);
    OneMoreScale(one + [Answer(a)], Exec(one + [Answer(a)]).value, b, s.host.scaleCount);
  }

  /** A scale answer is taken for whatever request is next in line. */
  lemma OneMoreScale(events: seq<Event>, s: System, f: seq<byte>, i: nat)
    requires Run(events) && Exec(events) == Some(s) && IsScaleAnswer(f) && i < SCALE_COUNT
    requires s.answered < |s.host.sent| && s.host.sent[s.answered] == CommandFrame(ScaleRequest(i))
    ensures var more := events + [Answer(f)];
            && Run(more) && Exec(more).Some?
            && ScaleAnswers(more) == ScaleAnswers(events) + [(i, ScaleOf(f[2..]))]
            && Exec(more).value.host.scales == s.host.scales + [ScaleOf(f[2..])]
            && Exec(more).value.answered == s.answered + 1
            && s.host.sent <= Exec(more).value.host.sent
  {
    var more := events + [Answer(f)];
    assert Before(more) == events && Last(more) == Answer(f);
    ScaleAnswerForm(i, f);
    ScaleEffect(s.host, f);
    ExecNext(more, s);
  }

  const TARGET_ANSWER: seq<byte> := [0xFF, 0x41]
  const VERSION_FRAME: seq<byte> := [0xFF, 0x56, 0, 0, 0, 0]
  const SCALE_ANSWER: seq<byte> := [0xFF, 0x57, 0x8E, 1, 0, 0, 0, 0]

  /** The shortest run after which a scale is waited for. */
  lemma FirstScaleIsAskedFor()
    ensures var events := [Answer(TARGET_ANSWER)] + [Version(VERSION_FRAME)];
            && Run(events) && Exec(events).Some?
            && Exec(events).value.host.scaleCount == 0 && Exec(events).value.WaitsFor(ScaleRequest(0))
  {
    var one, two := [Answer(TARGET_ANSWER)], [Answer(TARGET_ANSWER)] + [Version(VERSION_FRAME)];
    assert Before(one) == [] && Before(two) == one;
    CommandByte(TARGET_REQUEST, 0);
    assert Run([]) && Run(one);
    ExecNext(one, START);
    TargetEffect(START.host, TARGET_ANSWER);
    assert Exec(one) == Some(System(START.host, 1));
    VersionEffect(START.host, VERSION_FRAME);
    ExecNext(two, System(START.host, 1));
  }

  /** A run of five frames, the second of its version frames in the middle of the
      negotiation, after which entry 1 of the scales holds the second answer to request 0. */
  lemma ScalesCanBeMisplaced()
    ensures var events := [Answer(TARGET_ANSWER)] + [Version(VERSION_FRAME)]
                          + [Version(VERSION_FRAME)] + [Answer(SCALE_ANSWER)] + [Answer(SCALE_ANSWER)];
            && Run(events) && Exec(events).Some? && !CalmRun(events)
            && |ScaleAnswers(events)| == |Exec(events).value.host.scales| == 2
            && ScaleAnswers(events)[1] == (0, Exec(events).value.host.scales[1])
            && !InOrder(ScaleAnswers(events), Exec(events).value.host.scales)
  {
    hide Exec, Run, ScaleAnswers, CalmRun;
    var two := [Answer(TARGET_ANSWER)] + [Version(VERSION_FRAME)];
    FirstScaleIsAskedFor();
    VersionWhileNegotiatingShiftsScales(two, VERSION_FRAME, SCALE_ANSWER, SCALE_ANSWER);
    AlignedIffCalm(two + [Version(VERSION_FRAME)] + [Answer(SCALE_ANSWER)] + [Answer(SCALE_ANSWER)]);
  }

  // ----- From the bytes on the wire to the run

  /** The frame of an event as the device sends it, behind its length byte. */
  function Wire(e: Event): seq<byte> {
    [(|e.frame| + 255) % 256] + e.frame
  }

  function Wires(events: seq<Event>): seq<seq<byte>> {
    if events == [] then [] else Wires(Before(events)) + [Wire(Last(events))]
  }

  lemma {:induction false} AllWellFormedSnoc(frames: seq<seq<byte>>, f: seq<byte>)
    requires AllWellFormed(frames) && WellFormed(f)
    ensures AllWellFormed(frames + [f])
  {
    if frames != [] {
      AllWellFormedSnoc(frames[1..], f);
      assert (frames + [f])[1..] == frames[1..] + [f];
    } else {
      assert ([] + [f])[1..] == [];
    }
  }

  lemma {:induction false} HandleAllSnoc(h: Host, frames: seq<seq<byte>>, f: seq<byte>, g: Host)
    requires HandleAll(h, frames) == Some(g) && |f| >= 2
    ensures HandleAll(h, frames + [f]) == Handle(g, f[1..])
    decreases |frames|
  {
    hide Handle;
    if frames == [] {
      assert ([] + [f])[1..] == [];
    } else {
      HandleAllSnoc(Handle(h, frames[0][1..]).value, frames[1..], f, g);
      assert (frames + [f])[1..] == frames[1..] + [f];
    }
  }

  lemma {:induction false} RunHandlesItsFrames(events: seq<Event>)
    requires Run(events) && forall k :: 0 <= k < |events| ==> WellFormed(Wire(events[k]))
    ensures AllWellFormed(Wires(events))
    ensures Exec(events).Some? && HandleAll(START.host, Wires(events)) == Some(Exec(events).value.host)
    decreases |events|
  {
    EveryRunIsSafe(events);
    if events != [] {
      RunHandlesItsFrames(Before(events));
      var s, f := Exec(Before(events)).value, Wire(Last(events));
      assert f == Wire(events[|events| - 1]) && f[1..] == Last(events).frame;
      AllWellFormedSnoc(Wires(Before(events)), f);
      HandleAllSnoc(START.host, Wires(Before(events)), f, s.host);
      ExecNext(events, s);
    }
  }

  /** What arrives on the wire is the run: one well-formed frame to lock on, which itself
      has no effect, and then the frames of any run, end in the run's state. */
  lemma WireCarriesTheRun(r: Reader, first: seq<byte>, events: seq<Event>)
    requires !r.locked && WellFormed(first) && (!IsHeader(first[0]) || r.previous == 0)
    requires Run(events) && forall k :: 0 <= k < |events| ==> WellFormed(Wire(events[k]))
    ensures Exec(events).Some?
    ensures Serve(r, START.host, first + Flatten(Wires(events)))
            == Some(Served(Reader(true, Remembered(first[1], Wires(events))), Exec(events).value.host))
  {
    var tail := Flatten(Wires(events));
    RunHandlesItsFrames(events);
    LockingRounds(r, first, tail);
    ServesEveryFrame(Reader(true, first[1]), START.host, Wires(events));
    assert first + tail != [] && first[1..] + tail != [];
    assert Serve(r, START.host, first + tail) == Serve(Reader(false, first[0]), START.host, first[1..] + tail);
  }
}
