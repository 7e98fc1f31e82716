/**
 The web socket hub behind the core hub: one goroutine forwards the infos of its
 subscription into a queue, another hands the queue on to the clients. A run
 interleaves the steps of both hubs and of everybody who calls them. A message is
 the info it is the JSON text of; that an info cannot be marshalled is an event of its own.
 */
module WebHub {
  import opened Bytes
  import opened FanOut
  import CoreHub

  const QUEUE_CAPACITY := 16
  const CLIENT_CAPACITY := 64

  /** `held` is what the loop has received and not queued yet. `dropped` records the infos lost at the
      full queue or in marshalling; no step depends on it. */
  datatype WebState<T> = WebState(
    hub: CoreHub.HubState<T>, sub: Option<Id>, held: Option<T>, loopDone: bool,
    fan: Fan<T>, queue: seq<T>, dropped: seq<T>, stopping: bool, stopped: bool, crashed: bool)

  datatype Event<T> =
    | Core(e: CoreHub.Event<T>)
    | LoopSubscribe(id: Id) | LoopReceive | LoopQueue | LoopStop
    | Register(id: Id) | Unregister(id: Id) | RunBroadcast(marshalled: bool) | RunStop
    | Stop | Receive(id: Id)

  function Start<T>(): WebState<T> {
    WebState(CoreHub.Start(), None, None, false, Fan({}, map[], [], false), [], [], false, false, false)
  }

  /** Only the loop receives from its own subscription; register and unregister hand over to the running goroutine. */
  predicate Possible<T(==)>(s: WebState<T>, e: Event<T>) {
    && !s.crashed && !s.fan.panicked
    && match e
       case Core(c) => CoreHub.Possible(s.hub, c) && (c.Receive? ==> s.sub != Some(c.id))
       case LoopSubscribe(id) => s.sub.None? && CoreHub.Possible(s.hub, CoreHub.Subscribe(id))
       case LoopReceive =>
         s.sub.Some? && !s.loopDone && s.held.None? && CoreHub.Possible(s.hub, CoreHub.Receive(s.sub.value))
       case LoopQueue => s.held.Some?
       case LoopStop =>
         && s.sub.Some? && !s.loopDone && s.held.None? && s.stopping
         && CoreHub.Possible(s.hub, CoreHub.Unsubscribe(s.sub.value))
       case Register(id) => !s.stopped && id !in s.fan.channels
       case Unregister(id) => !s.stopped && id in s.fan.channels
       case RunBroadcast(_) => !s.stopped && s.queue != []
       case RunStop => !s.stopped && s.stopping
       case Stop => true
       case Receive(id) => id in s.fan.channels && s.fan.channels[id].buffer != []
  }

  function Step<T(==)>(s: WebState<T>, e: Event<T>): WebState<T>
    requires Possible(s, e)
  {
    match e
    case Core(c) => s.(hub := CoreHub.Step(s.hub, c))
    case LoopSubscribe(id) => s.(hub := CoreHub.Step(s.hub, CoreHub.Subscribe(id)), sub := Some(id))
    case LoopReceive =>
      s.(hub := CoreHub.Step(s.hub, CoreHub.Receive(s.sub.value)),
         held := Some(s.hub.fan.channels[s.sub.value].buffer[0]))
    case LoopQueue =>
      if |s.queue| < QUEUE_CAPACITY
      then s.(queue := s.queue + [s.held.value], held := None)
      else s.(dropped := s.dropped + [s.held.value], held := None)
    case LoopStop => s.(hub := CoreHub.Step(s.hub, CoreHub.Unsubscribe(s.sub.value)), loopDone := true)
    case Register(id) => s.(fan := Joined(Opened(s.fan, id), id))
    case Unregister(id) => s.(fan := Left(s.fan, id))
    case RunBroadcast(marshalled) =>
      if marshalled
      then s.(fan := Published(s.fan, s.queue[0], CLIENT_CAPACITY), queue := s.queue[1..])
      else s.(dropped := s.dropped + [s.queue[0]], queue := s.queue[1..])
    case RunStop => s.(fan := AllClosed(s.fan).(members := {}), stopped := true)
    case Stop => s.(stopping := true, crashed := s.stopping)
    case Receive(id) => s.(fan := Received(s.fan, id))
  }

  function Exec<T(==)>(events: seq<Event<T>>): Option<WebState<T>> {
    if events == [] then Some(Start())
    else
      var s := Exec(events[..|events| - 1]);
      if s.Some? && Possible(s.value, events[|events| - 1]) then Some(Step(s.value, events[|events| - 1])) else None
  }

  /** What the loop has received from its subscription. */
  function Arrived<T>(s: WebState<T>): seq<T> {
    if s.sub.Some? && s.sub.value in s.hub.fan.channels then s.hub.fan.channels[s.sub.value].taken else []
  }

  /** What is on its way to the clients: queued infos, then the one the loop holds. */
  function OnTheWay<T>(s: WebState<T>): seq<T> {
    s.queue + if s.held.Some? then [s.held.value] else []
  }

  ghost predicate Invariant<T(!new)>(s: WebState<T>) {
    && CoreHub.Invariant(s.hub)
    && Sound(s.fan, CLIENT_CAPACITY)
    && (!s.stopped ==> Running(s.fan))
    && (s.sub.Some? ==> s.sub.value in s.hub.fan.channels)
    && Flows(s.fan.handled, OnTheWay(s), s.dropped, Arrived(s))
  }

  /** What is handled and then what is on its way stands in what arrived in this order, and each
      info that arrived is handled, on its way or dropped, exactly once. */
  ghost predicate Flows<T>(handled: seq<T>, way: seq<T>, dropped: seq<T>, arrived: seq<T>) {
    && Subsequence(handled + way, arrived)
    && multiset(arrived) == multiset(handled) + multiset(way) + multiset(dropped)
  }

  lemma FlowIn<T>(handled: seq<T>, way: seq<T>, dropped: seq<T>, arrived: seq<T>, x: T)
    requires Flows(handled, way, dropped, arrived)
    ensures Flows(handled, way + [x], dropped, arrived + [x])
  {
    SubsequencePush(handled + way, arrived, x);
    AppendAssoc(handled, way, [x]);
  }

  lemma FlowOut<T>(handled: seq<T>, x: T, way: seq<T>, dropped: seq<T>, arrived: seq<T>)
    requires Flows(handled, [x] + way, dropped, arrived)
    ensures Flows(handled + [x], way, dropped, arrived) && Flows(handled, way, dropped + [x], arrived)
  {
    AppendAssoc(handled, [x], way);
    SubsequenceDelete(handled, x, way, arrived);
  }

  lemma FlowCut<T>(handled: seq<T>, way: seq<T>, x: T, dropped: seq<T>, arrived: seq<T>)
    requires Flows(handled, way + [x], dropped, arrived)
    ensures Flows(handled, way, dropped + [x], arrived)
  {
    AppendAssoc(handled, way, [x]);
    SubsequencePrefix(handled + way, [x], arrived);
  }

  /** Only receiving from a channel changes what has been received from it. */
  lemma OthersLeaveTaken<T(!new)>(h: CoreHub.HubState<T>, e: CoreHub.Event<T>, id: Id)
    requires CoreHub.Possible(h, e) && id in h.fan.channels && (e.Receive? ==> e.id != id)
    ensures id in CoreHub.Step(h, e).fan.channels
    ensures CoreHub.Step(h, e).fan.channels[id].taken == h.fan.channels[id].taken
  {
  }

  lemma HubStepKeeps<T(!new)>(s: WebState<T>, e: Event<T>)
    requires Invariant(s) && Possible(s, e) && (e.Core? || e.LoopSubscribe? || e.LoopStop?)
    ensures Invariant(Step(s, e))
  {
    hide Sound, Running, Flows, CoreHub.Invariant;
    var c := if e.Core? then e.e
             else if e.LoopSubscribe? then CoreHub.Subscribe(e.id)
             else CoreHub.Unsubscribe(s.sub.value);
    CoreHub.StepKeeps(s.hub, c);
    if s.sub.Some? {
      OthersLeaveTaken(s.hub, c, s.sub.value);
    }
    assert Arrived(Step(s, e)) == Arrived(s);
  }

  lemma LoopReceiveKeeps<T(!new)>(s: WebState<T>)
    requires Invariant(s) && Possible(s, LoopReceive)
    ensures Invariant(Step(s, LoopReceive))
  {
    hide Sound, Running, Flows, CoreHub.Invariant;
    var info := s.hub.fan.channels[s.sub.value].buffer[0];
    CoreHub.StepKeeps(s.hub, CoreHub.Receive(s.sub.value));
    assert Arrived(Step(s, LoopReceive)) == Arrived(s) + [info];
    AppendNothing(s.queue);
    FlowIn(s.fan.handled, s.queue, s.dropped, Arrived(s), info);
  }

  /** Queueing changes nothing on the way; a full queue loses the held info, the last of them. */
  lemma LoopQueueKeeps<T(!new)>(s: WebState<T>)
    requires Invariant(s) && Possible(s, LoopQueue)
    ensures Invariant(Step(s, LoopQueue))
  {
    hide Sound, Running, Flows, CoreHub.Invariant, CoreHub.Possible;
    AppendNothing(Step(s, LoopQueue).queue);
    if |s.queue| >= QUEUE_CAPACITY {
      FlowCut(s.fan.handled, s.queue, s.held.value, s.dropped, Arrived(s));
    }
  }

  lemma RunBroadcastKeeps<T(!new)>(s: WebState<T>, marshalled: bool)
    requires Invariant(s) && Possible(s, RunBroadcast(marshalled))
    ensures Invariant(Step(s, RunBroadcast(marshalled)))
  {
    hide Sound, Running, Flows, CoreHub.Invariant, CoreHub.Possible;
    var x, t := s.queue[0], Step(s, RunBroadcast(marshalled));
    PublishedSound(s.fan, x, CLIENT_CAPACITY);
    HeadAndTail(s.queue, if s.held.Some? then [s.held.value] else []);
    assert OnTheWay(s) == [x] + OnTheWay(t);
    FlowOut(s.fan.handled, x, OnTheWay(t), s.dropped, Arrived(s));
  }

  lemma ClientStepKeeps<T(!new)>(s: WebState<T>, e: Event<T>)
    requires Invariant(s) && Possible(s, e) && (e.Register? || e.Unregister? || e.RunStop? || e.Stop? || e.Receive?)
    ensures Invariant(Step(s, e))
  {
    hide Tracks, Flows, CoreHub.Invariant, CoreHub.Possible;
    match e
    case Register(id) =>
      OpenedSound(s.fan, id, CLIENT_CAPACITY);
      JoinedSound(Opened(s.fan, id), id, CLIENT_CAPACITY);
    case Unregister(id) =>
      LeftSound(s.fan, id, CLIENT_CAPACITY);
    case RunStop =>
      AllClosedSound(s.fan, CLIENT_CAPACITY);
    case Receive(id) =>
      ReceivedSound(s.fan, id, CLIENT_CAPACITY);
    case _ =>
  }

  lemma {:induction false} EveryRunKeeps<T(!new)>(events: seq<Event<T>>)
    requires Exec(events).Some?
    ensures Invariant(Exec(events).value)
    decreases |events|
  {
    if events == [] {
      CoreHub.StartKeeps<T>();
    } else {
      var before, e := events[..|events| - 1], events[|events| - 1];
      EveryRunKeeps(before);
      hide Invariant;
      var s := Exec(before).value;
      match e
      case LoopReceive => LoopReceiveKeeps(s);
      case LoopQueue => LoopQueueKeeps(s);
      case RunBroadcast(marshalled) => RunBroadcastKeeps(s, marshalled);
      case Register(_) => ClientStepKeeps(s, e);
      case Unregister(_) => ClientStepKeeps(s, e);
      case RunStop => ClientStepKeeps(s, e);
      case Stop => ClientStepKeeps(s, e);
      case Receive(_) => ClientStepKeeps(s, e);
      case _ => HubStepKeeps(s, e);
    }
  }

  /** Across both hubs, in every interleaving: the messages a client was sent are
      infos broadcast on the core hub, in the same order and none twice; a client
      whose buffer was never full got everything this hub handled while it was registered; and no channel is misused. */
  lemma ClientsSeeBroadcastsInOrder<T(!new)>(events: seq<Event<T>>, id: Id)
    requires Exec(events).Some? && id in Exec(events).value.fan.channels
    ensures var s := Exec(events).value;
            var c := s.fan.channels[id];
            && Subsequence(c.Delivered(), s.hub.offered)
            && c.joined.Some?
            && (FoundFull(events, id) == 0 ==>
                  c.joined.value <= End(c, s.fan.handled) <= |s.fan.handled|
                  && c.Delivered() == s.fan.handled[c.joined.value..End(c, s.fan.handled)])
            && !s.fan.panicked && !s.hub.fan.panicked
  {
    EveryRunKeeps(events);
    var s := Exec(events).value;
    var c := s.fan.channels[id];
    DeliveredInOrder(c, s.fan.handled, CLIENT_CAPACITY);
    SubsequencePrefix(s.fan.handled, OnTheWay(s), Arrived(s));
    SubsequenceTransitive(c.Delivered(), s.fan.handled, Arrived(s));
    SubsequencePrefix(s.hub.fan.handled, s.hub.broadcast, s.hub.offered);
    if s.sub.Some? {
      DeliveredInOrder(s.hub.fan.channels[s.sub.value], s.hub.fan.handled, CoreHub.SUBSCRIPTION_CAPACITY);
    } else {
      NothingIsSubsequence(s.hub.fan.handled);
    }
    SubsequenceTransitive(c.Delivered(), Arrived(s), s.hub.fan.handled);
    SubsequenceTransitive(c.Delivered(), s.hub.fan.handled, s.hub.offered);
    EveryRunTells(events, id);
    if FoundFull(events, id) == 0 {
      NothingMissed(c, s.fan.handled, CLIENT_CAPACITY);
    }
  }

  /** The core hub has registered the subscription. */
  ghost predicate IsHeard<T>(s: WebState<T>) {
    s.sub.Some? && s.sub.value in s.hub.fan.channels && s.hub.fan.channels[s.sub.value].joined.Some?
  }

  /** How many infos the core hub had handled before. */
  ghost function HeardFrom<T>(s: WebState<T>): nat {
    if IsHeard(s) then s.hub.fan.channels[s.sub.value].joined.value else 0
  }

  /** Nothing was lost in front of the client: not at the subscription, not at the queue, not in marshalling. */
  ghost predicate NothingLost<T>(s: WebState<T>) {
    s.dropped == [] && (IsHeard(s) ==> s.hub.fan.channels[s.sub.value].missed == 0)
  }

  /** With nothing dropped, all that arrived is handled or on its way, in order. */
  lemma AllArrived<T>(handled: seq<T>, way: seq<T>, arrived: seq<T>)
    requires Flows(handled, way, [], arrived)
    ensures handled + way == arrived
  {
    assert |multiset(arrived)| == |multiset(handled)| + |multiset(way)|;
    SubsequenceShorter(handled + way, arrived);
  }

  lemma PartOfPart<T>(x: seq<T>, y: seq<T>, z: seq<T>, s: seq<T>, i: nat, j: nat)
    requires i <= j <= |s| && x + y + z == s[i..j]
    ensures i + |x| <= |s| && x == s[i..i + |x|]
  {
    assert |x + y + z| == j - i;
    assert x == (x + y + z)[..|x|];
  }

  lemma SliceOfSlice<T>(s: seq<T>, from: nat, n: nat, i: nat, j: nat)
    requires i <= j <= n && from + n <= |s|
    ensures s[from..from + n][i..j] == s[from + i..from + j]
  {
    var t := s[from..from + n];
    assert forall k :: 0 <= k < n ==> t[k] == s[from + k];
    assert t[i..j] == s[from + i..from + j];
  }

  /** What arrived came without a gap from where the subscription was registered. */
  lemma ArrivedWithoutGap<T(!new)>(s: WebState<T>)
    requires CoreHub.Invariant(s.hub) && NothingLost(s)
    ensures var infos := s.hub.fan.handled;
            if IsHeard(s) then
              var c := s.hub.fan.channels[s.sub.value];
              && c.joined.value <= End(c, infos) <= |infos|
              && Arrived(s) + c.buffer == infos[c.joined.value..End(c, infos)]
            else Arrived(s) == []
  {
    if IsHeard(s) {
      NothingMissed(s.hub.fan.channels[s.sub.value], s.hub.fan.handled, CoreHub.SUBSCRIPTION_CAPACITY);
    }
  }

  /** Then what this hub has handled is, without a gap, what the core hub handled from there on. */
  lemma HandledWithoutGap<T(!new)>(s: WebState<T>)
    requires Invariant(s) && NothingLost(s)
    ensures var (from, n) := (HeardFrom(s), |s.fan.handled|);
            from + n <= |s.hub.fan.handled| && s.fan.handled == s.hub.fan.handled[from..from + n]
  {
    hide Sound, Running, Subsequence, CoreHub.Invariant, Arrived, OnTheWay, Flows;
    var infos := s.hub.fan.handled;
    ArrivedWithoutGap(s);
    AllArrived(s.fan.handled, OnTheWay(s), Arrived(s));
    if IsHeard(s) {
      var c := s.hub.fan.channels[s.sub.value];
      PartOfPart(s.fan.handled, OnTheWay(s), c.buffer, infos, c.joined.value, End(c, infos));
    }
  }

  /** A sound hub's channel that was never full has its whole part of the messages handled. */
  lemma ChannelWithoutGap<T(!new)>(f: Fan<T>, id: Id, capacity: nat)
    requires Sound(f, capacity) && id in f.channels && f.channels[id].joined.Some? && f.channels[id].missed == 0
    ensures var c := f.channels[id];
            && c.joined.value <= End(c, f.handled) <= |f.handled|
            && c.Delivered() == f.handled[c.joined.value..End(c, f.handled)]
  {
    NothingMissed(f.channels[id], f.handled, capacity);
  }

  lemma UnbrokenRun<T(!new)>(s: WebState<T>, id: Id)
    requires Invariant(s) && NothingLost(s)
    requires id in s.fan.channels && s.fan.channels[id].joined.Some? && s.fan.channels[id].missed == 0
    ensures var (c, infos) := (s.fan.channels[id], s.hub.fan.handled);
            var (i, j) := (HeardFrom(s) + c.joined.value, HeardFrom(s) + End(c, s.fan.handled));
            i <= j <= |infos| && c.Delivered() == infos[i..j]
  {
    hide Running, Sound, Subsequence, CoreHub.Invariant, Flows, HeardFrom, NothingLost, OnTheWay, Arrived;
    var c := s.fan.channels[id];
    HandledWithoutGap(s);
    ChannelWithoutGap(s.fan, id, CLIENT_CAPACITY);
    SliceOfSlice(s.hub.fan.handled, HeardFrom(s), |s.fan.handled|, c.joined.value, End(c, s.fan.handled));
  }

  // ----- The same told by the events alone

  function Before<T>(events: seq<Event<T>>): seq<Event<T>>
    requires events != []
  {
    events[..|events| - 1]
  }

  function Last<T>(events: seq<Event<T>>): Event<T>
    requires events != []
  {
    events[|events| - 1]
  }

  lemma ExecBefore<T>(events: seq<Event<T>>)
    requires events != [] && Exec(events).Some?
    ensures Exec(Before(events)).Some? && Possible(Exec(Before(events)).value, Last(events))
    ensures Exec(events).value == Step(Exec(Before(events)).value, Last(events))
  {
  }

  /** What a step is for the core hub, if it concerns it. */
  function HubEvent<T>(s: WebState<T>, e: Event<T>): seq<CoreHub.Event<T>> {
    match e
    case Core(c) => [c]
    case LoopSubscribe(id) => [CoreHub.Subscribe(id)]
    case LoopReceive => if s.sub.Some? then [CoreHub.Receive(s.sub.value)] else []
    case LoopStop => if s.sub.Some? then [CoreHub.Unsubscribe(s.sub.value)] else []
    case _ => []
  }

  /** Leaving out what concerns the clients only, every run is a run of the core hub. */
  ghost function HubEvents<T>(events: seq<Event<T>>): (r: seq<CoreHub.Event<T>>)
    requires Exec(events).Some?
    ensures CoreHub.Exec(r) == Some(Exec(events).value.hub)
    decreases |events|
  {
    if events == [] then []
    else
      var before := HubEvents(Before(events));
      var s := Exec(Before(events)).value;
      HubEventIsStep(before, s, Last(events));
      before + HubEvent(s, Last(events))
  }

  lemma HubEventIsStep<T>(before: seq<CoreHub.Event<T>>, s: WebState<T>, e: Event<T>)
    requires CoreHub.Exec(before) == Some(s.hub) && Possible(s, e)
    ensures CoreHub.Exec(before + HubEvent(s, e)) == Some(Step(s, e).hub)
  {
    if HubEvent(s, e) == [] {
      AppendNothing(before);
    } else {
      OneHubEvent(before, HubEvent(s, e)[0]);
    }
    hide CoreHub.Step, CoreHub.Possible;
  }

  lemma OneHubEvent<T>(before: seq<CoreHub.Event<T>>, c: CoreHub.Event<T>)
    ensures (before + [c])[..|before + [c]| - 1] == before && (before + [c])[|before + [c]| - 1] == c
  {
  }

  /** The infos lost on the way to the clients: those the loop held while 16 were queued, and those that could
      not be marshalled. */
  ghost function Lost<T>(events: seq<Event<T>>): seq<T>
    requires Exec(events).Some?
  {
    if events == [] then []
    else
      var (s, e) := (Exec(Before(events)).value, Last(events));
      Lost(Before(events))
      + if e.LoopQueue? && s.held.Some? && |s.queue| >= 16 then [s.held.value]
        else if e == RunBroadcast(false) && s.queue != [] then [s.queue[0]]
        else []
  }

  /** Whether a step hands an info to the client `id`. */
  predicate Shows<T>(s: WebState<T>, e: Event<T>, id: Id) {
    e.RunBroadcast? && e.marshalled && s.queue != [] && id in s.fan.members && id in s.fan.channels
  }

  /** The infos handled while `id` was a client, those of them that found fewer than 64 in its buffer, and
      how many found it full. */
  ghost function Shown<T>(events: seq<Event<T>>, id: Id): seq<T>
    requires Exec(events).Some?
  {
    if events == [] then []
    else
      var s := Exec(Before(events)).value;
      Shown(Before(events), id) + if Shows(s, Last(events), id) then [s.queue[0]] else []
  }

  ghost function GotIn<T>(events: seq<Event<T>>, id: Id): seq<T>
    requires Exec(events).Some?
  {
    if events == [] then []
    else
      var s := Exec(Before(events)).value;
      GotIn(Before(events), id)
      + if Shows(s, Last(events), id) && |s.fan.channels[id].buffer| < 64 then [s.queue[0]] else []
  }

  ghost function FoundFull<T>(events: seq<Event<T>>, id: Id): nat
    requires Exec(events).Some?
  {
    if events == [] then 0
    else
      var s := Exec(Before(events)).value;
      FoundFull(Before(events), id)
      + if Shows(s, Last(events), id) && |s.fan.channels[id].buffer| >= 64 then 1 else 0
  }

  function Receipts<T>(events: seq<Event<T>>, id: Id): nat {
    if events == [] then 0
    else Receipts(Before(events), id) + if Last(events).Receive? && Last(events).id == id then 1 else 0
  }

  /** What each step does to the websocket hub's own state, in full. */
  lemma WebStep<T(!new)>(s: WebState<T>, e: Event<T>)
    requires Possible(s, e)
    ensures var t := Step(s, e);
            && t.held == (match e
                          case LoopReceive => Some(s.hub.fan.channels[s.sub.value].buffer[0])
                          case LoopQueue => None
                          case _ => s.held)
            && t.queue == (match e
                           case LoopQueue => if |s.queue| < 16 then s.queue + [s.held.value] else s.queue
                           case RunBroadcast(_) => s.queue[1..]
                           case _ => s.queue)
            && t.dropped == (match e
                             case LoopQueue => if |s.queue| < 16 then s.dropped else s.dropped + [s.held.value]
                             case RunBroadcast(m) => if m then s.dropped else s.dropped + [s.queue[0]]
                             case _ => s.dropped)
            && t.fan.handled == (if e == RunBroadcast(true) then s.fan.handled + [s.queue[0]] else s.fan.handled)
            && t.fan.members == (match e
                                 case Register(id) => s.fan.members + {id}
                                 case Unregister(id) => s.fan.members - {id}
                                 case RunStop => {}
                                 case _ => s.fan.members)
            && t.sub == (if e.LoopSubscribe? then Some(e.id) else s.sub) && t.loopDone == (s.loopDone || e.LoopStop?)
            && t.stopping == (s.stopping || e.Stop?) && t.stopped == (s.stopped || e.RunStop?)
            && t.crashed == (e.Stop? && s.stopping)
  {
    hide CoreHub.Step, CoreHub.Possible, Offered;
  }

  /** What each step does to one client's channel, in full. */
  lemma ClientStep<T(!new)>(s: WebState<T>, e: Event<T>, id: Id)
    requires Possible(s, e) && s.fan.members <= s.fan.channels.Keys
    ensures id in Step(s, e).fan.channels <==> id in s.fan.channels || (e.Register? && e.id == id)
    ensures id !in s.fan.channels && e.Register? && e.id == id ==>
              Step(s, e).fan.channels[id] == Channel([], false, [], Some(|s.fan.handled|), None, 0)
    ensures id in s.fan.channels ==>
              var (c, d) := (s.fan.channels[id], Step(s, e).fan.channels[id]);
              match e
              case RunBroadcast(m) =>
                d == if !m || id !in s.fan.members then c
                     else if |c.buffer| < 64 then c.(buffer := c.buffer + [s.queue[0]]) else c.(missed := c.missed + 1)
              case Receive(i) =>
                d == if i == id then c.(buffer := c.buffer[1..], taken := c.taken + [c.buffer[0]]) else c
              case Unregister(i) =>
                d == if i == id && id in s.fan.members
                     then c.(closed := true, left := Some(|s.fan.handled|)) else c
              case RunStop => d == if id in s.fan.members then c.(closed := true, left := Some(|s.fan.handled|)) else c
              case _ => d == c
  {
    hide CoreHub.Step, CoreHub.Possible;
    if e.RunBroadcast? {
      PublishedKeepsNames(s.fan, s.queue[0], CLIENT_CAPACITY);
      if id in s.fan.channels {
        PublishedInFull(s.fan, s.queue[0], CLIENT_CAPACITY, id);
      }
    }
  }

  /** What the events say of one client, and of what was lost, is what the state says. */
  ghost predicate Told<T>(events: seq<Event<T>>, id: Id)
    requires Exec(events).Some?
  {
    var s := Exec(events).value;
    && s.dropped == Lost(events)
    && if id in s.fan.channels
       then s.fan.channels[id].joined.Some?
            && Agrees(s.fan.channels[id], s.fan.handled, GotIn(events, id), FoundFull(events, id), Shown(events, id),
                      Receipts(events, id))
       else GotIn(events, id) == Shown(events, id) == [] && FoundFull(events, id) == Receipts(events, id) == 0
  }

  lemma {:induction false} EveryRunTells<T(!new)>(events: seq<Event<T>>, id: Id)
    requires Exec(events).Some?
    ensures Told(events, id)
    decreases |events|
  {
    if events != [] {
      ExecBefore(events);
      EveryRunTells(Before(events), id);
      EveryRunKeeps(Before(events));
      TellingGoesOn(events, Exec(Before(events)).value, id);
    }
  }

  lemma TellingGoesOn<T(!new)>(events: seq<Event<T>>, s: WebState<T>, id: Id)
    requires events != [] && Exec(Before(events)) == Some(s) && Possible(s, Last(events))
    requires Exec(events) == Some(Step(s, Last(events))) && Told(Before(events), id) && Invariant(s)
    ensures Told(events, id)
  {
    hide Exec, Agrees, Step, Invariant, Possible, Lost, GotIn, Shown, FoundFull, Receipts;
    MembersAreIn(s, id);
    LossIsTold(events, s);
    if id in s.fan.channels {
      ClientIsTold(events, s, id);
    } else {
      NewClientIsTold(events, s, id);
    }
  }

  lemma NewClientIsTold<T(!new)>(events: seq<Event<T>>, s: WebState<T>, id: Id)
    requires events != [] && Exec(Before(events)) == Some(s) && Possible(s, Last(events))
    requires Exec(events) == Some(Step(s, Last(events))) && Told(Before(events), id)
    requires s.fan.members <= s.fan.channels.Keys && id !in s.fan.channels
    ensures var t := Step(s, Last(events));
            if id in t.fan.channels
            then t.fan.channels[id].joined.Some?
                 && Agrees(t.fan.channels[id], t.fan.handled, GotIn(events, id), FoundFull(events, id),
                           Shown(events, id), Receipts(events, id))
            else GotIn(events, id) == Shown(events, id) == [] && FoundFull(events, id) == Receipts(events, id) == 0
  {
    hide Exec, Agrees, Subsequence, Step, CoreHub.Possible, Lost;
    WebStep(s, Last(events));
    ClientStep(s, Last(events), id);
    AppendNothing<T>([]);
    NewAgrees(s.fan.handled);
    AgreesJoined(Channel([], false, [], None, None, 0), s.fan.handled, [], 0, [], 0);
  }

  lemma LossIsTold<T(!new)>(events: seq<Event<T>>, s: WebState<T>)
    requires events != [] && Exec(Before(events)) == Some(s) && Possible(s, Last(events))
    requires Exec(events) == Some(Step(s, Last(events))) && s.dropped == Lost(Before(events))
    ensures Step(s, Last(events)).dropped == Lost(events)
  {
    hide Exec, Step, CoreHub.Possible;
    WebStep(s, Last(events));
    AppendNothing(s.dropped);
  }

  lemma ClientIsTold<T(!new)>(events: seq<Event<T>>, s: WebState<T>, id: Id)
    requires events != [] && Exec(Before(events)) == Some(s) && Possible(s, Last(events))
    requires Exec(events) == Some(Step(s, Last(events))) && Told(Before(events), id)
    requires s.fan.members <= s.fan.channels.Keys && id in s.fan.channels
    requires !s.stopped ==> (id in s.fan.members <==>
               s.fan.channels[id].joined.Some? && s.fan.channels[id].left.None?)
    ensures var t := Step(s, Last(events));
            && id in t.fan.channels && t.fan.channels[id].joined.Some?
            && Agrees(t.fan.channels[id], t.fan.handled, GotIn(events, id), FoundFull(events, id), Shown(events, id),
                      Receipts(events, id))
  {
    hide Exec, Agrees, Subsequence, Step, CoreHub.Possible, Lost;
    var e, h, c := Last(events), s.fan.handled, s.fan.channels[id];
    var got, full, shown, n := GotIn(Before(events), id), FoundFull(Before(events), id), Shown(Before(events), id),
                               Receipts(Before(events), id);
    AppendNothing(got);
    AppendNothing(shown);
    WebStep(s, e);
    ClientStep(s, e, id);
    match e
    case RunBroadcast(m) =>
      if m {
        AgreesHandled(c, h, got, full, shown, n, s.queue[0]);
      }
    case Receive(i) =>
      if i == id {
        AgreesReceived(c, h, got, full, shown, n);
      }
    case Unregister(i) =>
      if i == id && id in s.fan.members {
        AgreesLeft(c, h, got, full, shown, n);
      }
    case RunStop =>
      if id in s.fan.members {
        AgreesLeft(c, h, got, full, shown, n);
      }
    case _ =>
  }

  lemma MembersAreIn<T(!new)>(s: WebState<T>, id: Id)
    requires Invariant(s)
    ensures s.fan.members <= s.fan.channels.Keys
    ensures id in s.fan.channels && !s.stopped ==>
              var c := s.fan.channels[id]; id in s.fan.members <==> c.joined.Some? && c.left.None?
  {
    hide CoreHub.Invariant, Flows;
  }

  /** A client whose buffer held fewer than 64 whenever an info was handled got every info handled while it was
      one, in order and none twice; whoever was found full misses just those infos. */
  lemma NeverFullGetsAll<T(!new)>(events: seq<Event<T>>, id: Id)
    requires Exec(events).Some? && id in Exec(events).value.fan.channels
    ensures var c := Exec(events).value.fan.channels[id];
            && c.Delivered() == GotIn(events, id) && |c.taken| == Receipts(events, id)
            && Subsequence(GotIn(events, id), Shown(events, id))
            && |GotIn(events, id)| + FoundFull(events, id) == |Shown(events, id)|
            && c.missed == FoundFull(events, id)
            && (FoundFull(events, id) == 0 ==> c.Delivered() == Shown(events, id))
  {
    EveryRunTells(events, id);
    var s := Exec(events).value;
    if FoundFull(events, id) == 0 {
      GotAllShown(s.fan.channels[id], s.fan.handled, GotIn(events, id), Shown(events, id), Receipts(events, id));
    }
  }

  /** End to end, in every interleaving: if the loop never held an info while 16 were queued, all infos could be
      marshalled, and neither the subscription nor the client was ever found full, the
      client's messages are an unbroken run of the infos that the core hub handled. */
  lemma ClientSeesUnbrokenRun<T(!new)>(events: seq<Event<T>>, id: Id)
    requires Exec(events).Some? && id in Exec(events).value.fan.channels
    requires Lost(events) == [] && FoundFull(events, id) == 0
    requires var s := Exec(events).value; s.sub.Some? ==> CoreHub.FoundFull(HubEvents(events), s.sub.value) == 0
    ensures var s := Exec(events).value;
            var (c, infos) := (s.fan.channels[id], s.hub.fan.handled);
            && c.joined.Some?
            && var (i, j) := (HeardFrom(s) + c.joined.value, HeardFrom(s) + End(c, s.fan.handled));
               i <= j <= |infos| && c.Delivered() == infos[i..j]
  {
    hide Running, Sound, Subsequence, CoreHub.Invariant, Flows, HeardFrom, OnTheWay, Arrived, Exec, CoreHub.Exec;
    EveryRunKeeps(events);
    EveryRunTells(events, id);
    var s := Exec(events).value;
    if s.sub.Some? {
      CoreHub.EveryRunTells(HubEvents(events), s.sub.value);
    }
    UnbrokenRun(s, id);
  }

  /** Nothing but an empty queue keeps the running goroutines from a step; joining and leaving wait for
      nothing but the running goroutine. */
  lemma StepsThatCanHappen<T(!new)>(events: seq<Event<T>>, id: Id, m: bool)
    requires Exec(events).Some? && !Exec(events).value.crashed && !Exec(events).value.hub.crashed
    ensures var s := Exec(events).value;
            && (Possible(s, LoopReceive) <==>
                  && s.sub.Some? && !s.loopDone && s.held.None? && s.sub.value in s.hub.fan.channels
                  && s.hub.fan.channels[s.sub.value].buffer != [])
            && (Possible(s, LoopQueue) <==> s.held.Some?)
            && (Possible(s, RunBroadcast(m)) <==> !s.stopped && s.queue != [])
            && (Possible(s, RunStop) <==> !s.stopped && s.stopping)
            && (id !in s.fan.channels ==> (Possible(s, Register(id)) <==> !s.stopped))
            && (id in s.fan.channels ==> (Possible(s, Unregister(id)) <==> !s.stopped))
            && (id in s.fan.channels ==> (Possible(s, Receive(id)) <==> s.fan.channels[id].buffer != []))
  {
    hide Exec, Running, Flows, Tracks, Subsequence, CoreHub.Distinct;
    EveryRunKeeps(events);
  }

  // ----- The hub object

  class WSHub<T(0,==)> {
    const hub: CoreHub.Hub<T>
    var sub: Option<Id>
    var held: Option<T>
    var loopDone: bool
    var clients: set<Id>
    var channels: map<Id, Channel<T>>
    var broadcast: seq<T>
    var stopping: bool
    var stopped: bool
    var panicked: bool
    var handledCount: nat
    ghost var handled: seq<T>
    ghost var dropped: seq<T>
    ghost var crashed: bool

    ghost function State(): WebState<T>
      reads this, hub
    {
      WebState(hub.State(), sub, held, loopDone, Fan(clients, channels, handled, panicked), broadcast, dropped,
               stopping, stopped, crashed)
    }

    ghost predicate Valid()
      reads this, hub
    {
      hub.Valid() && clients <= channels.Keys && handledCount == |handled|
    }

    constructor (hub: CoreHub.Hub<T>)
      requires hub.Valid()
      ensures Valid() && this.hub == hub
      ensures State() == Start<T>().(hub := hub.State())
    {
      this.hub := hub;
      sub, held, loopDone := None, None, false;
      clients, channels, broadcast := {}, map[], [];
      stopping, stopped, panicked, handledCount := false, false, false, 0;
      handled, dropped, crashed := [], [], false;
    }

    // The forwarding loop

    method Subscribe(id: Id)
      requires Valid() && Possible(State(), LoopSubscribe(id))
      modifies this, hub
      ensures Valid() && State() == Step(old(State()), LoopSubscribe(id))
    {
      hub.NewSubscription(id);
      sub := Some(id);
    }

    method TakeInfo()
      requires Valid() && Possible(State(), LoopReceive)
      modifies this, hub
      ensures Valid() && State() == Step(old(State()), LoopReceive)
    {
      var info := hub.Next(sub.value);
      held := Some(info);
    }

    method QueueInfo()
      requires Valid() && Possible(State(), LoopQueue)
      modifies this`broadcast, this`held, this`dropped
      ensures Valid() && State() == Step(old(State()), LoopQueue)
    {
      if |broadcast| < QUEUE_CAPACITY {
        broadcast := broadcast + [held.value];
      } else {
        dropped := dropped + [held.value];
      }
      held := None;
    }

    method StopForwarding()
      requires Valid() && Possible(State(), LoopStop)
      modifies this, hub
      ensures Valid() && State() == Step(old(State()), LoopStop)
    {
      hub.EndSubscription(sub.value);
      loopDone := true;
    }

    // The branches of the goroutine's select

    method HandleRegister(id: Id)
      requires Valid() && Possible(State(), Register(id))
      modifies this
      ensures Valid() && State() == Step(old(State()), Register(id))
    {
      channels := channels[id := NewChannel()];
      clients := clients + {id};
      channels := channels[id := channels[id].(joined := Some(handledCount))];
    }

    method HandleUnregister(id: Id)
      requires Valid() && Possible(State(), Unregister(id))
      modifies this
      ensures Valid() && State() == Step(old(State()), Unregister(id))
    {
      if id in clients {
        clients := clients - {id};
        panicked := panicked || channels[id].closed;
        channels := channels[id := channels[id].(closed := true, left := Some(handledCount))];
      }
    }

    method HandleBroadcast(marshalled: bool)
      requires Valid() && Possible(State(), RunBroadcast(marshalled))
      modifies this
      ensures Valid() && State() == Step(old(State()), RunBroadcast(marshalled))
    {
      hide Published;
      var info := broadcast[0];
      broadcast := broadcast[1..];
      if !marshalled {
        dropped := dropped + [info];
        return;
      }
      SendToAll(info);
    }

    /** The loop over the clients. */
    method SendToAll(info: T)
      requires clients <= channels.Keys && handledCount == |handled| && !panicked
      modifies this`channels, this`panicked, this`handled, this`handledCount
      ensures clients <= channels.Keys && handledCount == |handled|
      ensures Fan(clients, channels, handled, panicked)
              == Published(old(Fan(clients, channels, handled, panicked)), info, CLIENT_CAPACITY)
    {
      PublishedKeepsNames(Fan(clients, channels, handled, false), info, CLIENT_CAPACITY);
      hide Published;
      channels, panicked := OfferAll(clients, channels, info, CLIENT_CAPACITY, handled);
      handled, handledCount := handled + [info], handledCount + 1;
    }

    method HandleStop()
      requires Valid() && Possible(State(), RunStop)
      modifies this
      ensures Valid() && State() == Step(old(State()), RunStop)
    {
      channels, panicked := CloseAll(clients, channels, handledCount, handled);
      clients := {};
      stopped := true;
    }

    method RequestStop()
      requires Valid() && Possible(State(), Stop)
      modifies this`stopping, this`crashed
      ensures Valid() && State() == Step(old(State()), Stop)
    {
      crashed := stopping;
      stopping := true;
    }

    method ClientReceive(id: Id) returns (info: T)
      requires Valid() && Possible(State(), Receive(id))
      modifies this`channels
      ensures Valid() && State() == Step(old(State()), Receive(id))
      ensures info == old(channels)[id].buffer[0]
    {
      var c := channels[id];
      info := c.buffer[0];
      channels := channels[id := c.(buffer := c.buffer[1..], taken := c.taken + [info])];
    }
  }
}
