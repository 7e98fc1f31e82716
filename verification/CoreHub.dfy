/**
 The core hub: its goroutine picks among four channels in any order while callers
 subscribe, unsubscribe, broadcast and close, and subscribers receive. Each event
 below is one of those steps; a run is any sequence of steps that can happen.
 */
module CoreHub {
  import opened Bytes
  import opened FanOut

  const QUEUE_CAPACITY := 16
  const SUBSCRIPTION_CAPACITY := 8

  /** `offered` and `closes` record the calls of Broadcast and Close. */
  datatype HubState<T> = HubState(
    fan: Fan<T>, register: seq<Id>, unregister: seq<Id>, broadcast: seq<T>,
    latest: Option<T>, done: bool, stopped: bool, crashed: bool, offered: seq<T>, closes: nat)

  datatype Event<T> =
    | Subscribe(id: Id) | Unsubscribe(id: Id) | Broadcast(info: T) | Close | Receive(id: Id)
    | TakeRegister | TakeUnregister | TakeBroadcast | TakeDone

  function Start<T>(): HubState<T> {
    HubState(Fan({}, map[], [], false), [], [], [], None, false, false, false, [], 0)
  }

  /** When a step can happen: a call that would block is not possible, nor is any step of the
      goroutine once it has returned. */
  predicate Possible<T>(s: HubState<T>, e: Event<T>) {
    && !s.crashed && !s.fan.panicked
    && match e
       case Subscribe(id) => id !in s.fan.channels && |s.register| < QUEUE_CAPACITY
       case Unsubscribe(id) => id in s.fan.channels && |s.unregister| < QUEUE_CAPACITY
       case Broadcast(_) => true
       case Close => true
       case Receive(id) => id in s.fan.channels && s.fan.channels[id].buffer != []
       case TakeRegister => !s.stopped && s.register != [] && s.register[0] in s.fan.channels
       case TakeUnregister => !s.stopped && s.unregister != [] && s.unregister[0] in s.fan.channels
       case TakeBroadcast => !s.stopped && s.broadcast != []
       case TakeDone => !s.stopped && s.done
  }

  function Step<T>(s: HubState<T>, e: Event<T>): HubState<T>
    requires Possible(s, e)
  {
    match e
    case Subscribe(id) => s.(fan := Opened(s.fan, id), register := s.register + [id])
    case Unsubscribe(id) => s.(unregister := s.unregister + [id])
    case Broadcast(info) =>
      s.(broadcast := if |s.broadcast| < QUEUE_CAPACITY then s.broadcast + [info] else s.broadcast,
         offered := s.offered + [info])
    case Close => s.(done := true, crashed := s.done, closes := s.closes + 1)
    case Receive(id) => s.(fan := Received(s.fan, id))
    case TakeRegister => s.(fan := Joined(s.fan, s.register[0]), register := s.register[1..])
    case TakeUnregister => s.(fan := Left(s.fan, s.unregister[0]), unregister := s.unregister[1..])
    case TakeBroadcast =>
      s.(fan := Published(s.fan, s.broadcast[0], SUBSCRIPTION_CAPACITY),
         broadcast := s.broadcast[1..], latest := Some(s.broadcast[0]))
    case TakeDone => s.(fan := AllClosed(s.fan), stopped := true)
  }

  /** The state after a run. */
  function Exec<T>(events: seq<Event<T>>): Option<HubState<T>> {
    if events == [] then Some(Start())
    else
      var s := Exec(events[..|events| - 1]);
      if s.Some? && Possible(s.value, events[|events| - 1]) then Some(Step(s.value, events[|events| - 1])) else None
  }

  ghost predicate Distinct<T>(s: seq<T>) {
    forall i, j :: 0 <= i < j < |s| ==> s[i] != s[j]
  }

  /** What every run keeps. */
  ghost predicate Invariant<T(!new)>(s: HubState<T>) {
    && Sound(s.fan, SUBSCRIPTION_CAPACITY)
    && (!s.stopped ==> Running(s.fan))
    && (s.crashed <==> s.closes >= 2)
    && (s.done <==> s.closes >= 1)
    && Distinct(s.register)
    && (forall id :: id in s.register ==> id in s.fan.channels && s.fan.channels[id].joined.None?)
    && (forall id :: id in s.unregister ==> id in s.fan.channels)
    && s.latest == (if s.fan.handled == [] then None else Some(s.fan.handled[|s.fan.handled| - 1]))
    && Subsequence(s.fan.handled + s.broadcast, s.offered)
  }

  lemma StartKeeps<T(!new)>()
    ensures Invariant<T>(Start())
  {
    NothingIsSubsequence<T>([]);
    AppendNothing<T>([]);
  }

  predicate IsCall<T>(e: Event<T>) {
    e.Subscribe? || e.Unsubscribe? || e.Broadcast? || e.Close? || e.Receive?
  }

  lemma CallKeeps<T(!new)>(s: HubState<T>, e: Event<T>)
    requires Invariant(s) && Possible(s, e) && IsCall(e)
    ensures Invariant(Step(s, e))
  {
    hide Tracks;
    match e
    case Subscribe(id) =>
      OpenedSound(s.fan, id, SUBSCRIPTION_CAPACITY);
    case Broadcast(info) =>
      SubsequencePush(s.fan.handled + s.broadcast, s.offered, info);
      AppendAssoc(s.fan.handled, s.broadcast, [info]);
    case Receive(id) =>
      ReceivedSound(s.fan, id, SUBSCRIPTION_CAPACITY);
    case _ =>
  }

  lemma DistinctTail<T>(s: seq<T>)
    requires Distinct(s) && s != []
    ensures Distinct(s[1..]) && s[0] !in s[1..]
    ensures forall x :: x in s[1..] ==> x in s
  {
  }

  lemma TakeRegisterKeeps<T(!new)>(s: HubState<T>)
    requires Invariant(s) && Possible(s, TakeRegister)
    ensures Invariant(Step(s, TakeRegister))
  {
    hide Sound, Running, Subsequence;
    DistinctTail(s.register);
    JoinedSound(s.fan, s.register[0], SUBSCRIPTION_CAPACITY);
  }

  lemma TakeUnregisterKeeps<T(!new)>(s: HubState<T>)
    requires Invariant(s) && Possible(s, TakeUnregister)
    ensures Invariant(Step(s, TakeUnregister))
  {
    hide Tracks;
    LeftSound(s.fan, s.unregister[0], SUBSCRIPTION_CAPACITY);
  }

  lemma TakeBroadcastKeeps<T(!new)>(s: HubState<T>)
    requires Invariant(s) && Possible(s, TakeBroadcast)
    ensures Invariant(Step(s, TakeBroadcast))
  {
    PublishedSound(s.fan, s.broadcast[0], SUBSCRIPTION_CAPACITY);
    HeadAndTail(s.broadcast, []);
    AppendAssoc(s.fan.handled, [s.broadcast[0]], s.broadcast[1..]);
  }

  lemma TakeDoneKeeps<T(!new)>(s: HubState<T>)
    requires Invariant(s) && Possible(s, TakeDone)
    ensures Invariant(Step(s, TakeDone))
  {
    AllClosedSound(s.fan, SUBSCRIPTION_CAPACITY);
  }

  lemma StepKeeps<T(!new)>(s: HubState<T>, e: Event<T>)
    requires Invariant(s) && Possible(s, e)
    ensures Invariant(Step(s, e))
  {
    hide Invariant;
    match e
    case TakeRegister => TakeRegisterKeeps(s);
    case TakeUnregister => TakeUnregisterKeeps(s);
    case TakeBroadcast => TakeBroadcastKeeps(s);
    case TakeDone => TakeDoneKeeps(s);
    case _ => CallKeeps(s, e);
  }

  lemma {:induction false} EveryRunKeeps<T(!new)>(events: seq<Event<T>>)
    requires Exec(events).Some?
    ensures Invariant(Exec(events).value)
    decreases |events|
  {
    if events == [] {
      StartKeeps<T>();
    } else {
      EveryRunKeeps(events[..|events| - 1]);
      StepKeeps(Exec(events[..|events| - 1]).value, events[|events| - 1]);
    }
  }

  /** What the invariant says of one channel. */
  lemma ChannelInState<T(!new)>(s: HubState<T>, id: Id)
    requires Invariant(s) && id in s.fan.channels
    ensures !s.fan.panicked && (s.crashed <==> s.closes >= 2)
    ensures s.latest == (if s.fan.handled == [] then None else Some(s.fan.handled[|s.fan.handled| - 1]))
    ensures Subsequence(s.fan.handled, s.offered)
    ensures var c := s.fan.channels[id];
            && (c.joined.None? ==> c.Delivered() == [])
            && (c.joined.Some? ==>
                  && c.joined.value <= End(c, s.fan.handled) <= |s.fan.handled|
                  && var window := s.fan.handled[c.joined.value..End(c, s.fan.handled)];
                     && Subsequence(c.Delivered(), window)
                     && |c.Delivered()| + c.missed == |window|
                     && (c.missed == 0 ==> c.Delivered() == window))
  {
    hide Subsequence, Running, Distinct;
    SubsequencePrefix(s.fan.handled, s.broadcast, s.offered);
    var c := s.fan.channels[id];
    if c.joined.Some? && c.missed == 0 {
      NothingMissed(c, s.fan.handled, SUBSCRIPTION_CAPACITY);
    }
  }

  /** In every interleaving: no channel is closed twice or sent on after closing,
      and only a second Close can crash the program; `latest` is the last info
      handled; what was handled was broadcast, in the same order; and what each
      subscription got is in order, from its registration to its end, with
      exactly as many infos left out as found its buffer full. */
  lemma EveryInterleaving<T(!new)>(events: seq<Event<T>>, id: Id)
    requires Exec(events).Some? && id in Exec(events).value.fan.channels
    ensures var s := Exec(events).value;
            var c := s.fan.channels[id];
            && !s.fan.panicked && (s.crashed <==> s.closes >= 2)
            && s.latest == (if s.fan.handled == [] then None else Some(s.fan.handled[|s.fan.handled| - 1]))
            && Subsequence(s.fan.handled, s.offered)
            && (c.joined.None? ==> c.Delivered() == [])
            && (c.joined.Some? ==>
                  && c.joined.value <= End(c, s.fan.handled) <= |s.fan.handled|
                  && var window := s.fan.handled[c.joined.value..End(c, s.fan.handled)];
                     && Subsequence(c.Delivered(), window)
                     && |c.Delivered()| + FoundFull(events, id) == |window|
                     && (FoundFull(events, id) == 0 ==> c.Delivered() == window))
  {
    hide Exec, FoundFull, GotIn, Shown, Receipts, Subsequence, Invariant, End;
    EveryRunKeeps(events);
    EveryRunTells(events, id);
    ChannelInState(Exec(events).value, id);
  }

  // ----- The same told by the events alone

  function Before<T>(events: seq<Event<T>>): seq<Event<T>>
    requires events != []
  {
    events[..|events| - 1]
  }

  function Last<T>(events: seq<Event<T>>): Event<T>
    requires events != []
  {
    events[|events| - 1]
  }

  /** The infos broadcast while fewer than 16 were waiting. */
  ghost function LetIn<T>(events: seq<Event<T>>): seq<T>
    requires Exec(events).Some?
  {
    if events == [] then []
    else if Last(events).Broadcast? && |Exec(Before(events)).value.broadcast| < 16
    then LetIn(Before(events)) + [Last(events).info]
    else LetIn(Before(events))
  }

  /** The infos handled while `id` was a subscriber. */
  ghost function Shown<T>(events: seq<Event<T>>, id: Id): seq<T>
    requires Exec(events).Some?
  {
    if events == [] then []
    else
      var (s, shown) := (Exec(Before(events)).value, Shown(Before(events), id));
      if Last(events).TakeBroadcast? && id in s.fan.members then shown + [s.broadcast[0]] else shown
  }

  /** Those of them that found fewer than 8 in the subscriber's buffer. */
  ghost function GotIn<T>(events: seq<Event<T>>, id: Id): seq<T>
    requires Exec(events).Some?
  {
    if events == [] then []
    else
      var (s, got) := (Exec(Before(events)).value, GotIn(Before(events), id));
      if Last(events).TakeBroadcast? && id in s.fan.members && id in s.fan.channels && |s.fan.channels[id].buffer| < 8
      then got + [s.broadcast[0]] else got
  }

  /** How many found it full. */
  ghost function FoundFull<T>(events: seq<Event<T>>, id: Id): nat
    requires Exec(events).Some?
  {
    if events == [] then 0
    else
      var s := Exec(Before(events)).value;
      FoundFull(Before(events), id)
      + if Last(events).TakeBroadcast? && id in s.fan.members && id in s.fan.channels
           && |s.fan.channels[id].buffer| >= 8 then 1 else 0
  }

  /** The ids subscribed, and those among them whose registration was taken, each in order. */
  function Subscribed<T>(events: seq<Event<T>>): seq<Id> {
    if events == [] then []
    else if Last(events).Subscribe? then Subscribed(Before(events)) + [Last(events).id]
    else Subscribed(Before(events))
  }

  function Ended<T>(events: seq<Event<T>>): seq<Id> {
    if events == [] then []
    else if Last(events).Unsubscribe? then Ended(Before(events)) + [Last(events).id]
    else Ended(Before(events))
  }

  function TakenRegistrations<T>(events: seq<Event<T>>): nat {
    if events == [] then 0 else TakenRegistrations(Before(events)) + if Last(events).TakeRegister? then 1 else 0
  }

  function TakenEnds<T>(events: seq<Event<T>>): nat {
    if events == [] then 0 else TakenEnds(Before(events)) + if Last(events).TakeUnregister? then 1 else 0
  }

  function Receipts<T>(events: seq<Event<T>>, id: Id): nat {
    if events == [] then 0
    else Receipts(Before(events), id) + if Last(events).Receive? && Last(events).id == id then 1 else 0
  }

  /** A subscriber from when its registration is taken until its end is. */
  predicate Subscribes<T>(events: seq<Event<T>>, id: Id)
    requires Exec(events).Some?
  {
    events != [] &&
    var (s, e) := (Exec(Before(events)).value, Last(events));
    || (e.TakeRegister? && s.register[0] == id)
    || (Subscribes(Before(events), id) && !(e.TakeUnregister? && s.unregister[0] == id))
  }

  /** What each step does to one channel, in full. */
  lemma ChannelStep<T(!new)>(s: HubState<T>, e: Event<T>, id: Id)
    requires Possible(s, e) && id in s.fan.channels
    ensures id in Step(s, e).fan.channels
    ensures var (c, d) := (s.fan.channels[id], Step(s, e).fan.channels[id]);
            match e
            case TakeBroadcast =>
              d == if id !in s.fan.members then c
                   else if |c.buffer| < 8 then c.(buffer := c.buffer + [s.broadcast[0]]) else c.(missed := c.missed + 1)
            case Receive(i) =>
              d == if i == id then c.(buffer := c.buffer[1..], taken := c.taken + [c.buffer[0]]) else c
            case TakeRegister => d == if s.register[0] == id then c.(joined := Some(|s.fan.handled|)) else c
            case TakeUnregister =>
              d == if s.unregister[0] == id && id in s.fan.members
                   then c.(closed := true, left := Some(|s.fan.handled|)) else c
            case TakeDone => d == if id in s.fan.members then c.(closed := true, left := Some(|s.fan.handled|)) else c
            case _ => d == c
  {
    if e.TakeBroadcast? {
      PublishedInFull(s.fan, s.broadcast[0], SUBSCRIPTION_CAPACITY, id);
    }
  }

  /** What each step does to the rest of the state, in full: which infos and ids are waiting, who subscribes,
      and whether the hub is asked to stop, has stopped or has crashed. */
  lemma HubStep<T(!new)>(s: HubState<T>, e: Event<T>)
    requires Possible(s, e)
    ensures var t := Step(s, e);
            && t.broadcast == (match e
                               case Broadcast(info) => if |s.broadcast| < 16 then s.broadcast + [info] else s.broadcast
                               case TakeBroadcast => s.broadcast[1..]
                               case _ => s.broadcast)
            && t.fan.handled == (if e.TakeBroadcast? then s.fan.handled + [s.broadcast[0]] else s.fan.handled)
            && t.latest == (if e.TakeBroadcast? then Some(s.broadcast[0]) else s.latest)
            && t.register == (match e
                              case Subscribe(id) => s.register + [id]
                              case TakeRegister => s.register[1..]
                              case _ => s.register)
            && t.unregister == (match e
                                case Unsubscribe(id) => s.unregister + [id]
                                case TakeUnregister => s.unregister[1..]
                                case _ => s.unregister)
            && t.fan.members == (match e
                                 case TakeRegister => s.fan.members + {s.register[0]}
                                 case TakeUnregister => s.fan.members - {s.unregister[0]}
                                 case _ => s.fan.members)
            && t.fan.channels.Keys == s.fan.channels.Keys + (if e.Subscribe? then {e.id} else {})
            && (e.Subscribe? ==> t.fan.channels[e.id] == Channel([], false, [], None, None, 0))
            && t.done == (s.done || e.Close?) && t.stopped == (s.stopped || e.TakeDone?)
            && t.crashed == (e.Close? && s.done)
  {
    if e.TakeBroadcast? {
      PublishedKeepsNames(s.fan, s.broadcast[0], SUBSCRIPTION_CAPACITY);
    } else if e.TakeDone? {
      assert Step(s, e).fan.channels.Keys == s.fan.channels.Keys;
    }
  }

  lemma ExecBefore<T>(events: seq<Event<T>>)
    requires events != [] && Exec(events).Some?
    ensures Exec(Before(events)).Some? && Possible(Exec(Before(events)).value, Last(events))
    ensures Exec(events).value == Step(Exec(Before(events)).value, Last(events))
  {
  }

  /** First in, first out, for infos, registrations and ends: what has been handled and what is
      waiting are together what was let in, in its order; and a subscriber is who was registered and not ended since. */
  lemma {:induction false} QueuesInFull<T(!new)>(events: seq<Event<T>>, id: Id)
    requires Exec(events).Some?
    ensures var s := Exec(events).value;
            && s.fan.handled + s.broadcast == LetIn(events) && |s.broadcast| <= 16
            && TakenRegistrations(events) <= |Subscribed(events)|
            && s.register == Subscribed(events)[TakenRegistrations(events)..]
            && TakenEnds(events) <= |Ended(events)|
            && s.unregister == Ended(events)[TakenEnds(events)..]
            && (id in s.fan.members <==> Subscribes(events, id))
            && (id in s.fan.channels <==> id in Subscribed(events))
    decreases |events|
  {
    if events == [] {
      AppendNothing<T>([]);
    } else {
      ExecBefore(events);
      QueuesInFull(Before(events), id);
      InfosGoOn(events, Exec(Before(events)).value);
      IdsGoOn(events, Exec(Before(events)).value, id);
    }
  }

  lemma InfosGoOn<T(!new)>(events: seq<Event<T>>, s: HubState<T>)
    requires events != [] && Exec(Before(events)) == Some(s) && Possible(s, Last(events))
    requires Exec(events) == Some(Step(s, Last(events)))
    requires s.fan.handled + s.broadcast == LetIn(Before(events)) && |s.broadcast| <= 16
    ensures var t := Step(s, Last(events)); t.fan.handled + t.broadcast == LetIn(events) && |t.broadcast| <= 16
  {
    hide Step, Exec;
    HubStep(s, Last(events));
    InfosMove(s.fan.handled, s.broadcast, LetIn(Before(events)), Last(events));
  }

  lemma IdsGoOn<T(!new)>(events: seq<Event<T>>, s: HubState<T>, id: Id)
    requires events != [] && Exec(Before(events)) == Some(s) && Possible(s, Last(events))
    requires Exec(events) == Some(Step(s, Last(events)))
    requires TakenRegistrations(Before(events)) <= |Subscribed(Before(events))|
    requires s.register == Subscribed(Before(events))[TakenRegistrations(Before(events))..]
    requires TakenEnds(Before(events)) <= |Ended(Before(events))|
    requires s.unregister == Ended(Before(events))[TakenEnds(Before(events))..]
    requires id in s.fan.members <==> Subscribes(Before(events), id)
    requires id in s.fan.channels <==> id in Subscribed(Before(events))
    ensures var t := Step(s, Last(events));
            && TakenRegistrations(events) <= |Subscribed(events)|
            && t.register == Subscribed(events)[TakenRegistrations(events)..]
            && TakenEnds(events) <= |Ended(events)|
            && t.unregister == Ended(events)[TakenEnds(events)..]
            && (id in t.fan.members <==> Subscribes(events, id))
            && (id in t.fan.channels <==> id in Subscribed(events))
  {
    hide Step, Exec;
    var e := Last(events);
    HubStep(s, e);
    QueueMoves(Subscribed(Before(events)), TakenRegistrations(Before(events)), if e.Subscribe? then e.id else 0);
    QueueMoves(Ended(Before(events)), TakenEnds(Before(events)), if e.Unsubscribe? then e.id else 0);
  }

  lemma InfosMove<T>(handled: seq<T>, waiting: seq<T>, all: seq<T>, e: Event<T>)
    requires handled + waiting == all
    ensures e.Broadcast? ==> handled + (waiting + [e.info]) == all + [e.info]
    ensures waiting != [] ==> handled + [waiting[0]] + waiting[1..] == all
  {
    if waiting != [] {
      HeadAndTail(waiting, []);
      AppendAssoc(handled, [waiting[0]], waiting[1..]);
    }
  }

  lemma QueueMoves(all: seq<Id>, n: nat, id: Id)
    requires n <= |all|
    ensures (all + [id])[n..] == all[n..] + [id]
    ensures n < |all| ==> all[n..][1..] == all[n + 1..]
  {
  }

  /** What the events say of one channel is what the state says. */
  ghost predicate Told<T>(events: seq<Event<T>>, id: Id)
    requires Exec(events).Some?
  {
    var s := Exec(events).value;
    if id in s.fan.channels
    then Agrees(s.fan.channels[id], s.fan.handled, GotIn(events, id), FoundFull(events, id), Shown(events, id),
                Receipts(events, id))
    else GotIn(events, id) == Shown(events, id) == [] && FoundFull(events, id) == Receipts(events, id) == 0
  }

  /** In every run a channel holds and has given exactly what came while it was a member with
      fewer than 8 waiting, in order, and misses exactly those that found 8: both are counted on
      the events, without looking at what the channel became. */
  lemma {:induction false} EveryRunTells<T(!new)>(events: seq<Event<T>>, id: Id)
    requires Exec(events).Some?
    ensures Told(events, id)
    decreases |events|
  {
    if events != [] {
      ExecBefore(events);
      EveryRunTells(Before(events), id);
      EveryRunKeeps(Before(events));
      var s := Exec(Before(events)).value;
      if id in s.fan.channels {
        ChannelTells(events, s, id);
      } else {
        NewChannelTells(events, s, id);
      }
    }
  }

  lemma NewChannelTells<T(!new)>(events: seq<Event<T>>, s: HubState<T>, id: Id)
    requires events != [] && Exec(Before(events)) == Some(s) && Possible(s, Last(events))
    requires Exec(events) == Some(Step(s, Last(events))) && id !in s.fan.channels
    requires Told(Before(events), id) && Invariant(s)
    ensures Told(events, id)
  {
    hide Exec, Agrees, Subsequence, Tracks;
    HubStep(s, Last(events));
    NewAgrees(s.fan.handled);
    hide Step;
  }

  lemma ChannelTells<T(!new)>(events: seq<Event<T>>, s: HubState<T>, id: Id)
    requires events != [] && Exec(Before(events)) == Some(s) && Possible(s, Last(events))
    requires Exec(events) == Some(Step(s, Last(events))) && id in s.fan.channels
    requires Told(Before(events), id) && Invariant(s)
    ensures Told(events, id)
  {
    hide Exec, Agrees, Subsequence, Step, Invariant;
    var e, c, h := Last(events), s.fan.channels[id], s.fan.handled;
    var got, full, shown, n := GotIn(Before(events), id), FoundFull(Before(events), id), Shown(Before(events), id),
                               Receipts(Before(events), id);
    HubStep(s, e);
    ChannelStep(s, e, id);
    MembersAreIn(s, id);
    match e
    case TakeBroadcast => AgreesHandled(c, h, got, full, shown, n, s.broadcast[0]);
    case Receive(i) =>
      if i == id {
        AgreesReceived(c, h, got, full, shown, n);
      }
    case TakeRegister =>
      if s.register[0] == id {
        AgreesJoined(c, h, got, full, shown, n);
      }
    case TakeUnregister =>
      if id in s.fan.members {
        AgreesLeft(c, h, got, full, shown, n);
      }
    case TakeDone =>
      if id in s.fan.members {
        AgreesLeft(c, h, got, full, shown, n);
      }
    case _ =>
  }

  /** While the hub runs, the registered channels without an end are those of the members; one still waiting is new. */
  lemma MembersAreIn<T(!new)>(s: HubState<T>, id: Id)
    requires Invariant(s) && id in s.fan.channels
    ensures var c := s.fan.channels[id];
            && (!s.stopped ==> (id in s.fan.members <==> c.joined.Some? && c.left.None?))
            && (id in s.register ==> c.joined.None? && c.left.None?)
  {
  }

  /** A subscriber whose buffer held fewer than 8 whenever an info was handled got every info handled
      while it subscribed, in order and none twice; whoever was found full misses just those infos. */
  lemma NeverFullGetsAll<T(!new)>(events: seq<Event<T>>, id: Id)
    requires Exec(events).Some? && id in Exec(events).value.fan.channels
    ensures var c := Exec(events).value.fan.channels[id];
            && c.Delivered() == GotIn(events, id) && |c.taken| == Receipts(events, id)
            && Subsequence(GotIn(events, id), Shown(events, id))
            && |GotIn(events, id)| + FoundFull(events, id) == |Shown(events, id)|
            && c.missed == FoundFull(events, id)
            && (FoundFull(events, id) == 0 ==> c.Delivered() == Shown(events, id))
  {
    EveryRunTells(events, id);
    var s := Exec(events).value;
    if FoundFull(events, id) == 0 {
      GotAllShown(s.fan.channels[id], s.fan.handled, GotIn(events, id), Shown(events, id), Receipts(events, id));
    }
  }

  /** Nothing but an empty queue keeps the running goroutine from a step, and nothing but 16 waiting
      ids keeps a caller waiting; Broadcast and Close never wait. */
  lemma StepsThatCanHappen<T(!new)>(events: seq<Event<T>>, info: T, id: Id)
    requires Exec(events).Some? && Closings(events) <= 1
    ensures var s := Exec(events).value;
            && (Possible(s, TakeRegister) <==> !s.stopped && s.register != [])
            && (Possible(s, TakeUnregister) <==> !s.stopped && s.unregister != [])
            && (Possible(s, TakeBroadcast) <==> !s.stopped && s.broadcast != [])
            && (Possible(s, TakeDone) <==> !s.stopped && Closings(events) == 1)
            && Possible(s, Broadcast(info)) && Possible(s, Close)
            && (id in s.fan.channels ==> (Possible(s, Unsubscribe(id)) <==> |s.unregister| < 16))
            && (id !in s.fan.channels ==> (Possible(s, Subscribe(id)) <==> |s.register| < 16))
            && (id in s.fan.channels ==> (Possible(s, Receive(id)) <==> s.fan.channels[id].buffer != []))
  {
    hide Sound, Running, Exec, Subsequence, Distinct;
    EveryRunKeeps(events);
    ClosingsCounted(events);
    var s := Exec(events).value;
    assert s.register != [] ==> s.register[0] in s.register;
    assert s.unregister != [] ==> s.unregister[0] in s.unregister;
  }

  function Closings<T>(events: seq<Event<T>>): nat {
    if events == [] then 0 else Closings(Before(events)) + if Last(events).Close? then 1 else 0
  }

  lemma {:induction false} ClosingsCounted<T(!new)>(events: seq<Event<T>>)
    requires Exec(events).Some?
    ensures Exec(events).value.closes == Closings(events) && !Exec(events).value.fan.panicked
    decreases |events|
  {
    EveryRunKeeps(events);
    if events != [] {
      ExecBefore(events);
      ClosingsCounted(Before(events));
    }
  }

  // ----- The hub object

  class Hub<T(0)> {
    var subscribers: set<Id>
    var channels: map<Id, Channel<T>>
    var register: seq<Id>
    var unregister: seq<Id>
    var broadcast: seq<T>
    var latest: Option<T>
    var done: bool
    var stopped: bool       // the goroutine has returned
    var panicked: bool
    var handledCount: nat
    ghost var handled: seq<T>
    ghost var offered: seq<T>
    ghost var closes: nat
    ghost var crashed: bool

    ghost function State(): HubState<T>
      reads this
    {
      HubState(Fan(subscribers, channels, handled, panicked), register, unregister, broadcast,
               latest, done, stopped, crashed, offered, closes)
    }

    ghost predicate Valid()
      reads this
    {
      subscribers <= channels.Keys && handledCount == |handled|
    }

    constructor ()
      ensures Valid() && State() == Start()
    {
      subscribers, channels, register, unregister, broadcast := {}, map[], [], [], [];
      latest, done, stopped, panicked, handledCount := None, false, false, false, 0;
      handled, offered, closes, crashed := [], [], 0, false;
    }

    /** `id` stands for the address of the new subscription. */
    method NewSubscription(id: Id)
      requires Valid() && Possible(State(), Subscribe(id))
      modifies this
      ensures Valid() && State() == Step(old(State()), Subscribe(id))
    {
      channels := channels[id := NewChannel()];
      register := register + [id];
    }

    method EndSubscription(id: Id)
      requires Valid() && Possible(State(), Unsubscribe(id))
      modifies this`unregister
      ensures Valid() && State() == Step(old(State()), Unsubscribe(id))
    {
      unregister := unregister + [id];
    }

    method Send(info: T)
      requires Valid() && Possible(State(), Broadcast(info))
      modifies this`broadcast, this`offered
      ensures Valid() && State() == Step(old(State()), Broadcast(info))
    {
      if |broadcast| < QUEUE_CAPACITY {
        broadcast := broadcast + [info];
      }
      offered := offered + [info];
    }

    method Shut()
      requires Valid() && Possible(State(), Close)
      modifies this`done, this`closes, this`crashed
      ensures Valid() && State() == Step(old(State()), Close)
    {
      crashed := done;
      closes := closes + 1;
      done := true;
    }

    method Next(id: Id) returns (info: T)
      requires Valid() && Possible(State(), Receive(id))
      modifies this`channels
      ensures Valid() && State() == Step(old(State()), Receive(id))
      ensures info == old(channels)[id].buffer[0]
    {
      var c := channels[id];
      info := c.buffer[0];
      channels := channels[id := c.(buffer := c.buffer[1..], taken := c.taken + [info])];
    }

    // The four branches of the goroutine's select

    method RunRegister()
      requires Valid() && Possible(State(), TakeRegister)
      modifies this
      ensures Valid() && State() == Step(old(State()), TakeRegister)
    {
      var id := register[0];
      register := register[1..];
      subscribers := subscribers + {id};
      channels := channels[id := channels[id].(joined := Some(handledCount))];
    }

    method RunUnregister()
      requires Valid() && Possible(State(), TakeUnregister)
      modifies this
      ensures Valid() && State() == Step(old(State()), TakeUnregister)
    {
      var id := unregister[0];
      unregister := unregister[1..];
      if id in subscribers {
        subscribers := subscribers - {id};
        panicked := panicked || channels[id].closed;
        channels := channels[id := channels[id].(closed := true, left := Some(handledCount))];
      }
    }

    method RunBroadcast()
      requires Valid() && Possible(State(), TakeBroadcast)
      modifies this
      ensures Valid() && State() == Step(old(State()), TakeBroadcast)
    {
      hide Published;
      var info := broadcast[0];
      broadcast := broadcast[1..];
      latest := Some(info);
      SendToAll(info);
    }

    /** The loop over the subscribers. */
    method SendToAll(info: T)
      requires Valid() && !panicked
      modifies this`channels, this`panicked, this`handled, this`handledCount
      ensures Valid()
      ensures Fan(subscribers, channels, handled, panicked)
              == Published(old(Fan(subscribers, channels, handled, panicked)), info, SUBSCRIPTION_CAPACITY)
    {
      PublishedKeepsNames(Fan(subscribers, channels, handled, false), info, SUBSCRIPTION_CAPACITY);
      hide Published;
      channels, panicked := OfferAll(subscribers, channels, info, SUBSCRIPTION_CAPACITY, handled);
      handled, handledCount := handled + [info], handledCount + 1;
    }

    method RunDone()
      requires Valid() && Possible(State(), TakeDone)
      modifies this
      ensures Valid() && State() == Step(old(State()), TakeDone)
    {
      channels, panicked := CloseAll(subscribers, channels, handledCount, handled);
      stopped := true;
    }
  }
}
