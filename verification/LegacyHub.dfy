/**
 The legacy web socket hub. Its channels are unbuffered, so registering,
 unregistering and broadcasting each meet the goroutine directly; a client whose
 channel is full is evicted. Every registration brings a client of its own.
 */
module LegacyHub {
  import opened Bytes
  import opened FanOut

  const CLIENT_CAPACITY := 256

  datatype Event<T> = Register(id: Id) | Unregister(id: Id) | Broadcast(message: T) | Receive(id: Id)

  function Start<T>(): Fan<T> {
    Fan({}, map[], [], false)
  }

  predicate Possible<T>(f: Fan<T>, e: Event<T>) {
    && !f.panicked
    && match e
       case Register(id) => id !in f.channels
       case Unregister(id) => id in f.channels
       case Broadcast(_) => true
       case Receive(id) => id in f.channels && f.channels[id].buffer != []
  }

  function Step<T>(f: Fan<T>, e: Event<T>): Fan<T>
    requires Possible(f, e)
  {
    match e
    case Register(id) => Joined(Opened(f, id), id)
    case Unregister(id) => Left(f, id)
    case Broadcast(message) => PublishedOrEvicted(f, message, CLIENT_CAPACITY)
    case Receive(id) => Received(f, id)
  }

  function Exec<T>(events: seq<Event<T>>): Option<Fan<T>> {
    if events == [] then Some(Start())
    else
      var f := Exec(events[..|events| - 1]);
      if f.Some? && Possible(f.value, events[|events| - 1]) then Some(Step(f.value, events[|events| - 1])) else None
  }

  /** The messages broadcast in a run, in order. */
  function Broadcasts<T>(events: seq<Event<T>>): seq<T> {
    if events == [] then []
    else
      var e := events[|events| - 1];
      if e.Broadcast? then Broadcasts(events[..|events| - 1]) + [e.message] else Broadcasts(events[..|events| - 1])
  }

  ghost predicate Invariant<T(!new)>(f: Fan<T>) {
    && Sound(f, CLIENT_CAPACITY) && Running(f)
    && forall id :: id in f.channels ==>
         f.channels[id].missed == 0 && f.channels[id].joined.Some? && (id in f.members || f.channels[id].left.Some?)
  }

  lemma StepKeeps<T(!new)>(f: Fan<T>, e: Event<T>)
    requires Invariant(f) && Possible(f, e)
    ensures Invariant(Step(f, e))
  {
    hide Tracks;
    match e
    case Register(id) =>
      OpenedSound(f, id, CLIENT_CAPACITY);
      JoinedSound(Opened(f, id), id, CLIENT_CAPACITY);
    case Unregister(id) =>
      LeftSound(f, id, CLIENT_CAPACITY);
    case Broadcast(message) =>
      EvictedSound(f, message, CLIENT_CAPACITY);
    case Receive(id) =>
      ReceivedSound(f, id, CLIENT_CAPACITY);
  }

  lemma {:induction false} EveryRunKeeps<T(!new)>(events: seq<Event<T>>)
    requires Exec(events).Some?
    ensures Invariant(Exec(events).value) && Exec(events).value.handled == Broadcasts(events)
    decreases |events|
  {
    if events != [] {
      EveryRunKeeps(events[..|events| - 1]);
      StepKeeps(Exec(events[..|events| - 1]).value, events[|events| - 1]);
    }
  }

  /** No client ever skips a message: what it was sent is the unbroken run of
      broadcasts from its registration to now, or to its eviction or
      unregistration, after which its channel is closed; no channel is closed twice or sent on after closing. */
  lemma NoClientSkips<T(!new)>(events: seq<Event<T>>, id: Id)
    requires Exec(events).Some? && id in Exec(events).value.channels
    ensures var f := Exec(events).value;
            var c := f.channels[id];
            && !f.panicked
            && c.joined.Some? && c.joined.value <= End(c, f.handled) <= |Broadcasts(events)|
            && c.Delivered() == Broadcasts(events)[c.joined.value..End(c, f.handled)]
            && (id in f.members ==> !c.closed && End(c, f.handled) == |Broadcasts(events)|)
            && (id !in f.members ==> c.closed && c.left.Some?)
  {
    EveryRunKeeps(events);
    var f := Exec(events).value;
    NothingMissed(f.channels[id], f.handled, CLIENT_CAPACITY);
  }

  // ----- The same told by the events alone

  function Before<T>(events: seq<Event<T>>): seq<Event<T>>
    requires events != []
  {
    events[..|events| - 1]
  }

  function Last<T>(events: seq<Event<T>>): Event<T>
    requires events != []
  {
    events[|events| - 1]
  }

  /** Whether a broadcast reaches the client `id`: it is a client and fewer than 256 messages wait for it. */
  predicate HasRoom<T>(f: Fan<T>, id: Id) {
    id in f.members && id in f.channels && |f.channels[id].buffer| < 256
  }

  /** The messages broadcast while `id` was a client with fewer than 256 waiting. */
  ghost function GotIn<T>(events: seq<Event<T>>, id: Id): seq<T>
    requires Exec(events).Some?
  {
    if events == [] then []
    else if Last(events).Broadcast? && HasRoom(Exec(Before(events)).value, id)
    then GotIn(Before(events), id) + [Last(events).message]
    else GotIn(Before(events), id)
  }

  /** A client from its registration until it is unregistered or a broadcast finds 256 waiting. */
  predicate IsClient<T>(events: seq<Event<T>>, id: Id)
    requires Exec(events).Some?
  {
    events != [] &&
    var e := Last(events);
    || (e.Register? && e.id == id)
    || (&& IsClient(Before(events), id) && !(e.Unregister? && e.id == id)
        && !(e.Broadcast? && !HasRoom(Exec(Before(events)).value, id)))
  }

  function Receipts<T>(events: seq<Event<T>>, id: Id): nat {
    if events == [] then 0
    else Receipts(Before(events), id) + if Last(events).Receive? && Last(events).id == id then 1 else 0
  }

  lemma ExecBefore<T>(events: seq<Event<T>>)
    requires events != [] && Exec(events).Some?
    ensures Exec(Before(events)).Some? && Possible(Exec(Before(events)).value, Last(events))
    ensures Exec(events).value == Step(Exec(Before(events)).value, Last(events))
  {
  }

  /** What each step does to one client, in full. */
  lemma ClientStep<T(!new)>(f: Fan<T>, e: Event<T>, id: Id)
    requires Invariant(f) && Possible(f, e)
    ensures var g := Step(f, e);
            && (id in g.members <==> match e
                                     case Register(i) => i == id || id in f.members
                                     case Unregister(i) => i != id && id in f.members
                                     case Broadcast(_) => HasRoom(f, id)
                                     case Receive(_) => id in f.members)
            && (id in g.channels <==> id in f.channels || (e.Register? && e.id == id))
            && g.handled == (if e.Broadcast? then f.handled + [e.message] else f.handled)
            && (id in f.channels ==>
                  var (c, d) := (f.channels[id], g.channels[id]);
                  match e
                  case Register(i) => d == c
                  case Unregister(i) =>
                    d == if i == id && id in f.members then c.(closed := true, left := Some(|f.handled|)) else c
                  case Broadcast(x) =>
                    d == if HasRoom(f, id) then c.(buffer := c.buffer + [x])
                         else if id in f.members then c.(closed := true, left := Some(|f.handled|)) else c
                  case Receive(i) =>
                    d == if i == id then c.(buffer := c.buffer[1..], taken := c.taken + [c.buffer[0]]) else c)
            && (id !in f.channels && id in g.channels ==>
                  g.channels[id] == Channel([], false, [], Some(|f.handled|), None, 0))
  {
    hide Tracks;
    if e.Broadcast? && id in f.channels {
      EvictedInFull(f, e.message, CLIENT_CAPACITY, id);
    }
  }

  /** In every run a client is removed exactly when it unregisters or a broadcast finds 256
      messages waiting for it, and what it was sent are exactly the broadcasts until then. */
  lemma {:induction false} EvictedOnlyWhenFull<T(!new)>(events: seq<Event<T>>, id: Id)
    requires Exec(events).Some?
    ensures var f := Exec(events).value;
            && (id in f.members <==> IsClient(events, id))
            && (id in f.channels ==>
                  f.channels[id].Delivered() == GotIn(events, id) && |f.channels[id].taken| == Receipts(events, id))
            && (id !in f.channels ==> GotIn(events, id) == [] && Receipts(events, id) == 0)
    decreases |events|
  {
    if events != [] {
      ExecBefore(events);
      EvictedOnlyWhenFull(Before(events), id);
      EveryRunKeeps(Before(events));
      var f, e := Exec(Before(events)).value, Last(events);
      ClientStep(f, e, id);
      hide Exec, Step, Sound, Running;
      if id in f.channels {
        var c := f.channels[id];
        AppendAssoc(c.taken, c.buffer, if e.Broadcast? then [e.message] else []);
        if e.Receive? && e.id == id {
          HeadAndTail(c.buffer, []);
          AppendAssoc(c.taken, [c.buffer[0]], c.buffer[1..]);
        }
      }
    }
  }

  class Hub<T(0)> {
    var clients: set<Id>
    var channels: map<Id, Channel<T>>
    var panicked: bool
    var handledCount: nat
    ghost var handled: seq<T>

    ghost function State(): Fan<T>
      reads this
    {
      Fan(clients, channels, handled, panicked)
    }

    ghost predicate Valid()
      reads this
    {
      clients <= channels.Keys && handledCount == |handled|
    }

    constructor ()
      ensures Valid() && State() == Start()
    {
      clients, channels, panicked, handledCount, handled := {}, map[], false, 0, [];
    }

    method HandleRegister(id: Id)
      requires Valid() && Possible(State(), Register(id))
      modifies this
      ensures Valid() && State() == Step(old(State()), Register(id))
    {
      channels := channels[id := NewChannel()];
      clients := clients + {id};
      channels := channels[id := channels[id].(joined := Some(handledCount))];
    }

    method HandleUnregister(id: Id)
      requires Valid() && Possible(State(), Unregister(id))
      modifies this
      ensures Valid() && State() == Step(old(State()), Unregister(id))
    {
      if id in clients {
        clients := clients - {id};
        panicked := panicked || channels[id].closed;
        channels := channels[id := channels[id].(closed := true, left := Some(handledCount))];
      }
    }

    method HandleBroadcast(message: T)
      requires Valid() && Possible(State(), Broadcast(message))
      modifies this
      ensures Valid() && State() == Step(old(State()), Broadcast(message))
    {
      clients, channels, panicked :=
        OfferOrEvictAll(clients, channels, message, CLIENT_CAPACITY, handledCount, handled);
      handled, handledCount := handled + [message], handledCount + 1;
    }

    method ClientReceive(id: Id) returns (message: T)
      requires Valid() && Possible(State(), Receive(id))
      modifies this`channels
      ensures Valid() && State() == Step(old(State()), Receive(id))
      ensures message == old(channels)[id].buffer[0]
    {
      var c := channels[id];
      message := c.buffer[0];
      channels := channels[id := c.(buffer := c.buffer[1..], taken := c.taken + [message])];
    }
  }
}
