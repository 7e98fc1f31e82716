/**
 Delivery of one stream of messages to many subscribers, each with a bounded
 channel: the part that the core hub, the web socket hub and the legacy hub share.
 Closing a closed channel and sending on a closed channel panic.
 */
module FanOut {
  import opened Bytes

  // ----- Subsequences

  /** The elements of `a` stand in `b` at the places `p`, in the same order. */
  ghost predicate Embeds<T>(a: seq<T>, b: seq<T>, p: seq<nat>) {
    && |p| == |a|
    && (forall i :: 0 <= i < |p| ==> p[i] < |b| && a[i] == b[p[i]])
    && (forall i, j :: 0 <= i < j < |p| ==> p[i] < p[j])
  }

  /** `a` is `b` with some elements left out. */
  ghost predicate Subsequence<T>(a: seq<T>, b: seq<T>) {
    exists p: seq<nat> :: Embeds(a, b, p)
  }

  lemma NothingIsSubsequence<T>(b: seq<T>)
    ensures Subsequence([], b)
  {
    assert Embeds([], b, []);
  }

  lemma SubsequencePush<T>(a: seq<T>, b: seq<T>, x: T)
    requires Subsequence(a, b)
    ensures Subsequence(a + [x], b + [x]) && Subsequence(a, b + [x])
  {
    var p: seq<nat> :| Embeds(a, b, p);
    assert Embeds(a + [x], b + [x], p + [|b|]);
    assert Embeds(a, b + [x], p);
  }

  lemma SubsequenceOfSlice<T>(b: seq<T>, i: nat, j: nat)
    requires i <= j <= |b|
    ensures Subsequence(b[i..j], b)
  {
    assert Embeds(b[i..j], b, seq(j - i, k requires 0 <= k < j - i => i + k));
  }

  lemma SubsequenceTransitive<T>(a: seq<T>, b: seq<T>, c: seq<T>)
    requires Subsequence(a, b) && Subsequence(b, c)
    ensures Subsequence(a, c)
  {
    var p: seq<nat> :| Embeds(a, b, p);
    var q: seq<nat> :| Embeds(b, c, q);
    assert Embeds(a, c, seq(|p|, i requires 0 <= i < |p| => q[p[i]]));
  }

  lemma SubsequenceShorter<T>(a: seq<T>, b: seq<T>)
    requires Subsequence(a, b)
    ensures |a| <= |b| && (|a| == |b| ==> a == b)
  {
    var p: seq<nat> :| Embeds(a, b, p);
    forall i | 0 <= i < |p| ensures i <= p[i] <= |b| - |a| + i {
      PlacesAreApart(a, b, p, 0, i);
      PlacesAreApart(a, b, p, i, |p| - 1);
    }
    assert |a| <= |b| by {
      if |a| > 0 {
        assert p[0] < |b|;
      }
    }
  }

  lemma {:induction false} PlacesAreApart<T>(a: seq<T>, b: seq<T>, p: seq<nat>, i: nat, j: nat)
    requires Embeds(a, b, p) && i <= j < |p|
    ensures p[i] + (j - i) <= p[j] < |b|
    decreases j - i
  {
    if i < j {
      PlacesAreApart(a, b, p, i, j - 1);
    }
  }

  /** One element taken out of the middle. */
  lemma SubsequenceDelete<T>(a: seq<T>, x: T, t: seq<T>, b: seq<T>)
    requires Subsequence(a + [x] + t, b)
    ensures Subsequence(a + t, b)
  {
    assert Embeds(a + t, a + [x] + t, seq(|a| + |t|, i requires 0 <= i < |a| + |t| => if i < |a| then i else i + 1));
    SubsequenceTransitive(a + t, a + [x] + t, b);
  }

  lemma SubsequencePrefix<T>(p: seq<T>, q: seq<T>, b: seq<T>)
    requires Subsequence(p + q, b)
    ensures Subsequence(p, b)
  {
    SubsequenceOfSlice(p + q, 0, |p|);
    assert (p + q)[0..|p|] == p;
    SubsequenceTransitive(p, p + q, b);
  }

  // ----- Channels

  type Id = nat

  /** A subscriber's channel. `taken`, `joined`, `left` and `missed` record its
      history; no step depends on them: what was received from it, how many
      messages had been handled when its registration and its end were handled,
      and how many messages found it full. */
  datatype Channel<T> = Channel(buffer: seq<T>, closed: bool, taken: seq<T>, joined: Option<nat>, left: Option<nat>,
      missed: nat)
  {
    /** Everything delivered: received or waiting in the buffer. */
    function Delivered(): seq<T> {
      taken + buffer
    }
  }

  /** The members of a hub, all channels made so far, the messages handled, and whether the program has panicked. */
  datatype Fan<T> = Fan(members: set<Id>, channels: map<Id, Channel<T>>, handled: seq<T>, panicked: bool)

  function NewChannel<T>(): Channel<T> {
    Channel([], false, [], None, None, 0)
  }

  function Opened<T>(f: Fan<T>, id: Id): Fan<T> {
    f.(channels := f.channels[id := NewChannel()])
  }

  function Joined<T>(f: Fan<T>, id: Id): Fan<T>
    requires id in f.channels
  {
    f.(members := f.members + {id}, channels := f.channels[id := f.channels[id].(joined := Some(|f.handled|))])
  }

  function Closed<T>(f: Fan<T>, id: Id): Fan<T>
    requires id in f.channels
  {
    var c := f.channels[id];
    f.(channels := f.channels[id := c.(closed := true, left := Some(|f.handled|))],
       panicked := f.panicked || c.closed)
  }

  function Left<T>(f: Fan<T>, id: Id): Fan<T>
    requires id in f.channels
  {
    if id in f.members then Closed(f, id).(members := f.members - {id}) else f
  }

  /** A message offered to a channel that drops it when full. */
  function Offered<T>(c: Channel<T>, x: T, capacity: nat): Channel<T> {
    if |c.buffer| < capacity then c.(buffer := c.buffer + [x]) else c.(missed := c.missed + 1)
  }

  function Published<T>(f: Fan<T>, x: T, capacity: nat): Fan<T> {
    Fan(f.members,
        map id | id in f.channels :: if id in f.members then Offered(f.channels[id], x, capacity) else f.channels[id],
        f.handled + [x],
        f.panicked || exists id :: id in f.members && id in f.channels && f.channels[id].closed)
  }

  /** A message offered to a channel that is closed when full. */
  function OfferedOrEvicted<T>(c: Channel<T>, x: T, capacity: nat, handledCount: nat): Channel<T> {
    if |c.buffer| < capacity then c.(buffer := c.buffer + [x]) else c.(closed := true, left := Some(handledCount))
  }

  /** A message offered to all members; those whose channel is full are closed and removed. */
  function PublishedOrEvicted<T>(f: Fan<T>, x: T, capacity: nat): Fan<T> {
    Fan(set id | id in f.members && id in f.channels && |f.channels[id].buffer| < capacity,
        map id | id in f.channels ::
          if id in f.members then OfferedOrEvicted(f.channels[id], x, capacity, |f.handled|) else f.channels[id],
        f.handled + [x],
        f.panicked || exists id :: id in f.members && id in f.channels && f.channels[id].closed)
  }

  function AllClosed<T>(f: Fan<T>): Fan<T> {
    f.(channels := map id | id in f.channels ::
         if id in f.members then f.channels[id].(closed := true, left := Some(|f.handled|)) else f.channels[id],
       panicked := f.panicked || exists id :: id in f.members && id in f.channels && f.channels[id].closed)
  }

  function Received<T>(f: Fan<T>, id: Id): Fan<T>
    requires id in f.channels && f.channels[id].buffer != []
  {
    var c := f.channels[id];
    f.(channels := f.channels[id := c.(buffer := c.buffer[1..], taken := c.taken + [c.buffer[0]])])
  }

  // ----- The invariant

  /** Up to where the messages handled concern the channel. */
  function End<T>(c: Channel<T>, handled: seq<T>): nat {
    if c.left.Some? then c.left.value else |handled|
  }

  /** A channel that is not registered yet is untouched. A registered one got, in
      order, messages handled from its registration to its end, and as many are missing as found it full. */
  ghost predicate Tracks<T>(c: Channel<T>, handled: seq<T>, capacity: nat) {
    && |c.buffer| <= capacity
    && (c.joined.None? ==> c == NewChannel())
    && (c.joined.Some? ==>
          && c.joined.value <= End(c, handled) <= |handled|
          && Subsequence(c.Delivered(), handled[c.joined.value..End(c, handled)])
          && |c.Delivered()| + c.missed == End(c, handled) - c.joined.value)
  }

  ghost predicate Sound<T>(f: Fan<T>, capacity: nat) {
    && !f.panicked
    && f.members <= f.channels.Keys
    && (forall id :: id in f.channels ==> Tracks(f.channels[id], f.handled, capacity))
    && (forall id :: id in f.channels && id !in f.members && f.channels[id].joined.Some? ==>
        f.channels[id].closed && f.channels[id].left.Some?)
  }

  /** While the hub runs, exactly the members' channels are registered and open. */
  ghost predicate Running<T>(f: Fan<T>) {
    forall id :: id in f.members && id in f.channels ==>
      f.channels[id].joined.Some? && !f.channels[id].closed && f.channels[id].left.None?
  }

  lemma OpenedSound<T>(f: Fan<T>, id: Id, capacity: nat)
    requires Sound(f, capacity) && id !in f.channels
    ensures Sound(Opened(f, id), capacity) && (Running(f) ==> Running(Opened(f, id)))
  {
  }

  lemma JoinedSound<T>(f: Fan<T>, id: Id, capacity: nat)
    requires Sound(f, capacity) && Running(f) && id in f.channels && f.channels[id].joined.None?
    ensures Sound(Joined(f, id), capacity) && Running(Joined(f, id))
  {
    hide Tracks;
    JoinedTracks(f.channels[id], f.handled, capacity);
  }

  lemma JoinedTracks<T>(c: Channel<T>, handled: seq<T>, capacity: nat)
    requires Tracks(c, handled, capacity) && c.joined.None?
    ensures Tracks(c.(joined := Some(|handled|)), handled, capacity) && !c.closed && c.left.None?
  {
    NothingIsSubsequence(handled[|handled|..|handled|]);
  }

  lemma LeftSound<T>(f: Fan<T>, id: Id, capacity: nat)
    requires Sound(f, capacity) && Running(f) && id in f.channels
    ensures Sound(Left(f, id), capacity) && Running(Left(f, id))
  {
  }

  lemma AllClosedSound<T>(f: Fan<T>, capacity: nat)
    requires Sound(f, capacity) && Running(f)
    ensures Sound(AllClosed(f), capacity)
    ensures forall id :: id in f.members ==> AllClosed(f).channels[id].closed && AllClosed(f).channels[id].left.Some?
  {
  }

  lemma ReceivedSound<T>(f: Fan<T>, id: Id, capacity: nat)
    requires Sound(f, capacity) && id in f.channels && f.channels[id].buffer != []
    ensures Sound(Received(f, id), capacity) && (Running(f) ==> Running(Received(f, id)))
  {
    var c := f.channels[id];
    HeadAndTail(c.buffer, []);
    AppendAssoc(c.taken, [c.buffer[0]], c.buffer[1..]);
    assert Received(f, id).channels[id].Delivered() == c.Delivered();
  }

  lemma WindowGrows<T>(s: seq<T>, x: T, i: nat, j: nat)
    requires i <= j <= |s|
    ensures (s + [x])[i..j] == s[i..j]
    ensures j == |s| ==> (s + [x])[i..|s| + 1] == s[i..j] + [x]
  {
  }

  /** A message handled: a member's window grows by it, and the message is delivered or counted as missed. */
  lemma TracksNext<T>(c: Channel<T>, handled: seq<T>, x: T, capacity: nat)
    requires Tracks(c, handled, capacity)
    ensures c.left.Some? || c.joined.None? ==> Tracks(c, handled + [x], capacity)
    ensures c.left.None? && c.joined.Some? ==> Tracks(Offered(c, x, capacity), handled + [x], capacity)
  {
    if c.joined.Some? {
      var j, e := c.joined.value, End(c, handled);
      WindowGrows(handled, x, j, e);
      if c.left.None? {
        SubsequencePush(c.Delivered(), handled[j..e], x);
        AppendAssoc(c.taken, c.buffer, [x]);
      }
    }
  }

  /** What handling a message does to each channel: a member's buffer with room gets it behind what is
      there, a full one stays and counts it as missed, and the channels of others stay as they are. */
  lemma PublishedInFull<T>(f: Fan<T>, x: T, capacity: nat, id: Id)
    requires id in f.channels
    ensures var (g, c) := (Published(f, x, capacity), f.channels[id]);
            && id in g.channels && g.members == f.members && g.handled == f.handled + [x]
            && (id in f.members && |c.buffer| < capacity ==> g.channels[id] == c.(buffer := c.buffer + [x]))
            && (id in f.members && |c.buffer| >= capacity ==> g.channels[id] == c.(missed := c.missed + 1))
            && (id !in f.members ==> g.channels[id] == c)
  {
  }

  /** The same where a full channel is closed and its client removed. */
  lemma EvictedInFull<T>(f: Fan<T>, x: T, capacity: nat, id: Id)
    requires id in f.channels
    ensures var (g, c) := (PublishedOrEvicted(f, x, capacity), f.channels[id]);
            && id in g.channels && g.handled == f.handled + [x]
            && (id in g.members <==> id in f.members && |c.buffer| < capacity)
            && (id in f.members && |c.buffer| < capacity ==> g.channels[id] == c.(buffer := c.buffer + [x]))
            && (id in f.members && |c.buffer| >= capacity ==>
                  g.channels[id] == c.(closed := true, left := Some(|f.handled|)))
            && (id !in f.members ==> g.channels[id] == c)
  {
  }

  /** Using a closed channel is what panics: closing it again, by whichever step, or sending on it. */
  lemma MisusePanics<T>(f: Fan<T>, x: T, capacity: nat, id: Id)
    requires id in f.members && id in f.channels && f.channels[id].closed
    ensures Left(f, id).panicked && AllClosed(f).panicked
    ensures Published(f, x, capacity).panicked && PublishedOrEvicted(f, x, capacity).panicked
  {
  }

  lemma PublishedKeepsNames<T>(f: Fan<T>, x: T, capacity: nat)
    ensures Published(f, x, capacity).channels.Keys == f.channels.Keys
  {
  }

  lemma PublishedSound<T>(f: Fan<T>, x: T, capacity: nat)
    requires Sound(f, capacity) && Running(f)
    ensures Sound(Published(f, x, capacity), capacity) && Running(Published(f, x, capacity))
  {
    forall id | id in f.channels ensures Tracks(Published(f, x, capacity).channels[id], f.handled + [x], capacity) {
      TracksNext(f.channels[id], f.handled, x, capacity);
    }
  }

  lemma EvictedSound<T>(f: Fan<T>, x: T, capacity: nat)
    requires Sound(f, capacity) && Running(f)
    ensures Sound(PublishedOrEvicted(f, x, capacity), capacity) && Running(PublishedOrEvicted(f, x, capacity))
  {
    forall id | id in f.channels
      ensures Tracks(PublishedOrEvicted(f, x, capacity).channels[id], f.handled + [x], capacity)
    {
      var c := f.channels[id];
      TracksNext(c, f.handled, x, capacity);
      if id in f.members && |c.buffer| >= capacity {
        WindowGrows(f.handled, x, c.joined.value, |f.handled|);
      }
    }
  }

  /** A channel that never was full has every message of its window. */
  lemma NothingMissed<T>(c: Channel<T>, handled: seq<T>, capacity: nat)
    requires Tracks(c, handled, capacity) && c.joined.Some? && c.missed == 0
    ensures c.Delivered() == handled[c.joined.value..End(c, handled)]
  {
    SubsequenceShorter(c.Delivered(), handled[c.joined.value..End(c, handled)]);
  }

  /** What a channel delivered is a subsequence of all messages handled. */
  lemma DeliveredInOrder<T>(c: Channel<T>, handled: seq<T>, capacity: nat)
    requires Tracks(c, handled, capacity)
    ensures Subsequence(c.Delivered(), handled) && Subsequence(c.taken, handled)
  {
    if c.joined.Some? {
      var j, e := c.joined.value, End(c, handled);
      SubsequenceOfSlice(handled, j, e);
      SubsequenceTransitive(c.Delivered(), handled[j..e], handled);
    } else {
      NothingIsSubsequence(handled);
      assert c.Delivered() == [];
    }
    SubsequencePrefix(c.taken, c.buffer, handled);
  }

  // ----- The loops over the members, in whatever order a map is walked

  // ----- What a channel got, told by what was shown to it

  /** Of the messages `shown` while it was a member the channel got `got`, the other `full` ones found it full, and
      `receipts` were taken from it; they are those handled between its registration and its end. */
  ghost predicate Agrees<T>(c: Channel<T>, handled: seq<T>, got: seq<T>, full: nat, shown: seq<T>, receipts: nat) {
    && |got| + full == |shown| && Subsequence(got, shown)
    && c.Delivered() == got && c.missed == full && |c.taken| == receipts
    && (c.joined.None? ==> shown == [])
    && (c.joined.Some? ==>
          && c.joined.value <= End(c, handled) <= |handled|
          && shown == handled[c.joined.value..End(c, handled)])
  }

  lemma NewAgrees<T>(handled: seq<T>)
    ensures Agrees(Channel([], false, [], None, None, 0), handled, [], 0, [], 0)
  {
    NothingIsSubsequence<T>([]);
  }

  /** A message handled: a member gets it or finds itself full; any other channel is not concerned. */
  lemma AgreesHandled<T>(c: Channel<T>, handled: seq<T>, got: seq<T>, full: nat, shown: seq<T>, receipts: nat, x: T)
    requires Agrees(c, handled, got, full, shown, receipts)
    ensures c.joined.Some? && c.left.None? ==>
              && Agrees(c.(buffer := c.buffer + [x]), handled + [x], got + [x], full, shown + [x], receipts)
              && Agrees(c.(missed := c.missed + 1), handled + [x], got, full + 1, shown + [x], receipts)
    ensures c.joined.None? || c.left.Some? ==> Agrees(c, handled + [x], got, full, shown, receipts)
  {
    SubsequencePush(got, shown, x);
    AppendAssoc(c.taken, c.buffer, [x]);
    if c.joined.Some? {
      WindowGrows(handled, x, c.joined.value, End(c, handled));
    }
    hide Subsequence;
  }

  lemma AgreesReceived<T>(c: Channel<T>, handled: seq<T>, got: seq<T>, full: nat, shown: seq<T>, receipts: nat)
    requires Agrees(c, handled, got, full, shown, receipts) && c.buffer != []
    ensures var d := c.(buffer := c.buffer[1..], taken := c.taken + [c.buffer[0]]);
            Agrees(d, handled, got, full, shown, receipts + 1)
  {
    hide Subsequence;
    HeadAndTail(c.buffer, []);
    AppendAssoc(c.taken, [c.buffer[0]], c.buffer[1..]);
  }

  lemma AgreesJoined<T>(c: Channel<T>, handled: seq<T>, got: seq<T>, full: nat, shown: seq<T>, receipts: nat)
    requires Agrees(c, handled, got, full, shown, receipts) && c.joined.None? && c.left.None?
    ensures Agrees(c.(joined := Some(|handled|)), handled, got, full, shown, receipts)
  {
    hide Subsequence;
  }

  lemma AgreesLeft<T>(c: Channel<T>, handled: seq<T>, got: seq<T>, full: nat, shown: seq<T>, receipts: nat)
    requires Agrees(c, handled, got, full, shown, receipts) && c.joined.Some? && c.left.None?
    ensures Agrees(c.(closed := true, left := Some(|handled|)), handled, got, full, shown, receipts)
  {
    hide Subsequence;
  }

  /** A channel that never was found full got all that was shown to it. */
  lemma GotAllShown<T>(c: Channel<T>, handled: seq<T>, got: seq<T>, shown: seq<T>, receipts: nat)
    requires Agrees(c, handled, got, 0, shown, receipts)
    ensures c.Delivered() == shown
  {
    SubsequenceShorter(got, shown);
  }

  method OfferAll<T>(members: set<Id>, channels: map<Id, Channel<T>>, x: T, capacity: nat, ghost handled: seq<T>)
    returns (after: map<Id, Channel<T>>, panic: bool)
    requires members <= channels.Keys
    ensures Fan(members, after, handled + [x], panic) == Published(Fan(members, channels, handled, false), x, capacity)
  {
    hide Published;
    after, panic := channels, false;
    var todo := members;
    while todo != {}
      invariant todo <= members && after.Keys == channels.Keys
      invariant forall id :: id in channels ==>
                  after[id] == if id in members - todo then Offered(channels[id], x, capacity) else channels[id]
      invariant panic == exists id :: id in members - todo && channels[id].closed
      decreases |todo|
    {
      var id :| id in todo;
      todo := todo - {id};
      if after[id].closed {
        panic := true;
      }
      if |after[id].buffer| < capacity {
        after := after[id := after[id].(buffer := after[id].buffer + [x])];
      } else {
        after := after[id := after[id].(missed := after[id].missed + 1)];
      }
    }
    OfferIsComplete(members, channels, x, capacity, handled, after, panic);
  }

  lemma OfferIsComplete<T>(members: set<Id>, channels: map<Id, Channel<T>>, x: T, capacity: nat, handled: seq<T>,
                           after: map<Id, Channel<T>>, panic: bool)
    requires members <= channels.Keys && after.Keys == channels.Keys
    requires forall id :: id in channels ==>
            after[id] == if id in members then Offered(channels[id], x, capacity) else channels[id]
    requires panic == exists id :: id in members && channels[id].closed
    ensures Fan(members, after, handled + [x], panic) == Published(Fan(members, channels, handled, false), x, capacity)
  {
    hide Offered;
    assert after == Published(Fan(members, channels, handled, false), x, capacity).channels;
  }

  method OfferOrEvictAll<T>(members: set<Id>, channels: map<Id, Channel<T>>, x: T, capacity: nat, handledCount: nat,
      ghost handled: seq<T>)
    returns (remaining: set<Id>, after: map<Id, Channel<T>>, panic: bool)
    requires members <= channels.Keys && handledCount == |handled|
    ensures Fan(remaining, after, handled + [x], panic)
            == PublishedOrEvicted(Fan(members, channels, handled, false), x, capacity)
  {
    hide PublishedOrEvicted;
    remaining, after, panic := members, channels, false;
    var todo := members;
    while todo != {}
      invariant todo <= remaining <= members && after.Keys == channels.Keys
      invariant forall id :: id in remaining <==> id in members && (id in todo || |channels[id].buffer| < capacity)
      invariant forall id :: id in channels ==>
                  after[id] == if id in members - todo then OfferedOrEvicted(channels[id], x, capacity, handledCount)
                               else channels[id]
      invariant panic == exists id :: id in members - todo && channels[id].closed
      decreases |todo|
    {
      var id :| id in todo;
      todo := todo - {id};
      if after[id].closed {
        panic := true;
      }
      if |after[id].buffer| < capacity {
        after := after[id := after[id].(buffer := after[id].buffer + [x])];
      } else {
        after := after[id := after[id].(closed := true, left := Some(handledCount))];
        remaining := remaining - {id};
      }
    }
    EvictionIsComplete(members, channels, x, capacity, handled, remaining, after, panic);
  }

  lemma EvictionIsComplete<T>(members: set<Id>, channels: map<Id, Channel<T>>, x: T, capacity: nat, handled: seq<T>,
                              remaining: set<Id>, after: map<Id, Channel<T>>, panic: bool)
    requires members <= channels.Keys && after.Keys == channels.Keys
    requires forall id :: id in remaining <==> id in members && |channels[id].buffer| < capacity
    requires forall id :: id in channels ==>
            after[id] == if id in members then OfferedOrEvicted(channels[id], x, capacity, |handled|) else channels[id]
    requires panic == exists id :: id in members && channels[id].closed
    ensures Fan(remaining, after, handled + [x], panic)
            == PublishedOrEvicted(Fan(members, channels, handled, false), x, capacity)
  {
    var f := PublishedOrEvicted(Fan(members, channels, handled, false), x, capacity);
    assert after == f.channels && remaining == f.members;
  }

  method CloseAll<T>(members: set<Id>, channels: map<Id, Channel<T>>, handledCount: nat, ghost handled: seq<T>)
    returns (after: map<Id, Channel<T>>, panic: bool)
    requires members <= channels.Keys && handledCount == |handled|
    ensures Fan(members, after, handled, panic) == AllClosed(Fan(members, channels, handled, false))
  {
    after, panic := channels, false;
    var todo := members;
    while todo != {}
      invariant todo <= members && after.Keys == channels.Keys
      invariant forall id :: id in channels ==>
                  after[id] == if id in members - todo then channels[id].(closed := true, left := Some(|handled|))
                               else channels[id]
      invariant panic == exists id :: id in members - todo && channels[id].closed
      decreases |todo|
    {
      var id :| id in todo;
      todo := todo - {id};
      if after[id].closed {
        panic := true;
      }
      after := after[id := after[id].(closed := true, left := Some(handledCount))];
    }
  }
}
