/**
 The MK2 receiver's synchronisation: how the frame locker finds the frame
 boundaries in a byte stream, when it locks, what it hands on and when it lets go.
 */
module Mk2Frames {
  import opened Bytes
  import VeBus

  const INFO_HEADER: byte := 0x20
  const FRAME_HEADER: byte := 0xFF

  predicate IsHeader(b: byte) {
    b == FRAME_HEADER || b == INFO_HEADER
  }

  /** Length byte, header, data and checksum, as the device and the driver both send them. */
  ghost predicate WellFormed(f: seq<byte>) {
    |f| >= 2 && f[0] == |f| - 2 && IsHeader(f[1]) && ChecksumOk(f)
  }

  ghost predicate AllWellFormed(frames: seq<seq<byte>>) {
    frames == [] || (WellFormed(frames[0]) && AllWellFormed(frames[1..]))
  }

  /** The locker's memory between two rounds of its loop: `previous` is its last length byte. */
  datatype Reader = Reader(locked: bool, previous: byte)

  datatype Event =
    | Quiet
    | Locked
    | Failed(errors: nat)          // errors noted for reads that ran out of input
    | Handed(frame: seq<byte>)     // a whole frame, length byte first, with a good checksum
    | Rejected(frame: seq<byte>)   // a whole frame with a bad checksum

  datatype Round = Round(reader: Reader, rest: seq<byte>, event: Event)

  /** One round of the loop on the bytes still to come. */
  function NextRound(r: Reader, input: seq<byte>): (round: Round)
    ensures input != [] ==> |round.rest| < |input|
  {
    if r.locked then
      if input == [] then Round(Reader(false, 0), [], Failed(2))
      else
        var l: int := input[0];
        if |input| < l + 2 then Round(Reader(false, l), [], Failed(1))
        else
          var frame := input[..l + 2];
          if Sum(frame) % 256 == 0
          then Round(Reader(true, l), input[l + 2..], Handed(frame))
          else Round(Reader(false, l), input[l + 2..], Rejected(frame))
    else if input == [] then Round(Reader(false, 0), [], Failed(1))
    else
      var t := input[0];
      if !IsHeader(t) then Round(Reader(false, t), input[1..], Quiet)
      else if |input| < r.previous + 1 then Round(Reader(false, t), [], Failed(1))
      else if (r.previous + Sum(input[..r.previous + 1])) % 256 == 0
      then Round(Reader(true, t), input[r.previous + 1..], Locked)
      else Round(Reader(false, t), input[r.previous + 1..], Quiet)
  }

  datatype Session = Session(reader: Reader, handed: seq<seq<byte>>)

  /** The rounds until all of the input has been read. */
  function Receive(r: Reader, input: seq<byte>): Session
    decreases |input|
  {
    if input == [] then Session(r, [])
    else
      var round := NextRound(r, input);
      var more := Receive(round.reader, round.rest);
      if round.event.Handed? then Session(more.reader, [round.event.frame] + more.handed) else more
  }

  /** A locked receiver hands on a well-formed frame and stays locked. */
  lemma LockedTakesFrame(r: Reader, f: seq<byte>, tail: seq<byte>)
    requires r.locked && WellFormed(f)
    ensures NextRound(r, f + tail) == Round(Reader(true, f[0]), tail, Handed(f))
  {
    assert (f + tail)[..f[0] + 2] == f && (f + tail)[f[0] + 2..] == tail;
  }

  /** The length byte remembered after receiving `frames`. */
  function Remembered(previous: byte, frames: seq<seq<byte>>): byte
    decreases frames
  {
    if frames == [] then previous
    else Remembered(if frames[0] == [] then previous else frames[0][0], frames[1..])
  }

  /** ... and so, in order and each exactly once, any number of them. */
  lemma {:induction false} LockedTakesFrames(r: Reader, frames: seq<seq<byte>>, tail: seq<byte>)
    requires r.locked && AllWellFormed(frames)
    ensures var after := Receive(Reader(true, Remembered(r.previous, frames)), tail);
            Receive(r, Flatten(frames) + tail) == Session(after.reader, frames + after.handed)
    decreases |frames|
  {
    var after := Receive(Reader(true, Remembered(r.previous, frames)), tail);
    if frames == [] {
      AppendNothing(tail);
      AppendNothing(after.handed);
    } else {
      var f, more := frames[0], frames[1..];
      var rest := Flatten(more) + tail;
      FlattenHead(frames, tail);
      HeadAndTail(frames, after.handed);
      ReceiveFrame(r, f, rest);
      LockedTakesFrames(Reader(true, f[0]), more, tail);
      AppendAssoc([f], more, after.handed);
    }
  }

  lemma ReceiveFrame(r: Reader, f: seq<byte>, tail: seq<byte>)
    requires r.locked && WellFormed(f)
    ensures var after := Receive(Reader(true, f[0]), tail);
            Receive(r, f + tail) == Session(after.reader, [f] + after.handed)
  {
    LockedTakesFrame(r, f, tail);
  }

  /** The two rounds in which an unlocked receiver at a frame boundary takes a well-formed
      frame for the lock: its length byte is remembered, then the rest is checked against it. */
  lemma LockingRounds(r: Reader, f: seq<byte>, tail: seq<byte>)
    requires !r.locked && WellFormed(f)
    requires !IsHeader(f[0]) || r.previous == 0
    ensures NextRound(r, f + tail) == Round(Reader(false, f[0]), f[1..] + tail, Quiet)
    ensures NextRound(Reader(false, f[0]), f[1..] + tail) == Round(Reader(true, f[1]), tail, Locked)
  {
    var s := f + tail;
    assert s[1..] == f[1..] + tail;
    if IsHeader(f[0]) {
      assert s[..1] == [f[0]];
      assert Sum([f[0]]) == f[0] + Sum([f[0]][1..]);
    }
    assert f == [f[0]] + f[1..];
    assert (f[1..] + tail)[..f[0] + 1] == f[1..] && (f[1..] + tail)[f[0] + 1..] == tail;
  }

  /** An unlocked receiver at a frame boundary locks on the first well-formed
      frame, whatever length byte it remembers, unless the frame's own length byte looks like a header. */
  lemma LocksOnFrame(r: Reader, f: seq<byte>, tail: seq<byte>)
    requires !r.locked && WellFormed(f)
    requires !IsHeader(f[0]) || r.previous == 0
    ensures Receive(r, f + tail) == Receive(Reader(true, f[1]), tail)
  {
    LockingRounds(r, f, tail);
  }

  /** Synchronised after exactly one frame, then every later frame is handed on exactly once and in order. */
  lemma SynchronisesThenDelivers(r: Reader, first: seq<byte>, frames: seq<seq<byte>>, tail: seq<byte>)
    requires !r.locked && WellFormed(first) && (!IsHeader(first[0]) || r.previous == 0)
    requires AllWellFormed(frames)
    ensures var after := Receive(Reader(true, Remembered(first[1], frames)), tail);
            Receive(r, first + Flatten(frames) + tail) == Session(after.reader, frames + after.handed)
  {
    AppendAssoc(first, Flatten(frames), tail);
    LocksOnFrame(r, first, Flatten(frames) + tail);
    LockedTakesFrames(Reader(true, first[1]), frames, tail);
  }

  /** One combination misses every frame: a frame of length 0x20 is not locked on
      when the receiver remembers 0x21, whatever the frame holds and whatever follows. */
  lemma LengthLikeHeaderIsMissed(r: Reader, f: seq<byte>, tail: seq<byte>)
    requires !r.locked && WellFormed(f) && f[0] == 0x20 && r.previous == 0x21
    ensures Receive(r, f + tail) == Receive(Reader(false, 0x20), tail)
  {
    var s := f + tail;
    assert s[..r.previous + 1] == f && s[r.previous + 1..] == tail;
    assert NextRound(r, s) == Round(Reader(false, 0x20), tail, Quiet);
  }

  /** Every well-formed frame of length byte `l` is locked on by an unlocked receiver
      that remembers `p`, whatever comes behind it. */
  ghost predicate AlwaysLockedOn(l: byte, p: byte) {
    forall f, tail :: WellFormed(f) && f[0] == l ==> LockedOn(p, f, tail)
  }

  ghost predicate LockedOn(p: byte, f: seq<byte>, tail: seq<byte>)
    requires |f| >= 2
  {
    Receive(Reader(false, p), f + tail) == Receive(Reader(true, f[1]), tail)
  }

  predicate NoHeaders(s: seq<byte>) {
    forall k :: 0 <= k < |s| ==> !IsHeader(s[k])
  }

  /** Without a header byte there is nothing to lock on. */
  lemma {:induction false} NoHeadersNoLock(p: byte, s: seq<byte>)
    requires NoHeaders(s)
    ensures !Receive(Reader(false, p), s).reader.locked
    decreases |s|
  {
    if s != [] {
      NoHeadersNoLock(s[0], s[1..]);
    }
  }

  function Zeros(n: nat): (z: seq<byte>)
    ensures |z| == n && forall k :: 0 <= k < n ==> z[k] == 0
  {
    seq(n, _ => 0)
  }

  lemma {:induction false} SumOfZeros(s: seq<byte>)
    requires forall k :: 0 <= k < |s| ==> s[k] == 0
    ensures Sum(s) == 0
  {
    if s != [] {
      SumOfZeros(s[1..]);
    }
  }

  /** A frame of zeros of length byte `l` that a receiver remembering `p` misses. */
  function MissedFrame(l: byte, p: byte): seq<byte>
    requires IsHeader(l)
  {
    VeBus.Sealed([l, MissedHeader(l, p)] + Zeros(l - 1))
  }

  function MissedHeader(l: byte, p: byte): byte {
    if l == FRAME_HEADER && p == 2 then INFO_HEADER else FRAME_HEADER
  }

  lemma SumOfMissed(l: byte, h: byte, n: nat)
    ensures Sum([l, h] + Zeros(n)) == l + h
  {
    var s := [l, h] + Zeros(n);
    assert s[1..][1..] == Zeros(n);
    SumOfZeros(Zeros(n));
    assert Sum(s) == l + Sum(s[1..]) && Sum(s[1..]) == h + Sum(s[1..][1..]);
  }

  lemma MissedFrameIsWellFormed(l: byte, p: byte)
    requires IsHeader(l)
    ensures var f := MissedFrame(l, p);
            && WellFormed(f) && f[0] == l && f[1] == MissedHeader(l, p)
            && |f| == l + 2 && NoHeaders(f[2..])
            && forall n :: 2 <= n <= l + 1 ==> Sum(f[..n]) == l + MissedHeader(l, p)
  {
    var h := MissedHeader(l, p);
    var body := [l, h] + Zeros(l - 1);
    var f := MissedFrame(l, p);
    SumOfMissed(l, h, l - 1);
    assert f == body + [VeBus.Check(body)];
    forall n | 2 <= n <= l + 1
      ensures Sum(f[..n]) == l + h
    {
      assert f[..n] == [l, h] + Zeros(n - 2);
      SumOfMissed(l, h, n - 2);
    }
  }

  lemma NoHeadersFurtherOn(s: seq<byte>, i: nat, j: nat)
    requires i <= j <= |s| && NoHeaders(s[i..])
    ensures NoHeaders(s[j..])
  {
    assert s[j..] == s[i..][j - i..];
  }

  /** What the receiver takes for the whole frame does not add up, and nothing behind it can lock. */
  lemma WrongLengthRound(p: byte, f: seq<byte>)
    requires |f| >= 2 && IsHeader(f[0])
    requires var q: nat := p;
             |f| < q + 1 || ((q + Sum(f[..q + 1])) % 256 != 0 && NoHeaders(f[q + 1..]))
    ensures var round := NextRound(Reader(false, p), f);
            round.reader == Reader(false, f[0]) && !round.event.Handed? && NoHeaders(round.rest)
  {
    hide IsHeader, Sum;
  }

  lemma WrongLengthIsNotLockedOn(p: byte, f: seq<byte>)
    requires WellFormed(f) && IsHeader(f[0])
    requires var q: nat := p;
             |f| < q + 1 || ((q + Sum(f[..q + 1])) % 256 != 0 && NoHeaders(f[q + 1..]))
    ensures !LockedOn(p, f, [])
  {
    hide IsHeader, Sum, NextRound, NoHeaders;
    var round := NextRound(Reader(false, p), f);
    WrongLengthRound(p, f);
    AppendNothing(f);
    assert Receive(Reader(false, p), f) == Receive(round.reader, round.rest);
    NoHeadersNoLock(f[0], round.rest);
  }

  lemma MissedFrameIsMissed(l: byte, p: byte)
    requires IsHeader(l) && p != 0
    ensures !LockedOn(p, MissedFrame(l, p), [])
  {
    var f := MissedFrame(l, p);
    MissedFrameIsWellFormed(l, p);
    hide MissedFrame, LockedOn;
    var q: nat := p;
    if |f| == q + 1 {
      assert f[..q + 1] == f;
    } else if |f| > q + 1 {
      NoHeadersFurtherOn(f, 2, q + 1);
    }
    WrongLengthIsNotLockedOn(p, f);
  }

  /** Exactly when a receiver at a frame boundary can rely on locking: the length byte is
      no header byte, or nothing is remembered. Otherwise there is a frame it misses. */
  lemma LocksOnEveryFrameIff(l: byte, p: byte)
    ensures AlwaysLockedOn(l, p) <==> !IsHeader(l) || p == 0
  {
    if !IsHeader(l) || p == 0 {
      forall f, tail | WellFormed(f) && f[0] == l
        ensures LockedOn(p, f, tail)
      {
        LocksOnFrame(Reader(false, p), f, tail);
      }
    } else {
      MissedFrameIsWellFormed(l, p);
      MissedFrameIsMissed(l, p);
    }
  }

  /** A changed byte other than the length byte is always noticed: the frame is not handed on and
      the lock is given up. */
  lemma ChangedByteIsRejected(r: Reader, f: seq<byte>, k: nat, b: byte, tail: seq<byte>)
    requires r.locked && WellFormed(f) && 1 <= k < |f| && b != f[k]
    ensures NextRound(r, f[k := b] + tail) == Round(Reader(false, f[0]), tail, Rejected(f[k := b]))
  {
    var g := f[k := b];
    OneByteChangeBreaksChecksum(f, k, b);
    assert (g + tail)[..g[0] + 2] == g && (g + tail)[g[0] + 2..] == tail;
  }

  /** One changed byte costs the frame it is in and the next one, on which the
      receiver locks again; nothing wrong is handed on and nothing later is lost. */
  lemma OneChangedByteCostsTwoFrames(r: Reader, f: seq<byte>, k: nat, b: byte, g: seq<byte>, frames: seq<seq<byte>>)
    requires r.locked && WellFormed(f) && 1 <= k < |f| && b != f[k]
    requires WellFormed(g) && !IsHeader(g[0])
    requires AllWellFormed(frames)
    ensures Receive(r, f[k := b] + (g + Flatten(frames))) == Session(Reader(true, Remembered(g[1], frames)), frames)
  {
    ChangedByteIsRejected(r, f, k, b, g + Flatten(frames));
    SynchronisesThenDelivers(Reader(false, f[0]), g, frames, []);
    AppendNothing(g + Flatten(frames));
    AppendNothing(frames);
  }

  // ----- Frames written

  /** The bytes `sendCommand` writes for a command. */
  function CommandFrame(data: seq<byte>): seq<byte> {
    VeBus.Sealed([(|data| + 1) % 256, FRAME_HEADER] + data)
  }

  lemma CommandIsWellFormed(data: seq<byte>)
    ensures WellFormed(CommandFrame(data)) <==> |data| <= 254
  {
    var f := CommandFrame(data);
    assert f[0] == f[..|data| + 2][0] && f[1] == f[..|data| + 2][1];
  }

  /** The two drivers put the same bytes on the wire. */
  lemma DriversAgree(cmd: byte, data: seq<byte>)
    ensures VeBus.FrameOf(cmd, data) == CommandFrame([cmd] + data)
  {
    assert [(|data| + 2) % 256, FRAME_HEADER, cmd] + data
            == [(|[cmd] + data| + 1) % 256, FRAME_HEADER] + ([cmd] + data);
  }
}
