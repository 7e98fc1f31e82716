/**
 What `VEBus.receiveFrame` should do, as a parse of a whole byte stream at once,
 and the laws of that parse: it does not depend on how the stream is cut into
 reads, it loses no byte, and it is the only way to read the stream as garbage
 and frames.
 */
module VeBusParse {
  import opened Bytes

  const MARKER_COMMAND: byte := 0xFF
  const MARKER_INFO: byte := 0x20
  const MIN_LENGTH: byte := 2
  const MAX_LENGTH: byte := 32

  /** A length byte followed by a marker: where a frame may start. */
  predicate StartsAt(s: seq<byte>, i: nat) {
    i + 1 < |s| && MIN_LENGTH <= s[i] <= MAX_LENGTH && (s[i + 1] == MARKER_COMMAND || s[i + 1] == MARKER_INFO)
  }

  ghost predicate NoStart(s: seq<byte>) {
    forall i: nat :: !StartsAt(s, i)
  }

  predicate IsFrame(f: seq<byte>) {
    StartsAt(f, 0) && |f| == f[0] + 2
  }

  /** The first frame start at or after `i`. */
  function FirstStart(s: seq<byte>, i: nat): (r: Option<nat>)
    ensures r.Some? ==> i <= r.value && StartsAt(s, r.value)
    ensures forall j: nat :: i <= j && StartsAt(s, j) ==> r.Some? && r.value <= j
    decreases |s| - i
  {
    if i >= |s| then None
    else if StartsAt(s, i) then Some(i)
    else FirstStart(s, i + 1)
  }

  /** `skipped` are the complete frames that did not match, `rest` the bytes not consumed. */
  datatype Outcome =
    | Got(skipped: seq<seq<byte>>, frame: seq<byte>, rest: seq<byte>)
    | Waiting(skipped: seq<seq<byte>>, rest: seq<byte>)
  {
    function After(before: seq<seq<byte>>): Outcome {
      this.(skipped := before + skipped)
    }

    /** The complete frames read, in order. */
    function Frames(): seq<seq<byte>> {
      if Got? then skipped + [frame] else skipped
    }
  }

  /** One pass over the buffer: drop what cannot begin a frame, then take the frame if it is complete. */
  datatype Pass = Kept(rest: seq<byte>) | Frame(f: seq<byte>, rest: seq<byte>)

  function Next(s: seq<byte>): (p: Pass)
    ensures p.Frame? ==> |p.rest| < |s|
  {
    if |s| < 2 then Kept(s)
    else match FirstStart(s, 0)
      case None => Kept(s[|s| - 1..])
      case Some(i) =>
        var t := s[i..];
        var n := t[0] + 2;
        if |t| < n then Kept(t) else Frame(t[..n], t[n..])
  }

  function Parse(header: seq<byte>, s: seq<byte>): Outcome
    decreases |s|
  {
    match Next(s)
    case Kept(rest) => Waiting([], rest)
    case Frame(f, rest) =>
      if header <= f then Got([], f, rest) else Parse(header, rest).After([f])
  }

  lemma AfterAfter(o: Outcome, a: seq<seq<byte>>, b: seq<seq<byte>>)
    ensures o.After(b).After(a) == o.After(a + b)
  {
    assert a + (b + o.skipped) == (a + b) + o.skipped;
  }

  lemma AfterNothing(o: Outcome)
    ensures o.After([]) == o
  {
    assert [] + o.skipped == o.skipped;
  }

  /** The first start of `s` is where it is said to be, and nowhere before. */
  lemma FirstStartIs(s: seq<byte>, i: nat)
    requires StartsAt(s, i) && forall j: nat :: j < i ==> !StartsAt(s, j)
    ensures FirstStart(s, 0) == Some(i)
  {
  }

  lemma StartsShift(s: seq<byte>, k: nat, j: nat)
    requires k <= j && k <= |s|
    ensures StartsAt(s, j) <==> StartsAt(s[k..], j - k)
  {
  }

  /** One pass, by the place where a frame may start. */
  lemma NextAtStart(s: seq<byte>)
    requires |s| >= 2
    ensures match FirstStart(s, 0)
            case None => Next(s) == Kept(s[|s| - 1..])
            case Some(i) =>
              && i < |s|
              && var u := s[i..];
                 Next(s) == if |u| < u[0] + 2 then Kept(u) else Frame(u[..u[0] + 2], u[u[0] + 2..])
  {
  }

  lemma NextOfFew(s: seq<byte>)
    requires |s| < 2
    ensures Next(s) == Kept(s)
  {
  }


  /** Cutting off bytes in front of which no frame starts moves the first start. */
  lemma FirstStartShift(s: seq<byte>, k: nat)
    requires k <= |s| && forall j: nat :: j < k ==> !StartsAt(s, j)
    ensures match FirstStart(s, 0)
            case None => FirstStart(s[k..], 0) == None
            case Some(i) => k <= i && FirstStart(s[k..], 0) == Some(i - k)
  {
    var (r, q) := (FirstStart(s, 0), FirstStart(s[k..], 0));
    hide FirstStart;
    if r.Some? {
      StartsShift(s, k, r.value);
    }
    if q.Some? {
      StartsShift(s, k, q.value + k);
    }
  }

  /** Bytes in front of which no frame starts are dropped, except the last byte of the stream. */
  lemma NextFrom(s: seq<byte>, k: nat)
    requires k < |s| && forall j: nat :: j < k ==> !StartsAt(s, j)
    ensures Next(s) == Next(s[k..])
  {
    hide Next, FirstStart;
    var t := s[k..];
    if |s| < 2 {
      assert k == 0 && t == s;
    } else {
      NextAtStart(s);
      FirstStartShift(s, k);
      if |t| < 2 {
        NextOfFew(t);
        NoStartInOne(t);
        assert t == s[|s| - 1..];
      } else {
        NextAtStart(t);
        match FirstStart(s, 0)
        case None => assert s[|s| - 1..] == t[|t| - 1..];
        case Some(i) => assert s[i..] == t[i - k..];
      }
    }
  }

  lemma NoStartInOne(s: seq<byte>)
    requires |s| < 2
    ensures FirstStart(s, 0) == None
  {
  }

  /** Garbage with no frame start in it, up to and including the length byte of a frame, is dropped. */
  lemma NextDropsGarbage(gap: seq<byte>, t: seq<byte>)
    requires StartsAt(t, 0) && NoStart(gap + t[..1])
    ensures Next(gap + t) == Next(t)
  {
    var s := gap + t;
    forall j: nat | j < |gap| ensures !StartsAt(s, j) {
      assert !StartsAt(gap + t[..1], j);
    }
    NextFrom(s, |gap|);
    assert s[|gap|..] == t;
  }

  /** One complete frame at the head of the stream is the next frame. */
  lemma NextIsFrame(f: seq<byte>, tail: seq<byte>)
    requires IsFrame(f)
    ensures Next(f + tail) == Frame(f, tail)
  {
    var s := f + tail;
    assert StartsAt(s, 0);
    FirstStartIs(s, 0);
    assert s[0..] == s && s[..f[0] + 2] == f && s[f[0] + 2..] == tail;
  }

  /** More bytes do not change a complete frame; otherwise only the bytes kept matter. */
  lemma NextAppend(a: seq<byte>, b: seq<byte>)
    ensures match Next(a)
            case Frame(f, rest) => Next(a + b) == Frame(f, rest + b)
            case Kept(rest) => Next(a + b) == Next(rest + b)
  {
    hide Next, FirstStart;
    if |a| < 2 {
      NextOfFew(a);
    } else {
      var k := Dropped(a);
      forall j: nat | j < k ensures !StartsAt(a + b, j) {
        assert !StartsAt(a, j);
      }
      NextFrom(a, k);
      NextFrom(a + b, k);
      assert (a + b)[k..] == a[k..] + b;
      if k + 1 == |a| {
        NextOfFew(a[k..]);
      } else {
        NextAppendAtStart(a[k..], b);
      }
    }
  }

  /** How many bytes in front of the first start are dropped; the last byte of the stream never is. */
  lemma Dropped(s: seq<byte>) returns (k: nat)
    requires s != []
    ensures k < |s| && (k + 1 == |s| || StartsAt(s, k)) && forall j: nat :: j < k ==> !StartsAt(s, j)
  {
    k := match FirstStart(s, 0) case None => |s| - 1 case Some(i) => i;
  }

  lemma NextAppendAtStart(t: seq<byte>, b: seq<byte>)
    requires StartsAt(t, 0)
    ensures match Next(t)
            case Frame(f, rest) => Next(t + b) == Frame(f, rest + b)
            case Kept(rest) => rest == t
  {
    FirstStartIs(t, 0);
    assert t[0..] == t;
    var n := t[0] + 2;
    if |t| >= n {
      NextIsFrame(t[..n], t[n..] + b);
      assert t[..n] + (t[n..] + b) == t + b;
    }
  }

  /** What is kept: at most one byte, or one unfinished frame. It is kept again. */
  lemma KeptIsStable(s: seq<byte>)
    ensures match Next(s)
            case Kept(rest) =>
              && (|rest| < 2 || (StartsAt(rest, 0) && |rest| < rest[0] + 2))
              && Next(rest) == Kept(rest)
            case Frame(f, _) => IsFrame(f)
  {
    if |s| >= 2 && FirstStart(s, 0).Some? {
      NextFrom(s, FirstStart(s, 0).value);
    }
  }

  /** More bytes behind the stream: a frame already found stays found, and an
      unfinished parse goes on from the bytes it has kept. */
  lemma {:induction false} ParseAppend(header: seq<byte>, a: seq<byte>, b: seq<byte>)
    ensures match Parse(header, a)
            case Got(sk, f, rest) => Parse(header, a + b) == Got(sk, f, rest + b)
            case Waiting(sk, rest) => Parse(header, a + b) == Parse(header, rest + b).After(sk)
    decreases |a|
  {
    NextAppend(a, b);
    match Next(a)
    case Kept(rest) =>
      AfterNothing(Parse(header, rest + b));
    case Frame(f, rest) =>
      if !(header <= f) {
        ParseAppend(header, rest, b);
        var o := Parse(header, rest);
        if o.Waiting? {
          AfterAfter(Parse(header, o.rest + b), [f], o.skipped);
        }
      }
  }

  /** The bytes kept by an unfinished parse: at most one byte, or one unfinished frame. Parsing them
      again gives nothing new. */
  lemma {:induction false} RestIsStable(header: seq<byte>, s: seq<byte>)
    ensures var o := Parse(header, s);
            o.Waiting? ==>
              && (|o.rest| < 2 || (StartsAt(o.rest, 0) && |o.rest| < o.rest[0] + 2))
              && Parse(header, o.rest) == Waiting([], o.rest)
    decreases |s|
  {
    KeptIsStable(s);
    if Next(s).Frame? && !(header <= Next(s).f) {
      RestIsStable(header, Next(s).rest);
    }
  }

  /** A complete frame behind start-free garbage is the answer or is skipped. */
  lemma ParseGapAndFrame(header: seq<byte>, gap: seq<byte>, f: seq<byte>, tail: seq<byte>)
    requires IsFrame(f) && NoStart(gap + f[..1])
    ensures Parse(header, gap + f + tail) ==
            if header <= f then Got([], f, tail) else Parse(header, tail).After([f])
  {
    assert gap + f + tail == gap + (f + tail);
    assert (f + tail)[..1] == f[..1];
    NextDropsGarbage(gap, f + tail);
    NextIsFrame(f, tail);
  }

  /** Garbage and frames in turn. */
  function Weave(gaps: seq<seq<byte>>, frames: seq<seq<byte>>): seq<byte>
    requires |gaps| == |frames|
  {
    if gaps == [] then [] else gaps[0] + frames[0] + Weave(gaps[1..], frames[1..])
  }

  /** A way to read a stream: every gap is free of frame starts up to the length
      byte of the frame behind it, and every frame is complete. */
  ghost predicate Reads(gaps: seq<seq<byte>>, frames: seq<seq<byte>>) {
    && |gaps| == |frames|
    && forall k :: 0 <= k < |frames| ==> IsFrame(frames[k]) && NoStart(gaps[k] + frames[k][..1])
  }

  /** Any way to read a stream is the parse: its frames are skipped in order
      until the first that matches the header, which is the one returned. */
  lemma {:induction false} ReadingIsUnique(header: seq<byte>, gaps: seq<seq<byte>>, frames: seq<seq<byte>>,
      tail: seq<byte>)
    requires Reads(gaps, frames)
    requires forall k :: 0 <= k < |frames| ==> !(header <= frames[k])
    ensures Parse(header, Weave(gaps, frames) + tail) == Parse(header, tail).After(frames)
    decreases |frames|
  {
    if frames == [] {
      AppendNothing(tail);
      AfterNothing(Parse(header, tail));
    } else {
      var more := Weave(gaps[1..], frames[1..]) + tail;
      AppendAssoc(gaps[0] + frames[0], Weave(gaps[1..], frames[1..]), tail);
      HeadAndTail(frames, []);
      ParseGapAndFrame(header, gaps[0], frames[0], more);
      ReadingIsUnique(header, gaps[1..], frames[1..], tail);
      AfterAfter(Parse(header, tail), [frames[0]], frames[1..]);
    }
  }

  /** The first matching frame behind any number of gaps and frames that do not match. */
  lemma FirstMatchIsReturned(header: seq<byte>, gaps: seq<seq<byte>>, frames: seq<seq<byte>>, gap: seq<byte>,
      f: seq<byte>, tail: seq<byte>)
    requires Reads(gaps, frames) && IsFrame(f) && NoStart(gap + f[..1])
    requires forall k :: 0 <= k < |frames| ==> !(header <= frames[k])
    requires header <= f
    ensures Parse(header, Weave(gaps, frames) + (gap + f + tail)) == Got(frames, f, tail)
  {
    ReadingIsUnique(header, gaps, frames, gap + f + tail);
    ParseGapAndFrame(header, gap, f, tail);
    assert frames + [] == frames;
  }

  /** The parts a parse divides its stream into. */
  ghost predicate Accounts(header: seq<byte>, s: seq<byte>, gaps: seq<seq<byte>>, last: seq<byte>, o: Outcome) {
    && Reads(gaps, o.Frames())
    && s == Weave(gaps, o.Frames()) + last + o.rest
    && (o.Got? ==> last == [] && header <= o.frame)
    && (o.Waiting? ==> NoStart(last + o.rest[..if o.rest == [] then 0 else 1]))
    && forall k :: 0 <= k < |o.skipped| ==> !(header <= o.skipped[k])
  }

  /** No byte is lost or made up: the frames read, with start-free garbage between
      them, are exactly the stream in front of the bytes kept. */
  lemma {:induction false} ParseLosesNothing(header: seq<byte>, s: seq<byte>)
    returns (gaps: seq<seq<byte>>, last: seq<byte>)
    ensures Accounts(header, s, gaps, last, Parse(header, s))
    decreases |s|
  {
    var gap := NextLosesNothing(s);
    match Next(s)
    case Kept(rest) =>
      gaps, last := [], gap;
      KeptBytesAccount(header, gap, rest);
    case Frame(f, rest) =>
      if header <= f {
        gaps, last := [gap], [];
        OneFrameAccounts(header, gap, f, rest);
      } else {
        var g;
        g, last := ParseLosesNothing(header, rest);
        gaps := [gap] + g;
        MoreFramesAccount(header, gap, f, rest, g, last, Parse(header, rest));
      }
  }

  /** One pass drops start-free garbage and nothing else. */
  lemma NextLosesNothing(s: seq<byte>) returns (gap: seq<byte>)
    ensures match Next(s)
            case Kept(rest) => s == gap + rest && NoStart(gap + rest[..if rest == [] then 0 else 1])
            case Frame(f, rest) => IsFrame(f) && s == gap + f + rest && NoStart(gap + f[..1])
  {
    if |s| < 2 {
      gap := [];
      assert [] + s == s;
    } else if FirstStart(s, 0).None? {
      gap := s[..|s| - 1];
      assert gap + s[|s| - 1..] == s && s[|s| - 1..][..1] == s[|s| - 1..];
    } else {
      var i := FirstStart(s, 0).value;
      gap := s[..i];
      GapBeforeStart(s, i);
      var t := s[i..];
      assert gap + t == s;
      if |t| >= t[0] + 2 {
        assert t[..t[0] + 2][..1] == t[..1];
        assert gap + t[..t[0] + 2] + t[t[0] + 2..] == s;
      }
    }
  }

  lemma KeptBytesAccount(header: seq<byte>, gap: seq<byte>, t: seq<byte>)
    requires NoStart(gap + t[..if t == [] then 0 else 1])
    ensures Accounts(header, gap + t, [], gap, Waiting([], t))
  {
    assert Weave([], []) + gap + t == gap + t;
  }

  lemma GapBeforeStart(s: seq<byte>, i: nat)
    requires FirstStart(s, 0) == Some(i)
    ensures NoStart(s[..i] + s[i..][..1])
  {
    forall j: nat ensures !StartsAt(s[..i] + s[i..][..1], j) {
      if j < i {
        assert !StartsAt(s, j);
      }
    }
  }

  lemma OneFrameAccounts(header: seq<byte>, gap: seq<byte>, f: seq<byte>, tail: seq<byte>)
    requires IsFrame(f) && NoStart(gap + f[..1]) && header <= f
    ensures Accounts(header, gap + f + tail, [gap], [], Got([], f, tail))
  {
    assert [] + [f] == [f];
    assert Weave([gap], [f]) == gap + f + Weave([gap][1..], [f][1..]);
  }

  lemma MoreFramesAccount(header: seq<byte>, gap: seq<byte>, f: seq<byte>, tail: seq<byte>, g: seq<seq<byte>>,
      last: seq<byte>, o: Outcome)
    requires IsFrame(f) && NoStart(gap + f[..1]) && !(header <= f)
    requires Accounts(header, tail, g, last, o)
    ensures Accounts(header, gap + f + tail, [gap] + g, last, o.After([f]))
  {
    hide IsFrame, NoStart, StartsAt;
    var fs := o.After([f]).Frames();
    assert fs == [f] + o.Frames();
    assert fs[1..] == o.Frames() && ([gap] + g)[1..] == g;
    var w := Weave(g, o.Frames());
    assert Weave([gap] + g, fs) == gap + f + w;
    hide Weave;
    AppendAssoc(gap + f, w, last);
    AppendAssoc(gap + f, w + last, o.rest);
  }

  // ----- The same in bytes

  /** The first place from which on a length byte of 2 to 32 stands before 0xFF or 0x20, and no other. */
  lemma FirstStartInBytes(s: seq<byte>)
    ensures match FirstStart(s, 0)
            case None => forall j: nat :: j + 1 < |s| ==> !(2 <= s[j] <= 32 && (s[j + 1] == 0xFF || s[j + 1] == 0x20))
            case Some(i) =>
              && i + 1 < |s| && 2 <= s[i] <= 32 && (s[i + 1] == 0xFF || s[i + 1] == 0x20)
              && forall j: nat :: j < i ==> !(2 <= s[j] <= 32 && (s[j + 1] == 0xFF || s[j + 1] == 0x20))
  {
    var r := FirstStart(s, 0);
    if r.Some? {
      assert StartsAt(s, r.value);
    }
    forall j: nat | j < if r.Some? then r.value else |s| - 1
      ensures !(2 <= s[j] <= 32 && (s[j + 1] == 0xFF || s[j + 1] == 0x20))
    {
      assert !StartsAt(s, j);
    }
  }

  /** The whole parse in bytes: what stands before the first length byte of 2 to 32 with 0xFF or
      0x20 behind it is dropped; from there on as many bytes as the length says, and two more,
      are the frame, which is waited for, returned or skipped. With no such place all but the last byte is dropped. */
  lemma ParseInBytes(header: seq<byte>, s: seq<byte>, i: nat)
    requires i < |s|
    requires forall j: nat :: j < i ==> !(2 <= s[j] <= 32 && (s[j + 1] == 0xFF || s[j + 1] == 0x20))
    ensures i + 1 == |s| ==> Parse(header, s) == Waiting([], s[i..])
    ensures i + 1 < |s| && 2 <= s[i] <= 32 && (s[i + 1] == 0xFF || s[i + 1] == 0x20) ==>
              var end := i + s[i] + 2;
              Parse(header, s) == if end > |s| then Waiting([], s[i..])
                                  else if header <= s[i..end] then Got([], s[i..end], s[end..])
                                  else Parse(header, s[end..]).After([s[i..end]])
  {
    forall j: nat | j < i ensures !StartsAt(s, j) {
      assert !(2 <= s[j] <= 32 && (s[j + 1] == 0xFF || s[j + 1] == 0x20));
    }
    NextFrom(s, i);
    var u := s[i..];
    if i + 1 == |s| {
      NextOfFew(u);
    } else if 2 <= s[i] <= 32 && (s[i + 1] == 0xFF || s[i + 1] == 0x20) {
      FrameAtStart(u);
      assert |s| >= i + s[i] + 2 ==> u[..u[0] + 2] == s[i..i + s[i] + 2] && u[u[0] + 2..] == s[i + s[i] + 2..];
    }
  }

  lemma FrameAtStart(u: seq<byte>)
    requires |u| >= 2 && 2 <= u[0] <= 32 && (u[1] == 0xFF || u[1] == 0x20)
    ensures Next(u) == if |u| < u[0] + 2 then Kept(u) else Frame(u[..u[0] + 2], u[u[0] + 2..])
  {
    NextAtStart(u);
    FirstStartIs(u, 0);
    assert u[0..] == u;
  }

  /** An answer behind an unsolicited info frame: the info frame, which begins with 0x20, is skipped whole. */
  lemma AnswerBehindInfoFrame(info: seq<byte>, answer: seq<byte>)
    requires |info| == 17 && info[0] == 0x0F && info[1] == 0x20
    requires |answer| == 5 && answer[..3] == [0x03, 0xFF, 0x58]
    ensures Parse([0x03, 0xFF, 0x58], info + answer) == Got([info], answer, [])
    ensures Parse([0x0F, 0x20], info + answer) == Got([], info, answer)
  {
    hide Parse;
    var s := info + answer;
    assert s[0..17] == info && s[17..] == answer;
    assert answer[0] == answer[..3][0] && answer[1] == answer[..3][1];
    assert answer[0..5] == answer && answer[5..] == [];
    ParseInBytes([0x03, 0xFF, 0x58], s, 0);
    ParseInBytes([0x0F, 0x20], s, 0);
    ParseInBytes([0x03, 0xFF, 0x58], answer, 0);
    assert [info] + [] == [info];
  }

  /** What is returned begins with the header, so its length is the one the header gives: no
      answer is ever too short. */
  lemma AnswerLength(header: seq<byte>, s: seq<byte>)
    requires header != [] && Parse(header, s).Got?
    ensures |Parse(header, s).frame| - 2 == header[0] && header <= Parse(header, s).frame
  {
    var gaps, last := ParseLosesNothing(header, s);
    var f := Parse(header, s).frame;
    assert Parse(header, s).Frames()[|Parse(header, s).skipped|] == f;
    assert IsFrame(f);
  }
}
