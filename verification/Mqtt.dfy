/**
 The MQTT packet builders, and a reader of MQTT 3.1.1 control packets that gets
 back what went in.
 */
module Mqtt {
  import opened Bytes

  // ----- Remaining length (section 2.2.3 of MQTT 3.1.1)

  const MAX_LENGTH := 268_435_455

  function LengthBytes(n: nat): seq<byte> {
    if n < 128 then [n] else [n % 128 + 128] + LengthBytes(n / 128)
  }

  datatype Length = Length(value: nat, next: nat)

  /** Seven bits a byte, the lowest first; the eighth bit says that more follow. */
  function ReadLength(s: seq<byte>, i: nat, most: nat): Option<Length>
    decreases most
  {
    if i >= |s| || most == 0 then None
    else if s[i] < 128 then Some(Length(s[i], i + 1))
    else
      var higher := ReadLength(s, i + 1, most - 1);
      if higher.None? then None else Some(Length(s[i] - 128 + 128 * higher.value.value, higher.value.next))
  }

  method EncodeRemainingLength(length: nat) returns (encoded: seq<byte>)
    ensures encoded == LengthBytes(length)
  {
    encoded := [];
    var rest := length;
    while true
      invariant encoded + LengthBytes(rest) == LengthBytes(length)
      decreases rest
    {
      ghost var before, whole := encoded, LengthBytes(rest);
      var b := rest % 128;
      var more := rest / 128 > 0;
      if more {
        b := b + 128;
      }
      encoded := encoded + [b];
      rest := rest / 128;
      if !more {
        assert whole == [b];
        return;
      }
      AppendAssoc(before, [b], LengthBytes(rest));
    }
  }

  function Power128(k: nat): nat {
    if k == 0 then 1 else 128 * Power128(k - 1)
  }

  /** The number of bytes grows exactly with the powers of 128. */
  lemma {:induction false} LengthOfLength(n: nat, k: nat)
    requires k >= 1
    ensures |LengthBytes(n)| <= k <==> n < Power128(k)
  {
    if n >= 128 {
      assert |LengthBytes(n)| == 1 + |LengthBytes(n / 128)| && |LengthBytes(n / 128)| >= 1;
      if k > 1 {
        LengthOfLength(n / 128, k - 1);
        assert n / 128 < Power128(k - 1) <==> n < 128 * Power128(k - 1);
      } else {
        assert Power128(1) == 128 * Power128(0);
      }
    } else {
      PowerAtLeast(k);
    }
  }

  lemma {:induction false} PowerAtLeast(k: nat)
    requires k >= 1
    ensures Power128(k) >= 128
  {
    if k > 1 {
      PowerAtLeast(k - 1);
    } else {
      assert Power128(1) == 128 * Power128(0);
    }
  }

  /** The length read where it was written, if and only if it fits in the bytes allowed. */
  lemma {:induction false} LengthReadsBack(n: nat, s: seq<byte>, i: nat, most: nat)
    requires Holds(s, i, LengthBytes(n))
    ensures ReadLength(s, i, most) == if |LengthBytes(n)| <= most then Some(Length(n, i + |LengthBytes(n)|)) else None
    decreases n
  {
    assert s[i] == s[i..i + |LengthBytes(n)|][0];
    if n >= 128 {
      HoldsBoth(s, i, [n % 128 + 128], LengthBytes(n / 128));
      if most > 0 {
        LengthReadsBack(n / 128, s, i + 1, most - 1);
      }
    }
  }

  /** Up to 268,435,455 the length takes at most four bytes and is read back; above, it is refused. */
  lemma LengthRoundTrip(n: nat, rest: seq<byte>)
    ensures ReadLength(LengthBytes(n) + rest, 0, 4) == Some(Length(n, |LengthBytes(n)|)) <==> n <= MAX_LENGTH
    ensures n > MAX_LENGTH ==> ReadLength(LengthBytes(n) + rest, 0, 4) == None
  {
    var s := LengthBytes(n) + rest;
    assert s[0..0 + |LengthBytes(n)|] == LengthBytes(n);
    LengthReadsBack(n, s, 0, 4);
    LengthOfLength(n, 4);
    assert Power128(4) == 128 * (128 * (128 * (128 * Power128(0))));
  }

  /** No shorter sequence of bytes reads as the same length. */
  lemma {:induction false} LengthIsMinimal(s: seq<byte>, i: nat, most: nat)
    requires ReadLength(s, i, most).Some?
    ensures var r := ReadLength(s, i, most).value; |LengthBytes(r.value)| <= r.next - i
    decreases most
  {
    if s[i] >= 128 {
      LengthIsMinimal(s, i + 1, most - 1);
      var higher := ReadLength(s, i + 1, most - 1).value.value;
      var n := s[i] - 128 + 128 * higher;
      if n >= 128 {
        assert n / 128 == higher;
      }
    }
  }

  // ----- Strings (section 1.5.3 of MQTT 3.1.1)

  function StringBytes(x: seq<byte>): seq<byte> {
    [|x| / 256 % 256, |x| % 256] + x
  }

  datatype Text = Text(value: seq<byte>, next: nat)

  function ReadString(s: seq<byte>, i: nat): Option<Text> {
    if i + 2 > |s| then None
    else
      var (high: int, low: int) := (s[i], s[i + 1]);
      var n := 256 * high + low;
      if i + 2 + n > |s| then None else Some(Text(s[i + 2..i + 2 + n], i + 2 + n))
  }

  method EncodeString(x: seq<byte>) returns (b: array<byte>)
    ensures fresh(b) && b[..] == StringBytes(x)
  {
    b := new byte[2 + |x|];
    b[0] := |x| / 256 % 256;
    b[1] := |x| % 256;
    for i := 0 to |x|
      invariant b[0] == |x| / 256 % 256 && b[1] == |x| % 256
      invariant forall k :: 0 <= k < i ==> b[2 + k] == x[k]
    {
      b[2 + i] := x[i];
    }
  }

  lemma SixteenBits(n: nat)
    ensures 256 * (n / 256 % 256) + n % 256 == n % 65536
  {
  }

  lemma StringReadsBack(x: seq<byte>, s: seq<byte>, i: nat)
    requires Holds(s, i, StringBytes(x))
    ensures ReadString(s, i) == Some(Text(x[..|x| % 65536], i + 2 + |x| % 65536))
  {
    var head: seq<byte> := [|x| / 256 % 256, |x| % 256];
    HoldsBoth(s, i, head, x);
    var (high: int, low: int) := (s[i], s[i + 1]);
    assert s[i] == s[i..i + 2][0] && s[i + 1] == s[i..i + 2][1];
    var n := |x| % 65536;
    SixteenBits(|x|);
    HoldsPart(s, i + 2, x, n);
  }

  /** A string of at most 65,535 bytes is read back; a longer one is cut at its length modulo 65,536. */
  lemma StringRoundTrip(x: seq<byte>, s: seq<byte>, i: nat)
    requires Holds(s, i, StringBytes(x))
    ensures ReadString(s, i).Some?
    ensures ReadString(s, i) == Some(Text(x, i + 2 + |x|)) <==> |x| <= 65535
    ensures ReadString(s, i).value.value == x <==> |x| <= 65535
  {
    StringReadsBack(x, s, i);
    if |x| <= 65535 {
      assert x[..|x|] == x;
    }
  }

  // ----- Packets

  /** What the publisher is configured with, and what it publishes. */
  datatype Message =
    | Hello(clientID: seq<byte>, username: seq<byte>, password: seq<byte>)
    | Post(topic: seq<byte>, payload: seq<byte>)

  /** What a server reads: absent credentials are absent. */
  datatype Packet =
    | Connect(clientID: seq<byte>, username: Option<seq<byte>>, password: Option<seq<byte>>)
    | Publish(topic: seq<byte>, payload: seq<byte>)

  const PROTOCOL: seq<byte> := [0, 4, 'M' as int, 'Q' as int, 'T' as int, 'T' as int, 4]
  const KEEP_ALIVE: seq<byte> := [0, 60]

  function Flags(m: Message): byte
    requires m.Hello?
  {
    2 + (if m.username != [] then 128 + (if m.password != [] then 64 else 0) else 0)
  }

  function Credentials(m: Message): seq<byte>
    requires m.Hello?
  {
    if m.username == [] then []
    else StringBytes(m.username) + if m.password == [] then [] else StringBytes(m.password)
  }

  function BodyOf(m: Message): seq<byte> {
    match m
    case Hello(id, _, _) => PROTOCOL + ([Flags(m)] + (KEEP_ALIVE + (StringBytes(id) + Credentials(m))))
    case Post(topic, payload) => StringBytes(topic) + payload
  }

  function TypeOf(m: Message): byte {
    if m.Hello? then 0x10 else 0x30
  }

  function PacketBytes(m: Message): seq<byte> {
    [TypeOf(m)] + (LengthBytes(|BodyOf(m)|) + BodyOf(m))
  }

  /** What the other side should get: a password goes only with a user name. */
  function Meant(m: Message): Packet {
    match m
    case Hello(id, user, pass) =>
      Connect(id, if user == [] then None else Some(user), if user == [] || pass == [] then None else Some(pass))
    case Post(topic, payload) => Publish(topic, payload)
  }

  ghost predicate Fits(m: Message) {
    && |BodyOf(m)| <= MAX_LENGTH
    && match m
       case Hello(id, user, pass) => |id| <= 65535 && |user| <= 65535 && (user == [] || |pass| <= 65535)
       case Post(topic, _) => |topic| <= 65535
  }

  // ----- Reading packets (sections 3.1 and 3.3 of MQTT 3.1.1)

  function ReadConnect(b: seq<byte>): Option<Packet> {
    if |b| < 10 || b[..7] != PROTOCOL || b[7] % 64 != 2 || (b[7] / 64 == 1) then None
    else
      var id := ReadString(b, 10);
      if id.None? then None
      else if b[7] < 128 then if id.value.next == |b| then Some(Connect(id.value.value, None, None)) else None
      else ReadCredentials(b, id.value, b[7] >= 192)
  }

  function ReadCredentials(b: seq<byte>, id: Text, hasPassword: bool): Option<Packet> {
    var user := ReadString(b, id.next);
    if user.None? then None
    else if !hasPassword then
      if user.value.next == |b| then Some(Connect(id.value, Some(user.value.value), None)) else None
    else
      var pass := ReadString(b, user.value.next);
      if pass.Some? && pass.value.next == |b|
      then Some(Connect(id.value, Some(user.value.value), Some(pass.value.value)))
      else None
  }

  function ReadPublish(b: seq<byte>): Option<Packet> {
    var topic := ReadString(b, 0);
    if topic.None? || topic.value.next > |b| then None else Some(Publish(topic.value.value, b[topic.value.next..]))
  }

  datatype OnePacket = OnePacket(packet: Packet, next: nat)

  function ReadPacket(s: seq<byte>, i: nat): (r: Option<OnePacket>)
    ensures r.Some? ==> i < r.value.next <= |s|
  {
    if i >= |s| then None
    else
      var len := ReadLength(s, i + 1, 4);
      if len.None? || len.value.next < i + 1 || len.value.next + len.value.value > |s| then None
      else
        var end := len.value.next + len.value.value;
        var b := s[len.value.next..end];
        var p := if s[i] == 0x10 then ReadConnect(b) else if s[i] == 0x30 then ReadPublish(b) else None;
        if p.None? then None else Some(OnePacket(p.value, end))
  }

  /** All packets of a stream, or `None` when it is not one of whole packets. */
  function ReadStream(s: seq<byte>, i: nat): Option<seq<Packet>>
    decreases |s| - i
  {
    if i >= |s| then Some([])
    else
      var one := ReadPacket(s, i);
      if one.None? then None
      else
        var others := ReadStream(s, one.value.next);
        if others.None? then None else Some([one.value.packet] + others.value)
  }

  lemma PublishReadsBack(m: Message)
    requires m.Post?
    ensures ReadPublish(BodyOf(m)) == Some(Meant(m)) <==> |m.topic| <= 65535
  {
    var b := BodyOf(m);
    var n := |StringBytes(m.topic)|;
    assert b[0..0 + n] == StringBytes(m.topic);
    StringRoundTrip(m.topic, b, 0);
    assert b[n..] == m.payload;
  }

  /** Where the parts of a CONNECT body stand. */
  lemma ConnectParts(m: Message)
    requires m.Hello?
    ensures var b := BodyOf(m);
            && |b| >= 10 && b[..7] == PROTOCOL && b[7] == Flags(m)
            && Holds(b, 10, StringBytes(m.clientID)) && Holds(b, 12 + |m.clientID|, Credentials(m))
            && |b| == 12 + |m.clientID| + |Credentials(m)|
  {
    var b := BodyOf(m);
    var tail := StringBytes(m.clientID) + Credentials(m);
    assert b[0..0 + |b|] == b;
    HoldsBoth(b, 0, PROTOCOL, [Flags(m)] + (KEEP_ALIVE + tail));
    HoldsBoth(b, 7, [Flags(m)], KEEP_ALIVE + tail);
    HoldsBoth(b, 8, KEEP_ALIVE, tail);
    HoldsBoth(b, 10, StringBytes(m.clientID), Credentials(m));
    assert b[7..7 + 1][0] == b[7];
  }

  lemma LengthOfString(x: seq<byte>)
    ensures |StringBytes(x)| == 2 + |x|
  {
  }

  lemma CredentialsReadBack(m: Message, b: seq<byte>, id: Text)
    requires m.Hello? && m.username != [] && id == Text(m.clientID, id.next)
    requires Holds(b, id.next, Credentials(m)) && |b| == id.next + |Credentials(m)|
    ensures ReadCredentials(b, id, m.password != []) == Some(Meant(m))
            <==> |m.username| <= 65535 && |m.password| <= 65535
  {
    hide ReadString, Holds, StringBytes;
    LengthOfString(m.username);
    LengthOfString(m.password);
    var password := if m.password == [] then [] else StringBytes(m.password);
    HoldsBoth(b, id.next, StringBytes(m.username), password);
    StringRoundTrip(m.username, b, id.next);
    if |m.username| <= 65535 && m.password != [] {
      StringRoundTrip(m.password, b, id.next + 2 + |m.username|);
    }
  }

  lemma ConnectReadsBack(m: Message)
    requires m.Hello?
    ensures ReadConnect(BodyOf(m)) == Some(Meant(m)) <==>
              |m.clientID| <= 65535 && |m.username| <= 65535 && (m.username == [] || |m.password| <= 65535)
  {
    hide BodyOf, StringBytes, ReadString;
    var b := BodyOf(m);
    ConnectParts(m);
    StringRoundTrip(m.clientID, b, 10);
    if |m.clientID| <= 65535 && m.username != [] {
      CredentialsReadBack(m, b, Text(m.clientID, 12 + |m.clientID|));
    }
  }

  /** A packet is read back, wherever it stands, if and only if its strings and its body fit
      their length fields; otherwise nothing that is read there is the same packet. */
  lemma PacketReadsBack(m: Message, s: seq<byte>, i: nat)
    requires Holds(s, i, PacketBytes(m))
    ensures ReadPacket(s, i) == Some(OnePacket(Meant(m), i + |PacketBytes(m)|)) <==> Fits(m)
    ensures ReadPacket(s, i).Some? && ReadPacket(s, i).value.packet == Meant(m) ==> Fits(m)
  {
    hide BodyOf, LengthBytes, ReadLength, ReadConnect, ReadPublish, Meant;
    var b := BodyOf(m);
    HoldsBoth(s, i, [TypeOf(m)], LengthBytes(|b|) + b);
    HoldsBoth(s, i + 1, LengthBytes(|b|), b);
    assert s[i] == s[i..i + 1][0];
    LengthReadsBack(|b|, s, i + 1, 4);
    LengthOfLength(|b|, 4);
    assert Power128(4) == MAX_LENGTH + 1 by {
      assert Power128(4) == 128 * (128 * (128 * (128 * Power128(0))));
    }
    if m.Hello? {
      ConnectReadsBack(m);
    } else {
      PublishReadsBack(m);
    }
  }

  function StreamOf(ms: seq<Message>): seq<byte> {
    if ms == [] then [] else PacketBytes(ms[0]) + StreamOf(ms[1..])
  }

  function AllMeant(ms: seq<Message>): (ps: seq<Packet>) {
    if ms == [] then [] else [Meant(ms[0])] + AllMeant(ms[1..])
  }

  ghost predicate AllFit(ms: seq<Message>) {
    forall k :: 0 <= k < |ms| ==> Fits(ms[k])
  }

  lemma AllFitTail(ms: seq<Message>)
    requires ms != []
    ensures AllFit(ms) <==> Fits(ms[0]) && AllFit(ms[1..])
  {
    assert forall k :: 0 < k < |ms| ==> ms[k] == ms[1..][k - 1];
  }

  /** Any run of packets, one after the other on the wire, is read as exactly the same
      client, credentials, topics and payloads, in order, if and only if each of them fits. */
  lemma {:induction false} StreamReadsBack(ms: seq<Message>, s: seq<byte>, i: nat)
    requires Holds(s, i, StreamOf(ms)) && i + |StreamOf(ms)| == |s|
    ensures ReadStream(s, i) == Some(AllMeant(ms)) <==> AllFit(ms)
    decreases |ms|
  {
    hide PacketBytes, Fits, ReadPacket, Meant, AllFit;
    if ms == [] {
      EmptyFits();
    } else {
      var rest := StreamOf(ms[1..]);
      HoldsBoth(s, i, PacketBytes(ms[0]), rest);
      PacketReadsBack(ms[0], s, i);
      PacketIsNotEmpty(ms[0]);
      AllFitTail(ms);
      if ReadPacket(s, i).Some? {
        var one := ReadPacket(s, i).value;
        var others := ReadStream(s, one.next);
        if others.Some? {
          ConsIs(one.packet, others.value, AllMeant(ms));
        }
      }
      if Fits(ms[0]) {
        StreamReadsBack(ms[1..], s, i + |PacketBytes(ms[0])|);
      }
    }
  }

  lemma EmptyFits()
    ensures AllFit([])
  {
  }

  lemma PacketIsNotEmpty(m: Message)
    ensures |PacketBytes(m)| > 0
  {
  }

  /** A CONNECT packet byte by byte: type 0x10 and the length; the protocol MQTT at level 4; clean session, with the two
      bits for user name and password, which goes only with a user name; 60 seconds; then each
      string behind its length, the higher byte first (sections 3.1.2 and 3.1.3 of MQTT 3.1.1). */
  lemma ConnectInBytes(id: seq<byte>, user: seq<byte>, pass: seq<byte>)
    ensures var flags := if user == [] then 0x02 else if pass == [] then 0x82 else 0xC2;
            var body := [0, 4, 77, 81, 84, 84, 4] + ([flags] + ([0, 60] + (
                          ([|id| / 256 % 256, |id| % 256] + id)
                          + if user == [] then []
                            else ([|user| / 256 % 256, |user| % 256] + user)
                                 + if pass == [] then [] else [|pass| / 256 % 256, |pass| % 256] + pass)));
            PacketBytes(Hello(id, user, pass)) == [0x10] + (LengthBytes(|body|) + body)
  {
    hide LengthBytes;
  }

  /** A PUBLISH packet byte by byte (section 3.3 of MQTT 3.1.1): type 0x30, no flags, no packet identifier. */
  lemma PublishInBytes(topic: seq<byte>, payload: seq<byte>)
    ensures var body := ([|topic| / 256 % 256, |topic| % 256] + topic) + payload;
            PacketBytes(Post(topic, payload)) == [0x30] + (LengthBytes(|body|) + body)
  {
    hide LengthBytes;
  }

  /** The examples of table 2.4 in section 2.2.3 of MQTT 3.1.1: where one length byte becomes two, three and four. */
  lemma LengthExamples()
    ensures LengthBytes(127) == [0x7F] && LengthBytes(128) == [0x80, 0x01]
    ensures LengthBytes(16_383) == [0xFF, 0x7F] && LengthBytes(16_384) == [0x80, 0x80, 0x01]
    ensures LengthBytes(2_097_151) == [0xFF, 0xFF, 0x7F] && LengthBytes(2_097_152) == [0x80, 0x80, 0x80, 0x01]
  {
    assert LengthBytes(16_384 / 128) == [0x80, 0x01];
    assert LengthBytes(2_097_152 / 128) == [0x80, 0x80, 0x01];
    assert LengthBytes(2_097_151 / 128) == [0xFF, 0x7F];
  }

  // ----- The builders

  method BuildConnectPacket(clientID: seq<byte>, username: seq<byte>, password: seq<byte>) returns (pkt: seq<byte>)
    ensures pkt == PacketBytes(Hello(clientID, username, password))
  {
    ghost var m := Hello(clientID, username, password);
    var varHeader := new byte[10] [0, 4, 'M' as int, 'Q' as int, 'T' as int, 'T' as int, 4, 2, 0, 60];
    if username != [] {
      varHeader[7] := varHeader[7] + 0x80;
      if password != [] {
        varHeader[7] := varHeader[7] + 0x40;
      }
    }
    assert varHeader[..] == PROTOCOL + ([Flags(m)] + KEEP_ALIVE);
    hide StringBytes, LengthBytes, Flags;
    var payload := BuildPayload(clientID, username, password);
    var remainingLen := varHeader.Length + |payload|;
    var length := EncodeRemainingLength(remainingLen);
    pkt := [0x10] + length;
    pkt := pkt + varHeader[..];
    pkt := pkt + payload;
    ConnectBody(m, payload);
    ThreeParts(0x10, length, varHeader[..], payload);
  }

  method BuildPayload(clientID: seq<byte>, username: seq<byte>, password: seq<byte>) returns (payload: seq<byte>)
    ensures payload == StringBytes(clientID) + Credentials(Hello(clientID, username, password))
  {
    hide StringBytes;
    var part := EncodeString(clientID);
    payload := part[..];
    AppendNothing(payload);
    if username != [] {
      part := EncodeString(username);
      AppendNothing(part[..]);
      payload := payload + part[..];
      if password != [] {
        AppendAssoc(StringBytes(clientID), StringBytes(username), StringBytes(password));
        part := EncodeString(password);
        payload := payload + part[..];
      }
    }
  }

  lemma ConnectBody(m: Message, payload: seq<byte>)
    requires m.Hello? && payload == StringBytes(m.clientID) + Credentials(m)
    ensures PROTOCOL + ([Flags(m)] + KEEP_ALIVE) + payload == BodyOf(m)
  {
    hide StringBytes, Credentials, Flags;
    AppendAssoc(PROTOCOL, [Flags(m)] + KEEP_ALIVE, payload);
    AppendAssoc([Flags(m)], KEEP_ALIVE, payload);
  }

  lemma ThreeParts(first: byte, length: seq<byte>, header: seq<byte>, payload: seq<byte>)
    ensures [first] + length + header + payload == [first] + (length + (header + payload))
  {
    AppendAssoc([first] + length, header, payload);
    AppendAssoc([first], length, header + payload);
  }

  method BuildPublishPacket(topic: seq<byte>, payload: seq<byte>) returns (pkt: seq<byte>)
    ensures pkt == PacketBytes(Post(topic, payload))
  {
    hide StringBytes, LengthBytes;
    var varHeader := EncodeString(topic);
    var remainingLen := varHeader.Length + |payload|;
    var length := EncodeRemainingLength(remainingLen);
    pkt := [0x30] + length;
    pkt := pkt + varHeader[..];
    pkt := pkt + payload;
    ThreeParts(0x30, length, varHeader[..], payload);
  }
}
