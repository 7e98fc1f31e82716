/**
 The VE.Bus driver: building and receiving frames, finding the ESS assistant in
 the device's RAM, and writing a power setpoint.
 */
module VeBus {
  import opened Bytes
  import opened VeBusParse

  // ----- Frames written

  /** The byte that brings the sum of `body` to 0 modulo 256. */
  function Check(body: seq<byte>): byte {
    (256 - Sum(body) % 256) % 256
  }

  /** `body` with its checksum byte behind it. */
  function Sealed(body: seq<byte>): (f: seq<byte>)
    ensures |f| == |body| + 1 && f[..|body|] == body && ChecksumOk(f)
  {
    SumSnoc(body, Check(body));
    body + [Check(body)]
  }

  lemma SealedIsUnique(f: seq<byte>, body: seq<byte>)
    requires |f| == |body| + 1 && f[..|body|] == body && ChecksumOk(f)
    ensures f == Sealed(body)
  {
    var last := f[|body|];
    assert f == body + [last];
    SumSnoc(body, last);
    assert last == Check(body);
  }

  function FrameOf(cmd: byte, data: seq<byte>): seq<byte> {
    Sealed([(|data| + 2) % 256, MARKER_COMMAND, cmd] + data)
  }

  method BuildFrame(cmd: byte, data: seq<byte>) returns (frame: array<byte>)
    ensures fresh(frame)
    ensures frame[..] == FrameOf(cmd, data)
  {
    var length := |data| + 2;
    frame := new byte[length + 2];
    frame[0] := length % 256;
    frame[1] := 0xFF;
    frame[2] := cmd;
    forall k | 0 <= k < |data| {
      frame[3 + k] := data[k];
    }
    ghost var body := [length % 256, MARKER_COMMAND, cmd] + data;
    assert frame[..length + 1] == body;
    var sum := AddUp(frame);
    frame[frame.Length - 1] := (256 - sum) % 256;
    assert frame[..] == frame[..length + 1] + [frame[length + 1]];
  }

  /** All bytes but the last, added in a byte. */
  method AddUp(frame: array<byte>) returns (sum: nat)
    requires frame.Length > 0
    ensures sum == Sum(frame[..frame.Length - 1]) % 256
  {
    sum := 0;
    for i := 0 to frame.Length - 1
      invariant sum == Sum(frame[..i]) % 256
    {
      SumSnoc(frame[..i], frame[i]);
      assert frame[..i] + [frame[i]] == frame[..i + 1];
      sum := (sum + frame[i]) % 256;
    }
  }

  /** A built frame is one the receiver can read as a frame exactly when it carries at most 30 bytes of data. */
  lemma BuiltIsFrame(cmd: byte, data: seq<byte>)
    ensures IsFrame(FrameOf(cmd, data)) <==> |data| <= 30
  {
    assert FrameOf(cmd, data)[..3] == [(|data| + 2) % 256, MARKER_COMMAND, cmd];
    assert FrameOf(cmd, data)[0] == FrameOf(cmd, data)[..3][0];
    assert FrameOf(cmd, data)[1] == FrameOf(cmd, data)[..3][1];
  }

  /** What one side builds the other side receives, whatever follows and whatever start-free garbage goes before. */
  lemma BuiltFrameIsReceived(header: seq<byte>, gap: seq<byte>, cmd: byte, data: seq<byte>, tail: seq<byte>)
    requires |data| <= 30 && header <= FrameOf(cmd, data)
    requires NoStart(gap + FrameOf(cmd, data)[..1])
    ensures Parse(header, gap + FrameOf(cmd, data) + tail) == Got([], FrameOf(cmd, data), tail)
  {
    BuiltIsFrame(cmd, data);
    ParseGapAndFrame(header, gap, FrameOf(cmd, data), tail);
  }

  // ----- Reads from the port

  /** One call of the port's Read: the bytes it returned and whether it returned an error. */
  datatype Read = Read(data: seq<byte>, failed: bool)

  function Stream(chunks: seq<Read>): seq<byte> {
    Flatten(seq(|chunks|, k requires 0 <= k < |chunks| => chunks[k].data))
  }

  lemma StreamSplit(chunks: seq<Read>, k: nat)
    requires k <= |chunks|
    ensures Stream(chunks) == Stream(chunks[..k]) + Stream(chunks[k..])
  {
    var d := seq(|chunks|, k requires 0 <= k < |chunks| => chunks[k].data);
    assert seq(|chunks[..k]|, i requires 0 <= i < |chunks[..k]| => chunks[..k][i].data) == d[..k];
    assert seq(|chunks[k..]|, i requires 0 <= i < |chunks[k..]| => chunks[k..][i].data) == d[k..];
    assert d == d[..k] + d[k..];
    FlattenAppend(d[..k], d[k..]);
  }

  lemma StreamNext(chunks: seq<Read>, k: nat)
    requires k < |chunks|
    ensures Stream(chunks[..k + 1]) == Stream(chunks[..k]) + chunks[k].data
  {
    StreamSplit(chunks[..k + 1], k);
    assert chunks[..k + 1][..k] == chunks[..k];
    assert chunks[..k + 1][k..] == [chunks[k]];
    assert Stream([chunks[k]]) == chunks[k].data + Flatten(seq(1, i requires 0 <= i < 1 => [chunks[k]][i].data)[1..]);
  }

  /** The answer to `header` in all the bytes read, taken at once. */
  function Reply(header: seq<byte>, chunks: seq<Read>): Option<seq<byte>> {
    var o := Parse(header, Stream(chunks));
    if o.Got? then Some(o.frame) else None
  }

  // ----- The ESS assistant's place in RAM

  const SCAN_HEADER: seq<byte> := [0x07, 0xFF, 0x58]
  const FIRST_RAM_ID := 128
  const SCAN_LIMIT := 8

  predicate IsEssMarker(value: nat) {
    value / 16 == 5
  }

  /** The ids asked for, and the slot found. */
  datatype ScanResult = ScanResult(ids: seq<nat>, slot: Option<nat>)

  /** The RAM value in the frame received, if there is one. */
  function RamValue(rx: Option<seq<byte>>): Option<nat> {
    if rx.None? || |rx.value| < 6 then None else Some(Le16(rx.value[4], rx.value[5]))
  }

  /** The scan from step `n` at `ramId`, given the value read after each request. */
  function Scan(values: seq<Option<nat>>, n: nat, ramId: nat): ScanResult
    decreases |values| - n
  {
    if n >= |values| then ScanResult([], None)
    else if values[n].None? then ScanResult([ramId], None)
    else if IsEssMarker(values[n].value) then ScanResult([ramId], Some(ramId + 1))
    else
      var r := Scan(values, n + 1, ramId + 1 + values[n].value % 16);
      ScanResult([ramId] + r.ids, r.slot)
  }

  /** Behind a header that is not the ESS marker the scan goes on. */
  lemma ScanGoesOn(values: seq<Option<nat>>, n: nat, ramId: nat, value: nat)
    requires n < |values| && values[n] == Some(value) && !IsEssMarker(value)
    ensures Scan(values, n, ramId).ids == [ramId] + Scan(values, n + 1, ramId + 1 + value % 16).ids
    ensures Scan(values, n, ramId).slot == Scan(values, n + 1, ramId + 1 + value % 16).slot
  {
  }

  lemma ScanIsOver(values: seq<Option<nat>>, ramId: nat)
    ensures Scan(values, |values|, ramId) == ScanResult([], None)
  {
  }

  /** The ids already asked for and the scan still to come make up the whole scan. */
  ghost predicate ScannedSoFar(whole: ScanResult, values: seq<Option<nat>>, visited: seq<nat>, n: nat, ramId: nat) {
    whole == ScanResult(visited + Scan(values, n, ramId).ids, Scan(values, n, ramId).slot)
  }

  lemma ScanStep(whole: ScanResult, values: seq<Option<nat>>, visited: seq<nat>, n: nat, ramId: nat)
    requires ScannedSoFar(whole, values, visited, n, ramId) && n < |values|
    ensures values[n].None? ==> whole == ScanResult(visited + [ramId], None)
    ensures values[n].Some? && IsEssMarker(values[n].value) ==> whole == ScanResult(visited + [ramId], Some(ramId + 1))
    ensures values[n].Some? && !IsEssMarker(values[n].value) ==>
              ScannedSoFar(whole, values, visited + [ramId], n + 1, ramId + 1 + values[n].value % 16)
  {
    if values[n].Some? && !IsEssMarker(values[n].value) {
      ScanGoesOn(values, n, ramId, values[n].value);
      var more := Scan(values, n + 1, ramId + 1 + values[n].value % 16).ids;
      AppendAssoc(visited, [ramId], more);
    }
  }

  /** The values the device gives, each read from all that arrives after its request. */
  function Values(answers: seq<seq<Read>>): seq<Option<nat>> {
    seq(|answers|, k requires 0 <= k < |answers| => RamValue(Reply(SCAN_HEADER, answers[k])))
  }

  /** The same values, known one answer at a time. */
  lemma ValuesOneByOne(answers: seq<seq<Read>>) returns (values: seq<Option<nat>>)
    ensures |values| == |answers|
    ensures forall k {:trigger answers[k]} :: 0 <= k < |answers| ==>
            RamValue(Reply(SCAN_HEADER, answers[k])) == values[k]
    ensures Scan(values, 0, FIRST_RAM_ID) == Scan(Values(answers), 0, FIRST_RAM_ID)
  {
    values := Values(answers);
  }

  function ReadRequest(ramId: nat): seq<byte> {
    FrameOf(0x58, [0x30, Low16(ramId) % 256, Low16(ramId) / 256])
  }

  function ReadRequests(ids: seq<nat>): seq<seq<byte>> {
    seq(|ids|, k requires 0 <= k < |ids| => ReadRequest(ids[k]))
  }

  lemma ReadRequestsSnoc(ids: seq<nat>, id: nat)
    ensures ReadRequests(ids + [id]) == ReadRequests(ids) + [ReadRequest(id)]
  {
  }

  /** The `k`-th node of the assistant chain in RAM: each header says how many slots it uses. */
  function Node(ram: nat -> nat, k: nat): nat {
    if k == 0 then FIRST_RAM_ID else Node(ram, k - 1) + 1 + ram(Node(ram, k - 1)) % 16
  }

  ghost predicate NoMarkerBefore(ram: nat -> nat, k: nat) {
    forall j: nat :: j < k ==> !IsEssMarker(ram(Node(ram, j)))
  }

  /** The first `m` values read are those in RAM. */
  ghost predicate Answered(values: seq<Option<nat>>, ram: nat -> nat, m: nat) {
    m <= |values| && forall j: nat :: j < m ==> values[j] == Some(ram(Node(ram, j)))
  }

  lemma {:induction false} NodesIncrease(ram: nat -> nat, j: nat, k: nat)
    requires j <= k
    ensures Node(ram, j) + (k - j) <= Node(ram, k) <= Node(ram, j) + 16 * (k - j)
    decreases k - j
  {
    if j < k {
      NodesIncrease(ram, j, k - 1);
    }
  }

  /** The ids of nodes `n` to `m`, `m` not included. */
  function Nodes(ram: nat -> nat, n: nat, m: nat): seq<nat>
    decreases m - n
  {
    if n >= m then [] else [Node(ram, n)] + Nodes(ram, n + 1, m)
  }

  /** When the device answers with its RAM, the scan returns the slot behind the
      first ESS header of the chain, having asked for the nodes up to it and no
      others; the slot fits in a byte and is not 0. */
  lemma ScanFindsFirstMarker(values: seq<Option<nat>>, ram: nat -> nat, k: nat)
    requires k < SCAN_LIMIT && Answered(values, ram, k + 1)
    requires IsEssMarker(ram(Node(ram, k))) && NoMarkerBefore(ram, k)
    ensures Scan(values, 0, FIRST_RAM_ID) == ScanResult(Nodes(ram, 0, k + 1), Some(Node(ram, k) + 1))
    ensures 129 <= Node(ram, k) + 1 <= 241
  {
    ScanToMarker(values, ram, 0, k);
    NodesIncrease(ram, 0, k);
  }

  lemma {:induction false} ScanToMarker(values: seq<Option<nat>>, ram: nat -> nat, n: nat, k: nat)
    requires n <= k && Answered(values, ram, k + 1)
    requires IsEssMarker(ram(Node(ram, k))) && NoMarkerBefore(ram, k)
    ensures Scan(values, n, Node(ram, n)) == ScanResult(Nodes(ram, n, k + 1), Some(Node(ram, k) + 1))
    decreases k - n
  {
    assert values[n] == Some(ram(Node(ram, n)));
    assert Nodes(ram, n, k + 1) == [Node(ram, n)] + Nodes(ram, n + 1, k + 1);
    if n < k {
      ScanToMarker(values, ram, n + 1, k);
      ScanGoesOn(values, n, Node(ram, n), ram(Node(ram, n)));
    }
  }

  /** When none of the first eight nodes is an ESS header the scan fails, having asked for all eight. */
  lemma ScanFailsWithoutMarker(values: seq<Option<nat>>, ram: nat -> nat)
    requires |values| == SCAN_LIMIT && Answered(values, ram, SCAN_LIMIT) && NoMarkerBefore(ram, SCAN_LIMIT)
    ensures Scan(values, 0, FIRST_RAM_ID) == ScanResult(Nodes(ram, 0, SCAN_LIMIT), None)
  {
    ScanToEnd(values, ram, 0);
  }

  lemma {:induction false} ScanToEnd(values: seq<Option<nat>>, ram: nat -> nat, n: nat)
    requires n <= |values| && Answered(values, ram, |values|) && NoMarkerBefore(ram, |values|)
    ensures Scan(values, n, Node(ram, n)) == ScanResult(Nodes(ram, n, |values|), None)
    decreases |values| - n
  {
    if n < |values| {
      ScanToEnd(values, ram, n + 1);
      ScanGoesOn(values, n, Node(ram, n), ram(Node(ram, n)));
    }
  }

  /** Whatever is read, a slot found lies behind the node it was found at, eight nodes of at most 16 slots in. */
  lemma {:induction false} ScanSlotInRange(values: seq<Option<nat>>, n: nat, ramId: nat)
    requires Scan(values, n, ramId).slot.Some?
    ensures n < |values|
    ensures ramId + 1 <= Scan(values, n, ramId).slot.value <= ramId + 1 + 16 * (|values| - 1 - n)
    decreases |values| - n
  {
    if !IsEssMarker(values[n].value) {
      ScanSlotInRange(values, n + 1, ramId + 1 + values[n].value % 16);
    }
  }

  // ----- Connecting

  const VERSION_HEADER: seq<byte> := [0x07, 0xFF]
  const ADDRESS_HEADER: seq<byte> := [0x04, 0xFF, 0x41]

  /** What can be read after each request of a connection. */
  datatype Dialogue = Dialogue(version: seq<Read>, address: seq<Read>, scan: seq<seq<Read>>)

  /** The slot known afterwards, what was written, and whether the connection succeeded. */
  datatype ConnectResult = ConnectResult(slot: nat, sent: seq<seq<byte>>, ok: bool)

  /** The 32-bit little-endian number in the fourth to seventh byte of the answer. */
  function VersionOf(rx: Option<seq<byte>>): Option<nat> {
    if rx.Some? && |rx.value| >= 7
    then Some(Le16(rx.value[3], rx.value[4]) + 0x1_0000 * Le16(rx.value[5], rx.value[6]))
    else None
  }

  predicate AddressSet(rx: Option<seq<byte>>) {
    rx.Some? && |rx.value| >= 5 && rx.value[4] == 0
  }

  /** A failed connection leaves the slot as it was. */
  function Connecting(slot: nat, d: Dialogue): ConnectResult {
    var version, address := FrameOf(0x56, []), FrameOf(0x41, [0x01, 0x00]);
    if VersionOf(Reply(VERSION_HEADER, d.version)).None? then ConnectResult(slot, [version], false)
    else if !AddressSet(Reply(ADDRESS_HEADER, d.address)) then ConnectResult(slot, [version] + [address], false)
    else
      var r := Scan(Values(d.scan), 0, FIRST_RAM_ID);
      var found := if r.slot.Some? then r.slot.value else slot;
      ConnectResult(found, [version] + [address] + ReadRequests(r.ids), r.slot.Some?)
  }

  /** No slot is known, or it is one the scan can find: it fits in a byte and is not 0. */
  predicate SlotKnown(slot: nat) {
    slot == 0 || 129 <= slot <= 241
  }

  lemma ConnectingKeepsSlotKnown(slot: nat, d: Dialogue)
    requires SlotKnown(slot) && |d.scan| == SCAN_LIMIT
    ensures SlotKnown(Connecting(slot, d).slot)
    ensures Connecting(slot, d).ok ==> 129 <= Connecting(slot, d).slot <= 241
  {
    if Connecting(slot, d).ok {
      ScanSlotInRange(Values(d.scan), 0, FIRST_RAM_ID);
    }
  }

  // ----- The power setpoint

  datatype SetPowerResult = Accepted | NotInitialised | NoAnswer | Refused

  const POWER_HEADER: seq<byte> := [0x03, 0xFF, 0x58]

  /** The command word for `watts`: clamped to the inverter's limit, negated, cut to an int16. */
  function PowerWord(watts: real, maxPower: real): int {
    Signed16(Low16(Truncate(-Clamp(watts, -maxPower, maxPower))))
  }

  function PowerFrame(slot: nat, word: int): seq<byte> {
    FrameOf(0x58, [0x37, 0x02, slot % 256, Low16(word) % 256, Low16(word) / 256])
  }

  /** A power frame read back: the slot it writes and the word it writes there. */
  function DecodePowerFrame(f: seq<byte>): Option<(nat, int)> {
    if |f| == 9 && f[..5] == [7, 0xFF, 0x58, 0x37, 0x02] && Sum(f) % 256 == 0
    then Some((f[5], Signed16(Le16(f[6], f[7]))))
    else None
  }

  lemma PowerFrameCarries(slot: nat, word: int)
    requires 0 < slot < 256 && -0x8000 <= word < 0x8000
    ensures DecodePowerFrame(PowerFrame(slot, word)) == Some((slot, word))
  {
    var lo, hi := Low16(word) % 256, Low16(word) / 256;
    var body: seq<byte> := [7, MARKER_COMMAND, 0x58] + [0x37, 0x02, slot, lo, hi];
    var f := PowerFrame(slot, word);
    assert f == Sealed(body) && |f| == 9;
    assert f[..5] == f[..8][..5] == body[..5];
    assert f[5] == f[..8][5] && f[6] == f[..8][6] && f[7] == f[..8][7];
    assert Le16(lo, hi) == Low16(word);
    Signed16OfLow16(word);
  }

  /** The device reads back the slot and the whole watts of the clamped command,
      negated; nothing is lost in the conversion and the limit holds. */
  lemma PowerFrameDecodes(slot: nat, watts: real, maxPower: real)
    requires 0 < slot < 256 && 0.0 < maxPower <= 32767.0
    ensures var word := -Truncate(Clamp(watts, -maxPower, maxPower));
            && DecodePowerFrame(PowerFrame(slot, PowerWord(watts, maxPower))) == Some((slot, word))
            && -maxPower <= word as real <= maxPower
  {
    var w := Clamp(watts, -maxPower, maxPower);
    assert Truncate(-w) == -Truncate(w);
    var word := PowerWord(watts, maxPower);
    Signed16OfLow16(Truncate(-w));
    assert word == -Truncate(w);
    PowerFrameCarries(slot, word);
  }

  /** How the answer to a power frame is judged: by its fourth byte. */
  function Judged(rx: Option<seq<byte>>): SetPowerResult {
    match rx
    case None => NoAnswer
    case Some(f) => if |f| >= 4 && f[3] == 0x87 then Accepted else Refused
  }

  // ----- The driver in bytes

  lemma SumOfThree(a: nat, b: nat, c: nat)
    requires a < 256 && b < 256 && c < 256
    ensures Sum([a, b, c]) == a + b + c
  {
    assert [a, b, c][1..] == [b, c] && [b, c][1..] == [c] && [c][1..] == [];
    assert Sum([c]) == c + Sum([]) && Sum([b, c]) == b + Sum([c]);
  }

  lemma SumOfFour(a: nat, b: nat, c: nat, d: nat)
    requires a < 256 && b < 256 && c < 256 && d < 256
    ensures Sum([a, b, c, d]) == a + b + c + d
  {
    SumOfThree(b, c, d);
    assert [a, b, c, d][1..] == [b, c, d];
  }

  /** `c` is the checksum byte of `a + b` when the sums say so. */
  lemma SealedBy(a: seq<byte>, b: seq<byte>, c: byte)
    requires (Sum(a) + Sum(b) + c) % 256 == 0
    ensures Sealed(a + b) == a + b + [c]
  {
    hide Sum, Sealed;
    var f := a + b + [c];
    SumAppend(a, b);
    SumSnoc(a + b, c);
    assert f[..|a + b|] == a + b;
    SealedIsUnique(f, a + b);
  }

  /** The two requests of a connection before the scan, byte by byte. */
  lemma ConnectRequestsInBytes()
    ensures FrameOf(0x56, []) == [0x02, 0xFF, 0x56, 0xA9]
    ensures FrameOf(0x41, [0x01, 0x00]) == [0x04, 0xFF, 0x41, 0x01, 0x00, 0xBB]
  {
    SumOfThree(0x02, 0xFF, 0x56);
    SumOfThree(0x04, 0xFF, 0x41);
    SumOfTwo(0x01, 0x00);
    SealedBy([0x02, 0xFF, 0x56], [], 0xA9);
    SealedBy([0x04, 0xFF, 0x41], [0x01, 0x00], 0xBB);
    hide Sealed, Sum;
    assert FrameOf(0x56, []) == [0x02, 0xFF, 0x56] + [] + [0xA9];
    assert FrameOf(0x41, [0x01, 0x00]) == [0x04, 0xFF, 0x41] + [0x01, 0x00] + [0xBB];
  }

  lemma SumOfTwo(a: nat, b: nat)
    requires a < 256 && b < 256
    ensures Sum([a, b]) == a + b && Sum([]) == 0
  {
    assert [a, b][1..] == [b] && [b][1..] == [];
    assert Sum([b]) == b + Sum([]);
  }

  lemma CheckCompletes(sum: int)
    ensures (sum + (1024 - sum) % 256) % 256 == 0
  {
  }

  lemma ReadRequestOf(lo: byte, hi: byte, c: byte)
    requires (0x18C + (lo as int) + hi + c) % 256 == 0
    ensures FrameOf(0x58, [0x30, lo, hi]) == [0x05, 0xFF, 0x58, 0x30, lo, hi, c]
  {
    SumOfThree(0x05, 0xFF, 0x58);
    SumOfThree(0x30, lo, hi);
    hide Sealed, Sum;
    SealedBy([0x05, 0xFF, 0x58], [0x30, lo, hi], c);
    assert FrameOf(0x58, [0x30, lo, hi]) == [0x05, 0xFF, 0x58] + [0x30, lo, hi] + [c];
  }

  /** A request for a RAM variable, byte by byte. */
  lemma ReadRequestInBytes(ramId: nat)
    requires ramId < 0x1_0000
    ensures var (lo, hi) := (ramId % 256, ramId / 256);
            ReadRequest(ramId) == [0x05, 0xFF, 0x58, 0x30, lo, hi, (1024 - 0x18C - lo - hi) % 256]
  {
    hide FrameOf;
    var lo, hi := ramId % 256, ramId / 256;
    CheckCompletes(0x18C + lo + hi);
    ReadRequestOf(lo, hi, (1024 - 0x18C - lo - hi) % 256);
  }

  lemma PowerFrameOf(slot: byte, lo: byte, hi: byte, c: byte)
    requires (0x197 + (slot as int) + lo + hi + c) % 256 == 0
    ensures FrameOf(0x58, [0x37, 0x02, slot, lo, hi]) == [0x07, 0xFF, 0x58, 0x37, 0x02, slot, lo, hi, c]
  {
    SumOfThree(0x07, 0xFF, 0x58);
    SumOfFour(0x02, slot, lo, hi);
    var data: seq<byte> := [0x37, 0x02, slot, lo, hi];
    assert Sum(data) == 0x37 + Sum([0x02, slot, lo, hi]) by {
      assert data[1..] == [0x02, slot, lo, hi];
    }
    hide Sealed, Sum;
    SealedBy([0x07, 0xFF, 0x58], data, c);
    assert FrameOf(0x58, data) == [0x07, 0xFF, 0x58] + data + [c];
  }

  /** A power frame, byte by byte; the word stands in two's complement. */
  lemma PowerFrameInBytes(slot: nat, word: int)
    requires 0 < slot < 256 && -0x8000 <= word < 0x8000
    ensures var (lo, hi) := (word % 256, word / 256 % 256);
            PowerFrame(slot, word)
            == [0x07, 0xFF, 0x58, 0x37, 0x02, slot, lo, hi, (1024 - 0x197 - slot - lo - hi) % 256]
  {
    hide FrameOf;
    var lo, hi := word % 256, word / 256 % 256;
    LowBytes(word);
    hide Low16;
    CheckCompletes(0x197 + slot + lo + hi);
    PowerFrameOf(slot, lo, hi, (1024 - 0x197 - slot - lo - hi) % 256);
  }

  /** The word is the whole watts of the command held to the limit, negated. */
  lemma PowerWordInNumbers(watts: real, maxPower: real)
    requires 0.0 < maxPower <= 32767.0
    ensures var w := if watts > maxPower then maxPower else if watts < -maxPower then -maxPower else watts;
            PowerWord(watts, maxPower) == -Truncate(w) && -0x8000 < PowerWord(watts, maxPower) < 0x8000
  {
    var w := Clamp(watts, -maxPower, maxPower);
    assert Truncate(-w) == -Truncate(w);
    Signed16OfLow16(Truncate(-w));
  }

  lemma LowBytes(word: int)
    ensures Low16(word) % 256 == word % 256 && Low16(word) / 256 == word / 256 % 256
  {
  }

  /** Which bytes of an answer carry the RAM value, and what value marks the ESS assistant: 0x50 to
      0x5F. The scan ends there with the slot behind it; behind any other header it goes on past as
      many slots as the header's low four bits say, and without an answer it fails. */
  lemma ScanInBytes(answers: seq<seq<Read>>, n: nat, ramId: nat)
    ensures var values := Values(answers);
            if n >= |answers| then Scan(values, n, ramId) == ScanResult([], None)
            else match Reply([0x07, 0xFF, 0x58], answers[n])
              case None => Scan(values, n, ramId) == ScanResult([ramId], None)
              case Some(f) =>
                && |f| == 9
                && var (lo: int, hi: int) := (f[4], f[5]);
                   if hi == 0 && 0x50 <= lo <= 0x5F then Scan(values, n, ramId) == ScanResult([ramId], Some(ramId + 1))
                   else
                     var more := Scan(values, n + 1, ramId + 1 + lo % 16);
                     Scan(values, n, ramId) == ScanResult([ramId] + more.ids, more.slot)
  {
    hide Parse, Reply, Values;
    ValuesAre(answers);
    if n < |answers| {
      AnswerOf([0x07, 0xFF, 0x58], answers[n]);
    }
  }

  lemma ValuesAre(answers: seq<seq<Read>>)
    ensures |Values(answers)| == |answers|
    ensures forall n :: 0 <= n < |answers| ==>
              Values(answers)[n] == RamValue(Reply([0x07, 0xFF, 0x58], answers[n]))
  {
  }

  /** An answer begins with the header asked for and is as long as that says. */
  lemma AnswerOf(header: seq<byte>, chunks: seq<Read>)
    requires header != []
    ensures var rx := Reply(header, chunks);
            rx.Some? ==> header <= rx.value && |rx.value| - 2 == header[0]
  {
    if Parse(header, Stream(chunks)).Got? {
      AnswerLength(header, Stream(chunks));
    }
  }

  /** A connection asks for the version, then sets the address, then scans, each only after an answer to
      the one before, and the address only counts when it comes back as 0. The slot found is
      kept; when anything fails the slot known before stays. */
  lemma ConnectionInBytes(slot: nat, d: Dialogue)
    ensures var a := Reply([0x04, 0xFF, 0x41], d.address); a.Some? ==> |a.value| == 6
    ensures var (v, a) := (Reply([0x07, 0xFF], d.version), Reply([0x04, 0xFF, 0x41], d.address));
            var r := Connecting(slot, d);
            var scan := Scan(Values(d.scan), 0, 128);
            if v.None? then r == ConnectResult(slot, [[0x02, 0xFF, 0x56, 0xA9]], false)
            else if a.None? || a.value[4] != 0 then
              r == ConnectResult(slot, [[0x02, 0xFF, 0x56, 0xA9]] + [[0x04, 0xFF, 0x41, 0x01, 0x00, 0xBB]], false)
            else
              && r.sent == [[0x02, 0xFF, 0x56, 0xA9]] + [[0x04, 0xFF, 0x41, 0x01, 0x00, 0xBB]] + ReadRequests(scan.ids)
              && r.ok == scan.slot.Some?
              && r.slot == if scan.slot.Some? then scan.slot.value else slot
  {
    hide Reply, Scan, Values, FrameOf, ReadRequests;
    ConnectRequestsInBytes();
    AnswerOf([0x07, 0xFF], d.version);
    AnswerOf([0x04, 0xFF, 0x41], d.address);
  }

  /** The version is the number in bytes 4 to 7 of the answer, the lowest byte first; a frame with
      the header always has them. */
  lemma VersionInBytes(chunks: seq<Read>)
    ensures var rx := Reply([0x07, 0xFF], chunks);
            && (rx.None? ==> VersionOf(rx) == None)
            && (rx.Some? ==>
                  |rx.value| == 9 &&
                  var (a: int, b: int, c: int, e: int) := (rx.value[3], rx.value[4], rx.value[5], rx.value[6]);
                  VersionOf(rx) == Some(a + 0x100 * b + 0x1_0000 * c + 0x100_0000 * e))
  {
    AnswerOf([0x07, 0xFF], chunks);
    hide Reply;
  }

  /** Behind any info frame that was already on its way, the device's answer to a power frame is found,
      and accepted exactly when its fourth byte is 0x87; without one there is no answer. */
  lemma PowerAnswerInBytes(answer: seq<Read>, info: seq<byte>, code: byte, check: byte)
    requires info == [] || (|info| == 17 && info[..2] == [0x0F, 0x20])
    ensures Stream(answer) == info + [0x03, 0xFF, 0x58, code, check] ==>
              Judged(Reply(POWER_HEADER, answer)) == if code == 0x87 then Accepted else Refused
    ensures Stream(answer) == info ==> Judged(Reply(POWER_HEADER, answer)) == NoAnswer
  {
    hide Stream, Parse;
    var f := [0x03, 0xFF, 0x58, code, check];
    if info == [] {
      AppendNothing(f);
      NothingYet();
      ShortAnswer(code, check);
    } else {
      assert info[0] == info[..2][0] && info[1] == info[..2][1];
      AnswerBehindInfoFrame(info, f);
      InfoFrameAlone(info);
    }
  }

  lemma NothingYet()
    ensures Parse(POWER_HEADER, []) == Waiting([], [])
  {
  }

  lemma ShortAnswer(code: byte, check: byte)
    ensures var f := [0x03, 0xFF, 0x58, code, check]; Parse(POWER_HEADER, f) == Got([], f, [])
  {
    hide Parse;
    var f := [0x03, 0xFF, 0x58, code, check];
    ParseInBytes(POWER_HEADER, f, 0);
    assert f[0..5] == f && f[5..] == [];
  }

  lemma InfoFrameAlone(info: seq<byte>)
    requires |info| == 17 && info[0] == 0x0F && info[1] == 0x20
    ensures Parse(POWER_HEADER, info) == Waiting([info], [])
  {
    NothingYet();
    hide Parse;
    ParseInBytes(POWER_HEADER, info, 0);
    assert info[0..17] == info && info[17..] == [];
    AppendNothing([info]);
  }

  // ----- The driver

  class VEBus {
    const maxPower: real
    var essSetpointRAM: nat
    var rxBuf: seq<byte>
    var sent: seq<seq<byte>>  // what has been written to the port

    predicate Valid()
      reads this`essSetpointRAM
    {
      maxPower > 0.0 && SlotKnown(essSetpointRAM)
    }

    constructor (maxPower: real)
      ensures Valid()
      ensures this.maxPower == if maxPower <= 0.0 then 5000.0 else maxPower
      ensures essSetpointRAM == 0 && rxBuf == [] && sent == []
    {
      this.maxPower := if maxPower <= 0.0 then 5000.0 else maxPower;
      essSetpointRAM := 0;
      rxBuf := [];
      sent := [];
    }

    /** Asks for the version, sets the address and looks for the ESS assistant, whose slot is kept. */
    method Connect(d: Dialogue) returns (ok: bool)
      requires Valid() && |d.scan| == SCAN_LIMIT
      modifies this`rxBuf, this`sent, this`essSetpointRAM
      ensures Valid()
      ensures var r := Connecting(old(essSetpointRAM), d);
              ok == r.ok && essSetpointRAM == r.slot && sent == old(sent) + r.sent
    {
      hide Scan, Reply, ReadRequests, Values;
      ConnectingKeepsSlotKnown(essSetpointRAM, d);
      ghost var before, r := sent, Connecting(essSetpointRAM, d);
      var mk2Version := GetVersion(d.version);
      if mk2Version.None? {
        return false;
      }
      ok := InitAddress(0, d.address);
      AppendAssoc(before, [FrameOf(0x56, [])], [FrameOf(0x41, [0x01, 0x00])]);
      if !ok {
        return;
      }
      ghost var asked := ReadRequests(Scan(Values(d.scan), 0, FIRST_RAM_ID).ids);
      AppendAssoc(before, [FrameOf(0x56, [])] + [FrameOf(0x41, [0x01, 0x00])], asked);
      var slot := ScanESSAssistant(d.scan);
      if slot.None? {
        return false;
      }
      essSetpointRAM := slot.value;
    }

    method GetVersion(answer: seq<Read>) returns (version: Option<nat>)
      modifies this`rxBuf, this`sent
      ensures sent == old(sent) + [FrameOf(0x56, [])] && version == VersionOf(Reply(VERSION_HEADER, answer))
    {
      SendFrame(0x56, []);
      var rx, _, _ := ReceiveFrame(VERSION_HEADER, answer);
      if rx.None? || |rx.value| < 7 {
        return None;
      }
      return Some(Le16(rx.value[3], rx.value[4]) + 0x1_0000 * Le16(rx.value[5], rx.value[6]));
    }

    method InitAddress(addr: byte, answer: seq<Read>) returns (ok: bool)
      modifies this`rxBuf, this`sent
      ensures sent == old(sent) + [FrameOf(0x41, [0x01, addr])]
      ensures var rx := Reply(ADDRESS_HEADER, answer); ok == (rx.Some? && |rx.value| >= 5 && rx.value[4] == addr)
    {
      SendFrame(0x41, [0x01, addr]);
      var rx, _, _ := ReceiveFrame(ADDRESS_HEADER, answer);
      return rx.Some? && |rx.value| >= 5 && rx.value[4] == addr;
    }

    method SendFrame(cmd: byte, data: seq<byte>)
      modifies this`sent
      ensures sent == old(sent) + [FrameOf(cmd, data)]
    {
      var frame := BuildFrame(cmd, data);
      sent := sent + [frame[..]];
    }

    /** Reads the port until a frame that begins with `header` is complete or there
        is nothing more to read in time. The result is that of parsing the whole
        stream at once, however it was cut: the same frames are skipped, the same
        frame is returned, and the bytes kept together with those not yet read are
        what the whole parse leaves. */
    method ReceiveFrame(header: seq<byte>, chunks: seq<Read>)
      returns (r: Option<seq<byte>>, skipped: seq<seq<byte>>, used: nat)
      modifies this`rxBuf
      ensures used <= |chunks|
      ensures r == Reply(header, chunks)
      ensures match Parse(header, Stream(chunks))
              case Got(sk, f, rest) => skipped == sk && rxBuf + Stream(chunks[used..]) == rest
              case Waiting(sk, rest) => skipped == sk && used == |chunks| && rxBuf == rest
    {
      rxBuf := [];
      skipped := [];
      used := 0;
      assert chunks[..0] == [];
      while used < |chunks|
        invariant used <= |chunks|
        invariant Parse(header, Stream(chunks[..used])) == Waiting(skipped, rxBuf)
      {
        var n := chunks[used];
        OneMoreRead(header, chunks, used, skipped, rxBuf);
        used := used + 1;
        if n.failed && |n.data| == 0 {
          AppendNothing(rxBuf);
          AppendNothing(skipped);
          continue;
        }
        rxBuf := rxBuf + n.data;
        var found, more := ExtractFrames(header);
        if found.Some? {
          GotInTime(header, chunks, used, skipped + more, found.value, rxBuf);
          return found, skipped + more, used;
        }
        skipped := skipped + more;
      }
      assert chunks[..used] == chunks;
      return None, skipped, used;
    }

    /** Takes frames off the buffer until one matches or no complete frame is left. */
    method ExtractFrames(header: seq<byte>) returns (r: Option<seq<byte>>, skipped: seq<seq<byte>>)
      modifies this`rxBuf
      ensures match Parse(header, old(rxBuf))
              case Got(sk, f, rest) => r == Some(f) && skipped == sk && rxBuf == rest
              case Waiting(sk, rest) => r == None && skipped == sk && rxBuf == rest
    {
      hide Parse, Next, FirstStart;
      skipped := [];
      AfterNothing(Parse(header, rxBuf));
      while |rxBuf| >= 2
        invariant Parse(header, old(rxBuf)) == Parse(header, rxBuf).After(skipped)
        decreases |rxBuf|
      {
        ghost var s := rxBuf;
        OnePass(header, s, skipped);
        NextAtStart(s);
        var frameStart := FindFrameStart();
        if frameStart < 0 {
          rxBuf := rxBuf[|rxBuf| - 1..];
          assert Next(s) == Kept(rxBuf);
          return None, skipped;
        }
        if frameStart > 0 {
          rxBuf := rxBuf[frameStart..];
        }
        assert rxBuf == s[frameStart..];
        var frameLen := rxBuf[0] + 2;
        if |rxBuf| < frameLen {
          assert Next(s) == Kept(rxBuf);
          return None, skipped;
        }
        var frame := rxBuf[..frameLen];
        rxBuf := rxBuf[frameLen..];
        assert Next(s) == Frame(frame, rxBuf);
        var matches := |header| <= |frame| && frame[..|header|] == header;
        assert matches == (header <= frame);
        if matches {
          return Some(frame), skipped;
        }
        skipped := skipped + [frame];
      }
      OnePass(header, rxBuf, skipped);
      NextOfFew(rxBuf);
      return None, skipped;
    }

    /** The first place in the buffer where a frame may start, or -1. */
    method FindFrameStart() returns (frameStart: int)
      requires |rxBuf| >= 2
      ensures match FirstStart(rxBuf, 0)
              case None => frameStart == -1
              case Some(i) => frameStart == i
    {
      frameStart := -1;
      for i := 0 to |rxBuf| - 1
        invariant frameStart == -1
        invariant forall j: nat :: j < i ==> !StartsAt(rxBuf, j)
      {
        if rxBuf[i] >= 2 && rxBuf[i] <= 32 {
          if rxBuf[i + 1] == 0xFF || rxBuf[i + 1] == 0x20 {
            FirstStartIs(rxBuf, i);
            return i;
          }
        }
      }
    }

    /** Asks for one RAM variable and reads its value from the answer. */
    method ReadRAMVar(ramID: nat, answer: seq<Read>) returns (value: Option<nat>)
      modifies this`rxBuf, this`sent
      ensures sent == old(sent) + [ReadRequest(ramID)]
      ensures value == RamValue(Reply(SCAN_HEADER, answer))
    {
      SendFrame(0x58, [0x30, Low16(ramID) % 256, Low16(ramID) / 256]);
      var rx, _, _ := ReceiveFrame(SCAN_HEADER, answer);
      if rx.None? || |rx.value| < 6 {
        return None;
      }
      return Some(Le16(rx.value[4], rx.value[5]));
    }

    /** Looks for the ESS assistant; `answers[n]` is what can be read after request `n`. */
    method ScanESSAssistant(answers: seq<seq<Read>>) returns (slot: Option<nat>)
      requires |answers| == SCAN_LIMIT
      modifies this`rxBuf, this`sent
      ensures slot == Scan(Values(answers), 0, FIRST_RAM_ID).slot
      ensures sent == old(sent) + ReadRequests(Scan(Values(answers), 0, FIRST_RAM_ID).ids)
    {
      hide Scan, RamValue, Reply, ReadRequest, Values;
      ghost var values := ValuesOneByOne(answers);
      ghost var whole := Scan(values, 0, FIRST_RAM_ID);
      ghost var visited: seq<nat> := [];
      var ramID: nat := FIRST_RAM_ID;
      AppendNothing(whole.ids);
      slot := None;
      for n := 0 to SCAN_LIMIT
        invariant slot == None && sent == old(sent) + ReadRequests(visited)
        invariant ScannedSoFar(whole, values, visited, n, ramID)
      {
        ScanStep(whole, values, visited, n, ramID);
        var ramVal := ReadRAMVar(ramID, answers[n]);
        ReadRequestsSnoc(visited, ramID);
        visited := visited + [ramID];
        if ramVal.None? {
          return;
        }
        if IsEssMarker(ramVal.value) {
          slot := Some(ramID + 1);
          return;
        }
        ramID := ramID + 1 + ramVal.value % 16;
      }
      ScanIsOver(values, ramID);
      AppendNothing(visited);
    }

    method SetPower(watts: real, answer: seq<Read>) returns (r: SetPowerResult)
      requires Valid()
      modifies this`rxBuf, this`sent
      ensures essSetpointRAM == 0 ==> r == NotInitialised && sent == old(sent)
      ensures essSetpointRAM != 0 ==>
                && sent == old(sent) + [PowerFrame(essSetpointRAM, PowerWord(watts, maxPower))]
                && r == Judged(Reply(POWER_HEADER, answer))
    {
      if essSetpointRAM == 0 {
        return NotInitialised;
      }
      var w := watts;
      if w > maxPower {
        w := maxPower;
      }
      if w < -maxPower {
        w := -maxPower;
      }
      r := SetPowerInternal(Signed16(Low16(Truncate(-w))), answer);
    }

    method SetPowerInternal(power: int, answer: seq<Read>) returns (r: SetPowerResult)
      requires -0x8000 <= power < 0x8000
      modifies this`rxBuf, this`sent
      ensures sent == old(sent) + [PowerFrame(essSetpointRAM, power)]
      ensures r == Judged(Reply(POWER_HEADER, answer))
    {
      SendFrame(0x58, [0x37, 0x02, essSetpointRAM % 256, Low16(power) % 256, Low16(power) / 256]);
      var rx, _, _ := ReceiveFrame(POWER_HEADER, answer);
      if rx.None? {
        return NoAnswer;
      }
      if |rx.value| < 4 {
        return Refused;
      }
      if rx.value[3] == 0x87 {
        return Accepted;
      }
      return Refused;
    }
  }

  /** What one pass over the buffer means for the parse. */
  lemma OnePass(header: seq<byte>, s: seq<byte>, skipped: seq<seq<byte>>)
    ensures Next(s).Kept? ==> Parse(header, s).After(skipped) == Waiting(skipped, Next(s).rest)
    ensures Next(s).Frame? && header <= Next(s).f ==>
              Parse(header, s).After(skipped) == Got(skipped, Next(s).f, Next(s).rest)
    ensures Next(s).Frame? && !(header <= Next(s).f) ==>
              Parse(header, s).After(skipped) == Parse(header, Next(s).rest).After(skipped + [Next(s).f])
  {
    AppendNothing(skipped);
    if Next(s).Frame? && !(header <= Next(s).f) {
      AfterAfter(Parse(header, Next(s).rest), skipped, [Next(s).f]);
    }
  }

  /** The bytes of one more read join those kept. */
  lemma OneMoreRead(header: seq<byte>, chunks: seq<Read>, used: nat, skipped: seq<seq<byte>>, rest: seq<byte>)
    requires used < |chunks| && Parse(header, Stream(chunks[..used])) == Waiting(skipped, rest)
    ensures Parse(header, Stream(chunks[..used + 1])) == Parse(header, rest + chunks[used].data).After(skipped)
    ensures Parse(header, rest) == Waiting([], rest)
  {
    StreamNext(chunks, used);
    ParseAppend(header, Stream(chunks[..used]), chunks[used].data);
    RestIsStable(header, Stream(chunks[..used]));
  }

  /** A frame found in the bytes read so far is what all the bytes together give. */
  lemma GotInTime(header: seq<byte>, chunks: seq<Read>, used: nat, skipped: seq<seq<byte>>, frame: seq<byte>,
      rest: seq<byte>)
    requires used <= |chunks|
    requires Parse(header, Stream(chunks[..used])) == Got([], frame, rest).After(skipped)
    ensures Parse(header, Stream(chunks)) == Got(skipped, frame, rest + Stream(chunks[used..]))
  {
    StreamSplit(chunks, used);
    ParseAppend(header, Stream(chunks[..used]), Stream(chunks[used..]));
    AppendNothing(skipped);
  }
}
