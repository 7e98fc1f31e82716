/**
 Walking all addresses of a network block: adding one to an address in place, and
 the loop that does so while the address is in the block.
 */
module Discovery {
  import opened Bytes

  /** The big-endian value of the first `n` bytes of an address. */
  function Value(a: seq<byte>, n: nat): (v: nat)
    requires n <= |a|
  {
    if n == 0 then 0 else 256 * Value(a, n - 1) + a[n - 1]
  }

  lemma {:induction false} ValueBounded(a: seq<byte>, n: nat)
    requires n <= |a|
    ensures Value(a, n) < Power256(n)
  {
    if n > 0 {
      ValueBounded(a, n - 1);
    }
  }

  lemma {:induction false} ValueOfPrefix(a: seq<byte>, b: seq<byte>, n: nat)
    requires n <= |a| && n <= |b| && a[..n] == b[..n]
    ensures Value(a, n) == Value(b, n)
  {
    if n > 0 {
      assert a[..n - 1] == a[..n][..n - 1] == b[..n][..n - 1] == b[..n - 1];
      assert a[n - 1] == a[..n][n - 1] == b[..n][n - 1] == b[n - 1];
      ValueOfPrefix(a, b, n - 1);
    }
  }

  /** An address is determined by its length and its value. */
  lemma {:induction false} ValueIsUnique(a: seq<byte>, b: seq<byte>, n: nat)
    requires n <= |a| && n <= |b| && Value(a, n) == Value(b, n)
    ensures a[..n] == b[..n]
  {
    if n > 0 {
      var (x: int, y: int) := (a[n - 1], b[n - 1]);
      assert 256 * (Value(a, n - 1) - Value(b, n - 1)) == y - x;
      ValueIsUnique(a, b, n - 1);
      assert a[..n] == a[..n - 1] + [a[n - 1]] && b[..n] == b[..n - 1] + [b[n - 1]];
    }
  }

  // ----- Adding one

  /** The address after `a`, counting its last byte first. */
  function Next(a: seq<byte>, n: nat): seq<byte>
    requires n <= |a|
    ensures |Next(a, n)| == |a|
    ensures Next(a, n)[n..] == a[n..]
    decreases n
  {
    if n == 0 then a
    else if a[n - 1] < 255 then a[n - 1 := a[n - 1] + 1]
    else Next(a[n - 1 := 0], n - 1)
  }

  /** The carry loop is plus one on the value, back to 0 after the highest address. */
  lemma {:induction false} NextIsPlusOne(a: seq<byte>, n: nat)
    requires n <= |a|
    ensures Value(Next(a, n), n) == if Value(a, n) + 1 == Power256(n) then 0 else Value(a, n) + 1
    decreases n
  {
    if n > 0 {
      ValueBounded(a, n - 1);
      if a[n - 1] < 255 {
        ValueOfPrefix(a[n - 1 := a[n - 1] + 1], a, n - 1);
      } else {
        var b := a[n - 1 := 0];
        ValueOfPrefix(b, a, n - 1);
        NextIsPlusOne(b, n - 1);
        assert Next(b, n - 1)[n - 1] == Next(b, n - 1)[n - 1..][0] == b[n - 1..][0] == 0;
      }
    }
  }

  method IncIP(ip: array<byte>)
    modifies ip
    ensures ip[..] == Next(old(ip[..]), ip.Length)
  {
    ghost var before := ip[..];
    var j := ip.Length - 1;
    while j >= 0
      invariant -1 <= j < ip.Length
      invariant Next(ip[..], j + 1) == Next(before, ip.Length)
    {
      ghost var now := ip[..];
      var b: int := ip[j];
      ip[j] := (b + 1) % 256;
      assert ip[..] == now[j := ip[j]];
      if ip[j] > 0 {
        return;
      }
      j := j - 1;
    }
  }

  // ----- Blocks

  /** How many values of byte `k` a mask of `p` one bits cannot tell apart. */
  function Grain(k: nat, p: nat): (g: nat)
    ensures 0 < g <= 256
  {
    if 8 * (k + 1) <= p then 1
    else if 8 * k >= p then 256
    else GrainBounded(8 * (k + 1) - p); Power2(8 * (k + 1) - p)
  }

  lemma GrainBounded(n: nat)
    requires n <= 8
    ensures Power2(n) <= 256
  {
    assert Power2(8) == 256;
    PowerGrows(n, 8);
  }

  lemma {:induction false} PowerGrows(m: nat, n: nat)
    requires m <= n
    ensures Power2(m) <= Power2(n)
  {
    if m < n {
      PowerGrows(m, n - 1);
    }
  }

  lemma {:induction false} PowerOfSum(m: nat, n: nat)
    ensures Power2(m + n) == Power2(m) * Power2(n)
  {
    if m > 0 {
      PowerOfSum(m - 1, n);
    }
  }

  function MaskByte(b: byte, g: nat): (r: byte)
    requires g > 0
  {
    b - b % g
  }

  /** The address with all but its first `p` bits cleared. */
  function Masked(a: seq<byte>, p: nat): (r: seq<byte>)
    ensures |r| == |a|
  {
    seq(|a|, k requires 0 <= k < |a| => MaskByte(a[k], Grain(k, p)))
  }

  /** Whether the first `n` bytes agree with the block's under the mask. */
  predicate Agree(net: seq<byte>, p: nat, a: seq<byte>, n: nat)
    requires n <= |a| && n <= |net|
  {
    forall k :: 0 <= k < n ==> MaskByte(a[k], Grain(k, p)) == MaskByte(net[k], Grain(k, p))
  }

  /** Whether an address has the block's first `p` bits. */
  predicate InBlock(net: seq<byte>, p: nat, a: seq<byte>) {
    |a| == |net| && Agree(net, p, a, |a|)
  }

  /** The number of addresses of `n` bytes in a block of `p` bits. */
  function BlockSize(n: nat, p: nat): (s: nat)
    ensures s > 0
  {
    if p >= 8 * n then 1 else Power2(8 * n - p)
  }

  // ----- Being in a block, in terms of values

  lemma AtLeastOnce(k: int, d: nat)
    ensures k >= 1 ==> k * d >= d
    ensures k <= -1 ==> k * d <= 0 - d
  {
  }

  lemma QuotientIs(x: nat, d: nat, q: nat, r: nat)
    requires r < d && x == q * d + r
    ensures x / d == q && x % d == r
  {
    var e, f := x / d, x % d;
    assert x == e * d + f;
    AtLeastOnce(e - q, d);
    assert (e - q) * d == e * d - q * d;
  }

  lemma Spread(m: nat, v: nat, i: nat, g: nat)
    ensures (m * v + i) * g == v * (g * m) + i * g
  {
    assert m * v * g == v * (g * m);
  }

  lemma BelowWhenProductBelow(i: nat, m: nat, g: nat)
    requires i * g < m * g
    ensures i < m
  {
  }

  /** A byte seen in grains of `g`, `m` of them to a byte. */
  lemma QuotientWithByte(v: nat, b: nat, g: nat, m: nat)
    requires b < 256 && g > 0 && 256 == g * m
    ensures (256 * v + b) / g == m * v + b / g && b / g < m
  {
    var i, r := b / g, b % g;
    assert b == i * g + r;
    Spread(m, v, i, g);
    QuotientIs(256 * v + b, g, m * v + i, r);
    BelowWhenProductBelow(i, m, g);
  }

  /** A byte below the block's own digits does not count. */
  lemma QuotientWithoutByte(v: nat, b: nat, s: nat, t: nat)
    requires b < 256 && s > 0 && t == 256 * s
    ensures (256 * v + b) / t == v / s
  {
    var q, r := v / s, v % s;
    assert v == q * s + r;
    assert q * t == 256 * (q * s);
    QuotientIs(256 * v + b, t, q, 256 * r + b);
  }

  lemma PairsEqual(m: nat, v: nat, i: nat, w: nat, j: nat)
    requires i < m && j < m
    ensures m * v + i == m * w + j <==> v == w && i == j
  {
    QuotientIs(m * v + i, m, v, i);
    QuotientIs(m * w + j, m, w, j);
  }

  lemma SameMaskedByte(b: byte, c: byte, g: nat)
    requires g > 0
    ensures MaskByte(b, g) == MaskByte(c, g) <==> b / g == c / g
  {
    var (x: nat, y: nat) := (b, c);
    assert x == x / g * g + x % g && y == y / g * g + y % g;
  }

  /** The grain and the block size fit together at every byte. */
  lemma GrainSteps(n: nat, p: nat)
    ensures 8 * (n + 1) <= p ==> Grain(n, p) == 1 && BlockSize(n + 1, p) == 1 && BlockSize(n, p) == 1
    ensures 8 * n < p < 8 * (n + 1) ==>
              BlockSize(n, p) == 1 && BlockSize(n + 1, p) == Grain(n, p) && 256 == Grain(n, p) * Power2(p - 8 * n)
    ensures p <= 8 * n ==> Grain(n, p) == 256 && BlockSize(n + 1, p) == 256 * BlockSize(n, p)
  {
    assert Power2(8) == 256;
    if 8 * n < p < 8 * (n + 1) {
      PowerOfSum(8 * (n + 1) - p, p - 8 * n);
    }
    if p <= 8 * n {
      PowerOfSum(8, 8 * n - p);
    }
  }

  /** Agreeing under the mask is having the same value in units of the block size. */
  lemma {:induction false} AgreeIsSameQuotient(net: seq<byte>, p: nat, a: seq<byte>, n: nat)
    requires n <= |a| && n <= |net|
    ensures Agree(net, p, a, n) <==> Value(a, n) / BlockSize(n, p) == Value(net, n) / BlockSize(n, p)
  {
    if n > 0 {
      var (b: nat, c: nat, v, w) := (a[n - 1], net[n - 1], Value(a, n - 1), Value(net, n - 1));
      var g := Grain(n - 1, p);
      AgreeIsSameQuotient(net, p, a, n - 1);
      SameMaskedByte(a[n - 1], net[n - 1], g);
      assert Agree(net, p, a, n) <==> Agree(net, p, a, n - 1) && b / g == c / g;
      SameQuotientStep(v, b, w, c, n - 1, p);
    }
  }

  lemma SameQuotientStep(v: nat, b: nat, w: nat, c: nat, n: nat, p: nat)
    requires b < 256 && c < 256
    ensures var (s, g) := (BlockSize(n + 1, p), Grain(n, p));
            (256 * v + b) / s == (256 * w + c) / s <==> v / BlockSize(n, p) == w / BlockSize(n, p) && b / g == c / g
  {
    GrainSteps(n, p);
    var m := if 8 * n <= p then Power2(p - 8 * n) else 1;
    SameQuotient(v, b, w, c, BlockSize(n, p), BlockSize(n + 1, p), Grain(n, p), m);
  }

  /** What the block sizes `s` and `t` before and after a byte have to do with its grain. */
  predicate Fitting(s: nat, t: nat, g: nat, m: nat) {
    (s == t == g == 1) || (s > 0 && g == 256 && t == 256 * s) || (s == 1 && t == g > 0 && 256 == g * m)
  }

  lemma SameQuotient(v: nat, b: nat, w: nat, c: nat, s: nat, t: nat, g: nat, m: nat)
    requires b < 256 && c < 256 && Fitting(s, t, g, m)
    ensures t > 0 && s > 0 && g > 0
    ensures (256 * v + b) / t == (256 * w + c) / t <==> v / s == w / s && b / g == c / g
  {
    if s == t == g == 1 {
      PairsEqual(256, v, b, w, c);
    } else if g == 256 && t == 256 * s {
      QuotientWithoutByte(v, b, s, t);
      QuotientWithoutByte(w, c, s, t);
    } else {
      SameQuotientByGrain(v, b, w, c, g, m);
    }
  }

  lemma SameQuotientByGrain(v: nat, b: nat, w: nat, c: nat, g: nat, m: nat)
    requires b < 256 && c < 256 && g > 0 && 256 == g * m
    ensures (256 * v + b) / g == (256 * w + c) / g <==> v == w && b / g == c / g
  {
    QuotientWithByte(v, b, g, m);
    QuotientWithByte(w, c, g, m);
    PairsEqual(m, v, b / g, w, c / g);
  }

  // ----- Blocks are ranges of values

  /** The first address of a block is the multiple of its size. */
  lemma {:induction false} MaskedIsMultiple(a: seq<byte>, p: nat, n: nat)
    requires n <= |a|
    ensures Value(Masked(a, p), n) % BlockSize(n, p) == 0
  {
    hide BlockSize, Grain, MaskByte;
    if n == 0 {
      FirstBlock(p);
    } else {
      MaskedIsMultiple(a, p, n - 1);
      assert Masked(a, p)[n - 1] == MaskByte(a[n - 1], Grain(n - 1, p));
      MultipleStep(Value(Masked(a, p), n - 1), a[n - 1], n - 1, p);
    }
  }

  lemma FirstBlock(p: nat)
    ensures BlockSize(0, p) == 1
  {
  }

  lemma MultipleStep(v: nat, b: byte, n: nat, p: nat)
    requires v % BlockSize(n, p) == 0
    ensures var m: int := MaskByte(b, Grain(n, p)); (256 * v + m) % BlockSize(n + 1, p) == 0
  {
    GrainSteps(n, p);
    var x: nat := b;
    assert MaskByte(b, Grain(n, p)) == x - x % Grain(n, p);
    Multiple(v, x, BlockSize(n, p), BlockSize(n + 1, p), Grain(n, p), if 8 * n <= p then Power2(p - 8 * n) else 1);
  }

  lemma Multiple(v: nat, b: nat, s: nat, t: nat, g: nat, m: nat)
    requires b < 256 && Fitting(s, t, g, m) && (s == 0 || v % s == 0)
    ensures t > 0 && g > 0 && (256 * v + (b - b % g)) % t == 0
  {
    if s == t == g == 1 {
    } else if g == 256 && t == 256 * s {
      var q := v / s;
      assert v == q * s;
      assert 256 * v == q * t;
      QuotientIs(256 * v, t, q, 0);
    } else {
      var i := b / g;
      assert b == i * g + b % g;
      Spread(m, v, i, g);
      QuotientIs(256 * v + i * g, g, m * v + i, 0);
    }
  }

  lemma MaskedIsInBlock(a: seq<byte>, p: nat)
    ensures InBlock(Masked(a, p), p, a) && InBlock(a, p, Masked(a, p))
  {
    forall k | 0 <= k < |a|
      ensures MaskByte(Masked(a, p)[k], Grain(k, p)) == MaskByte(a[k], Grain(k, p))
    {
      MaskTwice(a[k], Grain(k, p));
    }
  }

  lemma MaskTwice(b: byte, g: nat)
    requires g > 0
    ensures MaskByte(MaskByte(b, g), g) == MaskByte(b, g)
  {
    var x: nat := b;
    QuotientIs(x - x % g, g, x / g, 0);
  }

  lemma PowersAgree(n: nat)
    ensures Power256(n) == Power2(8 * n)
  {
    if n > 0 {
      PowersAgree(n - 1);
      PowerOfSum(8, 8 * (n - 1));
      assert Power2(8) == 256;
    }
  }

  /** An address is in a block exactly when its value is among the block size many from the first on. */
  lemma InBlockIsRange(net: seq<byte>, p: nat, a: seq<byte>)
    requires |a| == |net|
    ensures var (n, first) := (|net|, Value(Masked(net, p), |net|));
            InBlock(net, p, a) <==> first <= Value(a, n) < first + BlockSize(n, p)
  {
    var n, s, v := |net|, BlockSize(|net|, p), Value(a, |net|);
    var first := Value(Masked(net, p), n);
    AgreeIsSameQuotient(net, p, a, n);
    MaskedIsInBlock(net, p);
    AgreeIsSameQuotient(net, p, Masked(net, p), n);
    MaskedIsMultiple(net, p, n);
    SameQuotientIsRange(first, s, v);
  }

  lemma SameQuotientIsRange(first: nat, s: nat, v: nat)
    requires s > 0 && first % s == 0
    ensures v / s == first / s <==> first <= v < first + s
  {
    assert first == first / s * s;
    assert v == v / s * s + v % s;
    if first <= v < first + s {
      QuotientIs(v, s, first / s, v - first);
    }
  }

  /** The first address is the greatest multiple of the block size that is no more than the network as it is given. */
  lemma FirstOfBlock(net: seq<byte>, p: nat)
    ensures var (n, first) := (|net|, Value(Masked(net, p), |net|));
            first % BlockSize(n, p) == 0 && first <= Value(net, n) < first + BlockSize(n, p)
  {
    InBlockIsRange(net, p, net);
    NetworkInItself(net, p);
    MaskedIsMultiple(net, p, |net|);
    hide Value, Masked, BlockSize, InBlock;
  }

  lemma NetworkInItself(net: seq<byte>, p: nat)
    ensures InBlock(net, p, net)
  {
  }

  /** A block of at least one prefix bit is at most half of all addresses. */
  lemma BlockIsAtMostHalf(n: nat, p: nat)
    requires 1 <= p <= 8 * n
    ensures 2 * BlockSize(n, p) <= Power256(n)
  {
    PowersAgree(n);
    PowerGrows(8 * n - p, 8 * n - 1);
  }

  /** After the last address of a block the next one is outside, also when it wraps to 0. */
  lemma LeavesTheBlock(net: seq<byte>, p: nat, a: seq<byte>)
    requires |a| == |net| && 1 <= p <= 8 * |net|
    requires Value(a, |net|) + 1 == Value(Masked(net, p), |net|) + BlockSize(|net|, p)
    ensures !InBlock(net, p, Next(a, |net|))
  {
    var n := |net|;
    NextIsPlusOne(a, n);
    BlockIsAtMostHalf(n, p);
    InBlockIsRange(net, p, Next(a, n));
  }

  lemma StaysInTheBlock(net: seq<byte>, p: nat, a: seq<byte>)
    requires |a| == |net| && p <= 8 * |net|
    requires Value(Masked(net, p), |net|) <= Value(a, |net|) < Value(Masked(net, p), |net|) + BlockSize(|net|, p) - 1
    ensures Value(Next(a, |net|), |net|) == Value(a, |net|) + 1 && InBlock(net, p, Next(a, |net|))
  {
    var n := |net|;
    BlockEndsInRange(net, p);
    NextIsPlusOne(a, n);
    InBlockIsRange(net, p, Next(a, n));
  }

  lemma BlockEndsInRange(net: seq<byte>, p: nat)
    requires p <= 8 * |net|
    ensures Value(Masked(net, p), |net|) + BlockSize(|net|, p) <= Power256(|net|)
  {
    var n, first, s := |net|, Value(Masked(net, p), |net|), BlockSize(|net|, p);
    hide Value, Masked, BlockSize, Power2, Power256;
    MaskedIsMultiple(net, p, n);
    ValueBounded(Masked(net, p), n);
    BlocksFill(n, p);
    NextMultiple(first, s, Power2(p), Power256(n));
  }

  /** The blocks of one size fill the whole range of values. */
  lemma BlocksFill(n: nat, p: nat)
    requires p <= 8 * n
    ensures BlockSize(n, p) * Power2(p) == Power256(n)
  {
    PowersAgree(n);
    PowerOfSum(8 * n - p, p);
  }

  lemma NextMultiple(x: nat, s: nat, k: nat, t: nat)
    requires s > 0 && x % s == 0 && t == s * k && x < t
    ensures x + s <= t
  {
    var q := x / s;
    assert x == q * s;
    BelowWhenProductBelow(q, k, s);
    AtLeastOnce(k - q, s);
    assert (k - q) * s == s * k - q * s;
  }

  // ----- What the loop's condition compares

  /** An IPv4 address written in 16 bytes. */
  predicate V4Mapped(a: seq<byte>) {
    |a| == 16 && a[10] == 255 && a[11] == 255 && forall k :: 0 <= k < 10 ==> a[k] == 0
  }

  /** The first of them. */
  const MAPPED: seq<byte> := [0, 0, 0, 0, 0, 0, 0, 0, 0, 0, 255, 255, 0, 0, 0, 0]

  /** The addresses that stand for IPv4 ones: ten bytes 0, two 0xFF, and any four. */
  lemma MappedInBytes(x: seq<byte>)
    ensures V4Mapped(x) <==> |x| == 16 && x[..12] == [0, 0, 0, 0, 0, 0, 0, 0, 0, 0, 0xFF, 0xFF]
  {
    if |x| == 16 {
      assert x[..12] == [x[0], x[1], x[2], x[3], x[4], x[5], x[6], x[7], x[8], x[9], x[10], x[11]];
    }
  }

  /** The 4 bytes of an IPv4 address however it is written; any other address as it is. */
  function Shortened(a: seq<byte>): seq<byte> {
    if V4Mapped(a) then a[12..] else a
  }

  /** The condition of the loop, for a network address already masked: network and address
      are shortened first, and then must have the same length and the same prefix. */
  predicate Contains(net: seq<byte>, p: nat, a: seq<byte>) {
    var (n, x) := (Shortened(net), Shortened(a));
    var bits := if !V4Mapped(net) then p else if p >= 96 then p - 96 else 0;
    |x| == |n| && Agree(n, bits, x, |n|)
  }

  lemma WholeByte(b: byte)
    ensures MaskByte(b, 1) == b
  {
  }

  lemma NothingUnmasked(b: byte)
    ensures MaskByte(b, 256) == 0
  {
  }

  lemma GrainOfByte(k: nat, p: nat)
    ensures p >= 8 * (k + 1) ==> Grain(k, p) == 1
    ensures p <= 8 * k ==> Grain(k, p) == 256
    ensures p >= 96 ==> Grain(k + 12, p) == Grain(k, p - 96)
  {
  }

  /** A mask that leaves a byte of ones leaves at least its eight bits. */
  lemma OnesNeedAllBits(k: nat, p: nat, b: byte)
    requires MaskByte(b, Grain(k, p)) == 255
    ensures p >= 8 * (k + 1)
  {
    if p < 8 * (k + 1) {
      var x: nat := b;
      var g := Grain(k, p);
      if p <= 8 * k {
        NothingUnmasked(b);
      } else {
        var h := Power2(8 * (k + 1) - p - 1);
        assert g == 2 * h;
        assert x - x % g == x / g * g;
        OddIsNoMultiple(x / g, h);
      }
    }
  }

  lemma OddIsNoMultiple(q: nat, h: nat)
    ensures q * (2 * h) % 2 == 0
  {
    assert q * (2 * h) == 2 * (q * h);
  }

  /** In a block of at least 96 prefix bits either all addresses are IPv4 addresses or none is. */
  lemma LongPrefixDecides(network: seq<byte>, p: nat, a: seq<byte>)
    requires p >= 96 && InBlock(network, p, a)
    ensures V4Mapped(a) <==> V4Mapped(Masked(network, p))
  {
    if |network| == 16 {
      forall k | 0 <= k < 12
        ensures a[k] == network[k] == Masked(network, p)[k]
      {
        GrainOfByte(k, p);
        WholeByte(a[k]);
        WholeByte(network[k]);
      }
    }
  }

  /** A block of fewer prefix bits that holds one IPv4 address holds them all, and is not written as one itself. */
  lemma ShortPrefixTakesAll(network: seq<byte>, p: nat, a: seq<byte>, b: seq<byte>)
    requires p < 96 && InBlock(network, p, a) && V4Mapped(a) && V4Mapped(b)
    ensures InBlock(network, p, b)
  {
    forall k | 0 <= k < 16
      ensures MaskByte(b[k], Grain(k, p)) == MaskByte(network[k], Grain(k, p))
    {
      assert MaskByte(a[k], Grain(k, p)) == MaskByte(network[k], Grain(k, p));
      if k >= 12 {
        GrainOfByte(k, p);
        NothingUnmasked(b[k]);
        NothingUnmasked(a[k]);
      } else {
        assert a[k] == b[k];
      }
    }
  }

  lemma ShortPrefixIsNotMapped(network: seq<byte>, p: nat)
    requires p < 96
    ensures !V4Mapped(Masked(network, p))
  {
    if V4Mapped(Masked(network, p)) {
      OnesNeedAllBits(11, p, network[11]);
    }
  }

  /** The condition is being in the block, except that an IPv4 address is in no other block
      than one that is written as an IPv4 block itself. */
  lemma ContainsIffInBlock(network: seq<byte>, p: nat, a: seq<byte>)
    requires |a| == |network|
    ensures Contains(Masked(network, p), p, a) <==>
              InBlock(network, p, a) && (V4Mapped(a) ==> V4Mapped(Masked(network, p)))
  {
    var net := Masked(network, p);
    if V4Mapped(net) {
      if p < 96 {
        ShortPrefixIsNotMapped(network, p);
      }
      MappedContains(network, p, a);
    } else if !V4Mapped(a) {
      MaskedIsInBlock(network, p);
      assert Agree(net, p, a, |a|) <==> Agree(network, p, a, |a|);
    }
  }

  /** The last four bytes of a 16-byte block are compared as those of the 4-byte one. */
  lemma TailByte(network: seq<byte>, p: nat, a: seq<byte>, k: nat)
    requires |a| == |network| == 16 && p >= 96 && 12 <= k < 16
    ensures MaskByte(a[12..][k - 12], Grain(k - 12, p - 96))
            == MaskByte(Masked(network, p)[12..][k - 12], Grain(k - 12, p - 96))
            <==> MaskByte(a[k], Grain(k, p)) == MaskByte(network[k], Grain(k, p))
  {
    GrainOfByte(k - 12, p);
    MaskTwice(network[k], Grain(k, p));
  }

  lemma MappedContains(network: seq<byte>, p: nat, a: seq<byte>)
    requires |a| == |network| && p >= 96 && V4Mapped(Masked(network, p))
    ensures Contains(Masked(network, p), p, a) <==> InBlock(network, p, a)
  {
    var net := Masked(network, p);
    MaskedIsInBlock(network, p);
    hide MaskByte, Grain;
    if InBlock(network, p, a) {
      LongPrefixDecides(network, p, a);
      forall k | 0 <= k < 4
        ensures MaskByte(a[12..][k], Grain(k, p - 96)) == MaskByte(net[12..][k], Grain(k, p - 96))
      {
        TailByte(network, p, a, k + 12);
      }
    }
    if Contains(net, p, a) {
      forall k | 0 <= k < 16
        ensures MaskByte(a[k], Grain(k, p)) == MaskByte(network[k], Grain(k, p))
      {
        if k >= 12 {
          TailByte(network, p, a, k);
        } else {
          assert a[k] == net[k];
        }
      }
    }
  }

  // ----- The walk

  /** The block holds IPv4 addresses without being written as an IPv4 block. */
  predicate Cut(network: seq<byte>, p: nat) {
    InBlock(network, p, MAPPED) && !V4Mapped(Masked(network, p))
  }

  /** The number of addresses the loop visits: the whole block, or those before the first IPv4 address. */
  function Steps(network: seq<byte>, p: nat): int {
    if Cut(network, p) then Value(MAPPED, 16) - Value(Masked(network, p), 16) else BlockSize(|network|, p)
  }

  lemma MappedByte(a: seq<byte>, k: nat)
    requires V4Mapped(a) && k < 16
    ensures MaskByte(a[k], Grain(k, 96)) == MAPPED[k]
  {
    hide MaskByte, Grain;
    GrainOfByte(k, 96);
    if k < 12 {
      WholeByte(a[k]);
    } else {
      NothingUnmasked(a[k]);
    }
  }

  /** The IPv4 addresses are a block of their own ... */
  lemma MappedBlock(a: seq<byte>)
    requires V4Mapped(a)
    ensures InBlock(MAPPED, 96, a) && Masked(MAPPED, 96) == MAPPED
  {
    hide MaskByte, Grain;
    forall k | 0 <= k < 16
      ensures MaskByte(a[k], Grain(k, 96)) == MaskByte(MAPPED[k], Grain(k, 96)) == MAPPED[k]
    {
      MappedByte(a, k);
      MappedByte(MAPPED, k);
    }
  }

  /** ... so they are consecutive from the first on. */
  lemma MappedFromFirstOn(a: seq<byte>)
    requires V4Mapped(a)
    ensures Value(a, 16) >= Value(MAPPED, 16)
  {
    hide Value, Agree, Masked;
    MappedBlock(a);
    InBlockIsRange(MAPPED, 96, a);
  }

  lemma StepsInBlock(network: seq<byte>, p: nat)
    ensures 0 <= Steps(network, p) <= BlockSize(|network|, p)
    ensures Cut(network, p) ==> p < 96 && |network| == 16 && Steps(network, p) < BlockSize(|network|, p)
  {
    hide Value, Masked, BlockSize;
    if Cut(network, p) {
      InBlockIsRange(network, p, MAPPED);
      if p >= 96 {
        LongPrefixDecides(network, p, MAPPED);
      }
    }
  }

  lemma OnlyFirstHasItsValue(a: seq<byte>)
    requires |a| == 16
    ensures Value(a, 16) == Value(MAPPED, 16) ==> a == MAPPED
  {
    hide Value;
    if Value(a, 16) == Value(MAPPED, 16) {
      ValueIsUnique(a, MAPPED, 16);
      assert a == a[..16] && MAPPED == MAPPED[..16];
    }
  }

  /** Up to the last step the condition holds, and where the steps end it fails. */
  lemma ContainsUpToSteps(network: seq<byte>, p: nat, a: seq<byte>)
    requires InBlock(network, p, a)
    ensures Contains(Masked(network, p), p, a) ==> Value(a, |a|) != Value(Masked(network, p), |a|) + Steps(network, p)
    ensures Value(a, |a|) < Value(Masked(network, p), |a|) + Steps(network, p) ==> Contains(Masked(network, p), p, a)
  {
    hide Value, Agree, Masked, Contains, BlockSize;
    ContainsIffInBlock(network, p, a);
    InBlockIsRange(network, p, a);
    if Cut(network, p) {
      if V4Mapped(a) {
        MappedFromFirstOn(a);
      }
      OnlyFirstHasItsValue(a);
    } else if V4Mapped(a) && !V4Mapped(Masked(network, p)) {
      if p >= 96 {
        LongPrefixDecides(network, p, a);
      } else {
        ShortPrefixTakesAll(network, p, a, MAPPED);
      }
    }
  }

  /** The networks the loop gets: 4 or 16 bytes, and at most as many prefix bits. */
  predicate IsNetwork(network: seq<byte>, p: nat) {
    (|network| == 4 || |network| == 16) && p <= 8 * |network|
  }

  lemma ZeroPrefixIsCut(network: seq<byte>)
    requires |network| == 16
    ensures Cut(network, 0)
  {
    ShortPrefixIsNotMapped(network, 0);
    ZeroPrefixHoldsAll(network, MAPPED);
  }

  lemma WalkStep(network: seq<byte>, p: nat, a: seq<byte>, k: nat)
    requires IsNetwork(network, p) && !(|network| == 4 && p == 0) && InBlock(network, p, a)
    requires Value(a, |network|) == Value(Masked(network, p), |network|) + k && k < Steps(network, p)
    ensures var b := Next(a, |network|);
            && (k + 1 < Steps(network, p) ==>
                  && InBlock(network, p, b) && Value(b, |network|) == Value(a, |network|) + 1
                  && Contains(Masked(network, p), p, b))
            && (k + 1 == Steps(network, p) ==> !Contains(Masked(network, p), p, b))
  {
    var n, b := |network|, Next(a, |network|);
    StepsInBlock(network, p);
    hide Steps, Cut, Contains, InBlock, Next, Value, BlockSize;
    if k + 1 < BlockSize(n, p) {
      StaysInTheBlock(network, p, a);
      ContainsUpToSteps(network, p, b);
    } else {
      if p == 0 {
        ZeroPrefixIsCut(network);
      }
      LeavesTheBlock(network, p, a);
      ContainsIffInBlock(network, p, b);
    }
  }

  /** The loop over a block: it visits its addresses in ascending order from the first,
      each once, and ends after as many steps as the block has addresses, or at the
      first IPv4 address in a block of other ones. With 4 bytes and no prefix bit it never ends. */
  method ScanNetwork(network: seq<byte>, p: nat) returns (visited: seq<seq<byte>>)
    requires IsNetwork(network, p) && !(|network| == 4 && p == 0)
    ensures |visited| == Steps(network, p)
    ensures forall k :: 0 <= k < |visited| ==>
              InBlock(network, p, visited[k])
                  && Value(visited[k], |network|) == Value(Masked(network, p), |network|) + k
  {
    hide Steps, Contains, InBlock, Next, Value, BlockSize;
    var n := |network|;
    var ip := new byte[n](k requires 0 <= k < n => MaskByte(network[k], Grain(k, p)));
    var net := ip[..];
    assert net == Masked(network, p);
    StepsInBlock(network, p);
    MaskedIsInBlock(network, p);
    ContainsUpToSteps(network, p, net);
    visited := [];
    while Contains(net, p, ip[..])
      invariant |visited| <= Steps(network, p)
      invariant |visited| < Steps(network, p) <==> Contains(net, p, ip[..])
      invariant |visited| < Steps(network, p) ==>
                  InBlock(network, p, ip[..]) && Value(ip[..], n) == Value(net, n) + |visited|
      invariant forall k :: 0 <= k < |visited| ==>
                  InBlock(network, p, visited[k]) && |visited[k]| == n && Value(visited[k], n) == Value(net, n) + k
      decreases Steps(network, p) - |visited|
    {
      WalkStep(network, p, ip[..], |visited|);
      visited := visited + [ip[..]];
      IncIP(ip);
    }
  }

  /** What the loop has visited when it ends. */
  ghost predicate Walked(network: seq<byte>, p: nat, visited: seq<seq<byte>>) {
    && |visited| == Steps(network, p)
    && forall k :: 0 <= k < |visited| ==>
         InBlock(network, p, visited[k]) && Value(visited[k], |network|) == Value(Masked(network, p), |network|) + k
  }

  /** An address is among the visited exactly when it is in the block and no later than the steps reach. */
  lemma VisitedIff(network: seq<byte>, p: nat, visited: seq<seq<byte>>, a: seq<byte>)
    requires Walked(network, p, visited)
    ensures a in visited <==>
              InBlock(network, p, a) && Value(a, |network|) < Value(Masked(network, p), |network|) + Steps(network, p)
    ensures forall j, k :: 0 <= j < k < |visited| ==> visited[j] != visited[k]
  {
    var n := |network|;
    if InBlock(network, p, a) {
      InBlockIsRange(network, p, a);
      var k := Value(a, n) - Value(Masked(network, p), n);
      if k < |visited| {
        ValueIsUnique(a, visited[k], n);
        assert a == a[..n] && visited[k] == visited[k][..n];
      }
    }
  }

  /** The whole block is visited if and only if it is not one that holds IPv4 addresses among others. */
  lemma VisitsTheWholeBlockIff(network: seq<byte>, p: nat, visited: seq<seq<byte>>)
    requires Walked(network, p, visited)
    ensures (forall a :: InBlock(network, p, a) ==> a in visited) <==> !Cut(network, p)
  {
    if Cut(network, p) {
      VisitedIff(network, p, visited, MAPPED);
      StepsInBlock(network, p);
    } else {
      forall a | InBlock(network, p, a)
        ensures a in visited
      {
        VisitedIff(network, p, visited, a);
        InBlockIsRange(network, p, a);
      }
    }
  }

  /** With 4 bytes and no prefix bits the loop's condition holds of every address, so it never ends. */
  lemma ZeroPrefixNeverEnds(network: seq<byte>, a: seq<byte>)
    requires |a| == |network| == 4
    ensures Contains(Masked(network, 0), 0, a) && Contains(Masked(network, 0), 0, Next(a, |a|))
  {
    ZeroPrefixHoldsAll(network, a);
    ZeroPrefixHoldsAll(network, Next(a, |a|));
    ContainsIffInBlock(network, 0, a);
    ContainsIffInBlock(network, 0, Next(a, |a|));
  }

  lemma ZeroPrefixHoldsAll(network: seq<byte>, a: seq<byte>)
    requires |a| == |network|
    ensures InBlock(network, 0, a)
  {
    forall k | 0 <= k < |a|
      ensures MaskByte(a[k], Grain(k, 0)) == MaskByte(network[k], Grain(k, 0))
    {
      NothingUnmasked(a[k]);
      NothingUnmasked(network[k]);
    }
  }
}
