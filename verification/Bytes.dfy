/**
 Bytes, checksums and the fixed-width integer conversions shared by the two
 serial drivers and the packet encoders.
 */
module Bytes {

  type byte = b: int | 0 <= b < 256

  datatype Option<+T> = None | Some(value: T)

  /** The sum of all bytes; a frame is accepted when it is 0 modulo 256. */
  function Sum(s: seq<byte>): nat {
    if s == [] then 0 else s[0] + Sum(s[1..])
  }

  ghost predicate ChecksumOk(s: seq<byte>) {
    Sum(s) % 256 == 0
  }

  lemma {:induction false} SumAppend(a: seq<byte>, b: seq<byte>)
    ensures Sum(a + b) == Sum(a) + Sum(b)
  {
    if a == [] {
      assert a + b == b;
    } else {
      assert (a + b)[1..] == a[1..] + b;
      SumAppend(a[1..], b);
    }
  }

  lemma SumSnoc(s: seq<byte>, b: byte)
    ensures Sum(s + [b]) == Sum(s) + b
  {
    SumAppend(s, [b]);
    assert Sum([b]) == b + Sum([b][1..]);
  }

  lemma WrapTwice(a: nat, b: nat)
    ensures (a % 256 + b) % 256 == (a + b) % 256
  {
    var q := a / 256;
    assert a + b == a % 256 + b + 256 * q;
  }

  /** Replacing one byte moves the sum by the difference of the two bytes. */
  lemma SumReplace(s: seq<byte>, k: nat, b: byte)
    requires k < |s|
    ensures Sum(s[k := b]) == Sum(s) - s[k] + b
  {
    assert s == s[..k] + [s[k]] + s[k + 1..];
    assert s[k := b] == s[..k] + [b] + s[k + 1..];
    SumAppend(s[..k] + [s[k]], s[k + 1..]);
    SumSnoc(s[..k], s[k]);
    SumAppend(s[..k] + [b], s[k + 1..]);
    SumSnoc(s[..k], b);
  }

  /** The checksum catches every change of a single byte. */
  lemma OneByteChangeBreaksChecksum(s: seq<byte>, k: nat, b: byte)
    requires k < |s| && ChecksumOk(s) && b != s[k]
    ensures !ChecksumOk(s[k := b])
  {
    SumReplace(s, k, b);
  }

  /** Little-endian unsigned 16-bit value. */
  function Le16(lo: byte, hi: byte): (v: nat)
    ensures v < 0x1_0000
  {
    lo + 256 * hi
  }

  /** Little-endian unsigned 24-bit value. */
  function Le24(b0: nat, b1: nat, b2: nat): nat {
    b0 + 0x100 * b1 + 0x1_0000 * b2
  }

  function Power2(n: nat): (p: nat)
    ensures p > 0
  {
    if n == 0 then 1 else 2 * Power2(n - 1)
  }

  function Power256(n: nat): (p: nat)
    ensures p > 0
  {
    if n == 0 then 1 else 256 * Power256(n - 1)
  }

  /** The little-endian value of the first `n` bytes. */
  function LittleEndian(s: seq<byte>, n: nat): nat
    requires n <= |s|
  {
    if n == 0 then 0 else LittleEndian(s, n - 1) + s[n - 1] * Power256(n - 1)
  }

  /** The value of 16 bits read as two's complement. */
  function Signed16(v: nat): (r: int)
    requires v < 0x1_0000
    ensures -0x8000 <= r < 0x8000 && (r - v) % 0x1_0000 == 0
  {
    if v < 0x8000 then v else v - 0x1_0000
  }

  /** An integer cut down to its low 16 bits. */
  function Low16(i: int): (v: nat)
    ensures v < 0x1_0000 && (v - i) % 0x1_0000 == 0
  {
    i % 0x1_0000
  }

  lemma Signed16OfLow16(i: int)
    requires -0x8000 <= i < 0x8000
    ensures Signed16(Low16(i)) == i
  {
  }

  /** Conversion of a real to an integer, rounding towards zero. */
  function Truncate(r: real): (i: int)
    ensures r >= 0.0 ==> i as real <= r < i as real + 1.0 && i >= 0
    ensures r <= 0.0 ==> i as real - 1.0 < r <= i as real && i <= 0
  {
    if r >= 0.0 then r.Floor else -((-r).Floor)
  }

  function Clamp(v: real, lo: real, hi: real): (r: real)
    ensures lo <= hi && v <= lo ==> r == lo
    ensures lo <= hi && v >= hi ==> r == hi
    ensures lo <= v <= hi ==> r == v
  {
    if v < lo then lo else if v > hi then hi else v
  }

  lemma AppendNothing<T>(s: seq<T>)
    ensures s + [] == s && [] + s == s
  {
  }

  lemma AppendAssoc<T>(a: seq<T>, b: seq<T>, c: seq<T>)
    ensures a + b + c == a + (b + c)
  {
  }

  /** The first element put back in front. */
  lemma HeadAndTail<T>(s: seq<T>, t: seq<T>)
    requires s != []
    ensures [s[0]] + s[1..] == s
    ensures [s[0]] + (s[1..] + t) == s + t
  {
  }

  lemma ConsIs<T>(c: T, v: seq<T>, x: seq<T>)
    requires x != []
    ensures [c] + v == x <==> c == x[0] && v == x[1..]
  {
    assert x == [x[0]] + x[1..];
    assert ([c] + v)[0] == c && ([c] + v)[1..] == v;
  }

  function Flatten<T>(parts: seq<seq<T>>): seq<T> {
    if parts == [] then [] else parts[0] + Flatten(parts[1..])
  }

  lemma {:induction false} FlattenAppend<T>(a: seq<seq<T>>, b: seq<seq<T>>)
    ensures Flatten(a + b) == Flatten(a) + Flatten(b)
  {
    if a == [] {
      assert a + b == b;
    } else {
      assert (a + b)[1..] == a[1..] + b;
      FlattenAppend(a[1..], b);
    }
  }

  lemma FlattenHead<T>(parts: seq<seq<T>>, tail: seq<T>)
    requires parts != []
    ensures Flatten(parts) + tail == parts[0] + (Flatten(parts[1..]) + tail)
  {
  }

  /** `part` stands in `s` from index `i` on. */
  ghost predicate Holds<T>(s: seq<T>, i: nat, part: seq<T>) {
    i + |part| <= |s| && s[i..i + |part|] == part
  }

  lemma HoldsBoth<T>(s: seq<T>, i: nat, a: seq<T>, b: seq<T>)
    requires Holds(s, i, a + b)
    ensures Holds(s, i, a) && Holds(s, i + |a|, b)
  {
    var n := i + |a| + |b|;
    assert (a + b)[..|a|] == a && (a + b)[|a|..] == b;
    assert s[i..i + |a|] == s[i..n][..|a|];
    assert s[i + |a|..n] == s[i..n][|a|..];
  }

  lemma HoldsAt<T>(s: seq<T>, i: nat, part: seq<T>, k: nat)
    requires Holds(s, i, part) && k < |part|
    ensures i + k < |s| && s[i + k] == part[k]
  {
    assert s[i..i + |part|][k] == s[i + k];
  }

  lemma HoldsWhole<T>(s: seq<T>)
    ensures Holds(s, 0, s)
  {
    assert s[0..|s|] == s;
  }

  /** One element, then one part, then what is left. */
  lemma HoldsMarked<T>(s: seq<T>, i: nat, mark: T, a: seq<T>, b: seq<T>)
    requires Holds(s, i, [mark] + (a + b))
    ensures i < |s| && s[i] == mark && Holds(s, i + 1, a) && Holds(s, i + 1 + |a|, b)
  {
    HoldsBoth(s, i, [mark], a + b);
    HoldsAt(s, i, [mark], 0);
    HoldsBoth(s, i + 1, a, b);
  }

  /** Two marked parts, then what is left. */
  lemma HoldsTwoMarked<T>(s: seq<T>, i: nat, m: T, a: seq<T>, m': T, b: seq<T>, c: seq<T>)
    requires Holds(s, i, [m] + (a + ([m'] + (b + c))))
    ensures var (j, k) := (i + 1 + |a|, i + 2 + |a| + |b|);
            && k <= |s| && s[i] == m && Holds(s, i + 1, a) && s[j] == m' && Holds(s, j + 1, b) && Holds(s, k, c)
            && i + |[m] + (a + ([m'] + (b + c)))| == k + |c|
  {
    HoldsMarked(s, i, m, a, [m'] + (b + c));
    HoldsMarked(s, i + 1 + |a|, m', b, c);
  }

  /** The first `n` elements from `j` on, when at least as many are known to stand there. */
  lemma HoldsPart<T>(s: seq<T>, j: nat, x: seq<T>, n: nat)
    requires Holds(s, j, x) && n <= |x|
    ensures s[j..j + n] == x[..n]
  {
    assert s[j..j + n] == s[j..j + |x|][..n];
  }
}
