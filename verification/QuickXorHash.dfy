/** The streaming QuickXorHash: 1760 byte lanes folded once into a 160-bit digest. */
module QuickXorHash {
  import opened Bits

  const SIZE := 20
  const SHIFT := 11
  const WIDTH := 160
  const LANES := 1760
  const UINT64 := 0x1_0000_0000_0000_0000

  // ---------------------------------------------------------------------------
  // The published algorithm, bit by bit
  // ---------------------------------------------------------------------------

  /** Some set bit of byte `x`, taken as byte `j` of the stream, lands on digest bit `t`. */
  ghost predicate Lands(x: Byte, j: nat, t: nat) {
    exists b :: 0 <= b < 8 && (SHIFT * j + b) % WIDTH == t && Bit(x, b)
  }

  /** Parity of all the bits of `p` that land on digest bit `t`, when `p` starts at stream offset `s`. */
  ghost function StreamBit(p: seq<Byte>, s: nat, t: nat): bool {
    if p == [] then false else Lands(p[0], s, t) != StreamBit(p[1..], s + 1, t)
  }

  /** Digest bit `t` of a message: the ring parity, then the length XORed into the last 64 bits. */
  ghost predicate DigestBit(msg: seq<Byte>, t: nat) {
    StreamBit(msg, 0, t) != (t >= 96 && Bit(|msg|, t - 96))
  }

  /** Bit `t` of a byte string, least significant bit of byte 0 first. */
  predicate BitAt(h: seq<Byte>, t: nat)
    requires t < 8 * |h|
  {
    Bit(h[t / 8], t % 8)
  }

  ghost predicate IsDigest(h: seq<Byte>, msg: seq<Byte>) {
    |h| == SIZE && forall t :: 0 <= t < WIDTH ==> BitAt(h, t) == DigestBit(msg, t)
  }

  // ---------------------------------------------------------------------------
  // What Write does to the lanes
  // ---------------------------------------------------------------------------

  type Lanes = d: seq<Byte> | |d| == LANES witness seq(LANES, _ => 0)

  const ZEROES: Lanes := seq(LANES, _ => 0)

  function XorInto(d: Lanes, s: nat, p: seq<Byte>): Lanes
    decreases |p|
  {
    if p == [] then d
    else XorInto(d[s % LANES := XorByte(d[s % LANES], p[0])], s + 1, p[1..])
  }

  lemma {:induction false} XorIntoConcat(d: Lanes, s: nat, p: seq<Byte>, q: seq<Byte>)
    ensures XorInto(d, s, p + q) == XorInto(XorInto(d, s, p), s + |p|, q)
    decreases |p|
  {
    if p == [] {
      assert p + q == q;
    } else {
      assert (p + q)[1..] == p[1..] + q;
      XorIntoConcat(d[s % LANES := XorByte(d[s % LANES], p[0])], s + 1, p[1..], q);
    }
  }

  /** Only the offset modulo the number of lanes matters. */
  lemma {:induction false} XorIntoPeriodic(d: Lanes, s: nat, r: nat, p: seq<Byte>)
    requires s % LANES == r % LANES
    ensures XorInto(d, s, p) == XorInto(d, r, p)
    decreases |p|
  {
    if p != [] {
      XorIntoPeriodic(d[s % LANES := XorByte(d[s % LANES], p[0])], s + 1, r + 1, p[1..]);
    }
  }

  // ---------------------------------------------------------------------------
  // Lanes against the published algorithm
  // ---------------------------------------------------------------------------

  /** Parity of the bits of the first `n` lanes that land on digest bit `t`. */
  ghost function LaneBit(d: Lanes, n: nat, t: nat): bool
    requires n <= LANES
  {
    if n == 0 then false else LaneBit(d, n - 1, t) != Lands(d[n - 1], n - 1, t)
  }

  /** The remainder of a division by the ring width is determined by any decomposition. */
  lemma RingRemainder(a: int, q: int, r: int)
    requires a == WIDTH * q + r && 0 <= r < WIDTH
    ensures a % WIDTH == r
  {
  }

  lemma LandsAt(x: Byte, j: nat, t: nat)
    requires t < WIDTH
    ensures Lands(x, j, t) == ((t - SHIFT * j) % WIDTH < 8 && Bit(x, (t - SHIFT * j) % WIDTH))
  {
    var b := (t - SHIFT * j) % WIDTH;
    RingRemainder(SHIFT * j + b, -((t - SHIFT * j) / WIDTH), t);
    forall c | 0 <= c < 8 && (SHIFT * j + c) % WIDTH == t && Bit(x, c)
      ensures c == b
    {
      RingRemainder(t - SHIFT * j, -((SHIFT * j + c) / WIDTH), c);
    }
  }

  lemma LandsXor(x: Byte, y: Byte, j: nat, t: nat)
    requires t < WIDTH
    ensures Lands(XorByte(x, y), j, t) == (Lands(x, j, t) != Lands(y, j, t))
  {
    LandsAt(x, j, t);
    LandsAt(y, j, t);
    LandsAt(XorByte(x, y), j, t);
    XorBit(x, y, (t - SHIFT * j) % WIDTH);
  }

  lemma LandsPeriodic(x: Byte, j: nat, t: nat)
    requires t < WIDTH
    ensures Lands(x, j % LANES, t) == Lands(x, j, t)
  {
    LandsAt(x, j, t);
    LandsAt(x, j % LANES, t);
    var a := t - SHIFT * (j % LANES);
    RingRemainder(t - SHIFT * j, a / WIDTH - 121 * (j / LANES), a % WIDTH);
  }

  lemma LandsZero(j: nat, t: nat)
    ensures !Lands(0, j, t)
  {
    forall b | 0 <= b < 8
      ensures !Bit(0, b)
    {
      ZeroBit(b);
    }
  }

  lemma {:induction false} LaneBitUpdate(d: Lanes, l: nat, x: Byte, n: nat, t: nat)
    requires l < LANES && n <= LANES && t < WIDTH
    ensures LaneBit(d[l := XorByte(d[l], x)], n, t) == (LaneBit(d, n, t) != (l < n && Lands(x, l, t)))
    decreases n
  {
    if n > 0 {
      LaneBitUpdate(d, l, x, n - 1, t);
      if l == n - 1 {
        LandsXor(d[l], x, l, t);
      }
    }
  }

  lemma {:induction false} LaneBitOfStream(d: Lanes, s: nat, p: seq<Byte>, t: nat)
    requires t < WIDTH
    ensures LaneBit(XorInto(d, s, p), LANES, t) == (LaneBit(d, LANES, t) != StreamBit(p, s, t))
    decreases |p|
  {
    if p != [] {
      var l := s % LANES;
      LaneBitOfStream(d[l := XorByte(d[l], p[0])], s + 1, p[1..], t);
      LaneBitUpdate(d, l, p[0], LANES, t);
      LandsPeriodic(p[0], s, t);
    }
  }

  lemma {:induction false} LaneBitZeroes(n: nat, t: nat)
    requires n <= LANES
    ensures !LaneBit(ZEROES, n, t)
    decreases n
  {
    if n > 0 {
      LaneBitZeroes(n - 1, t);
      LandsZero(n - 1, t);
    }
  }

  /** Folding the lanes of a whole message gives the ring parity of the published algorithm. */
  lemma LanesMatchReference(msg: seq<Byte>, t: nat)
    requires t < WIDTH
    ensures LaneBit(XorInto(ZEROES, 0, msg), LANES, t) == StreamBit(msg, 0, t)
  {
    LaneBitOfStream(ZEROES, 0, msg, t);
    LaneBitZeroes(LANES, t);
  }

  // ---------------------------------------------------------------------------
  // The 21-byte accumulator of checkSum
  // ---------------------------------------------------------------------------

  /** What lane `i` holding `x` contributes to bit `t` of the unfolded accumulator. */
  predicate RawLands(x: Byte, i: nat, t: nat) {
    var s := (i * 11) % 160;
    s <= t < s + 8 && Bit(x, t - s)
  }

  ghost function RawBit(d: Lanes, n: nat, t: nat): bool
    requires n <= LANES
  {
    if n == 0 then false else RawBit(d, n - 1, t) != RawLands(d[n - 1], n - 1, t)
  }

  /** Adding byte 20 into byte 0 closes the ring. */
  lemma {:induction false} RawBitFolds(d: Lanes, n: nat, t: nat)
    requires n <= LANES && t < WIDTH
    ensures (RawBit(d, n, t) != (t < 8 && RawBit(d, n, t + WIDTH))) == LaneBit(d, n, t)
    decreases n
  {
    if n > 0 {
      RawBitFolds(d, n - 1, t);
      RawLandsFolds(d[n - 1], n - 1, t);
    }
  }

  lemma RawLandsFolds(x: Byte, i: nat, t: nat)
    requires t < WIDTH
    ensures (RawLands(x, i, t) != (t < 8 && RawLands(x, i, t + WIDTH))) == Lands(x, i, t)
  {
    LandsAt(x, i, t);
    var q, s := (i * 11) / 160, (i * 11) % 160;
    if s <= t {
      RingRemainder(t - SHIFT * i, -q, t - s);
    } else {
      RingRemainder(t - SHIFT * i, -q - 1, t - s + WIDTH);
    }
  }

  /** A byte shifted by `c` bits and XORed into accumulator bytes `k` and `k + 1`. */
  lemma AddShifted(h: seq<Byte>, h': seq<Byte>, x: Byte, k: nat, c: nat, t: nat)
    requires |h| == |h'| == SIZE + 1 && t < 8 * (SIZE + 1) && k < SIZE && c < 8
    requires h' == h[k := XorByte(h[k], LowByte(Shl(x, c)))]
                    [k + 1 := XorByte(h[k + 1], LowByte(Shr(Shl(x, c), 8)))]
    ensures BitAt(h', t) == (BitAt(h, t) != (8 * k + c <= t < 8 * k + c + 8 && Bit(x, t - (8 * k + c))))
  {
    var shifted, r := Shl(x, c), t % 8;
    if t / 8 == k {
      XorBit(h[k], LowByte(shifted), r);
      LowByteBit(shifted, r);
      ShlBit(x, c, r);
    } else if t / 8 == k + 1 {
      XorBit(h[k + 1], LowByte(Shr(shifted, 8)), r);
      LowByteBit(Shr(shifted, 8), r);
      ShrBit(shifted, 8, r);
      ShlBit(x, c, 8 + r);
      if r >= c {
        HighBit(x, 8, 8 + r - c);
      }
    }
  }

  /** One byte of the length XORed into byte 12 + i. */
  lemma AddLengthByte(h: seq<Byte>, h': seq<Byte>, size: nat, i: nat, t: nat)
    requires |h| == |h'| == SIZE + 1 && t < WIDTH && i < 8
    requires h' == h[SIZE - 8 + i := XorByte(h[SIZE - 8 + i], LowByte(Shr(size, 8 * i)))]
    ensures BitAt(h', t) == (BitAt(h, t) != (96 + 8 * i <= t < 104 + 8 * i && Bit(size, t - 96)))
  {
    if t / 8 == SIZE - 8 + i {
      XorBit(h[t / 8], LowByte(Shr(size, 8 * i)), t % 8);
      LowByteBit(Shr(size, 8 * i), t % 8);
      ShrBit(size, 8 * i, t % 8);
      assert 8 * i + t % 8 == t - 96;
    }
  }

  /** Bit `t` of the digest computed from the state of a running hash. */
  ghost predicate StateBit(d: Lanes, size: nat, t: nat) {
    LaneBit(d, LANES, t) != (t >= 96 && Bit(size, t - 96))
  }

  /** The wrapped length points at the same lane as the true one; always so below 2^64. */
  predicate Aligned(n: nat) {
    n % UINT64 % LANES == n % LANES
  }

  lemma LengthWraps(a: nat, b: nat)
    ensures (a % UINT64 + b) % UINT64 == (a + b) % UINT64
  {
  }

  /** The 64 bits of the length that are used do not notice that it wraps. */
  lemma LengthBit(n: nat, k: nat)
    requires k < 64
    ensures Bit(n % UINT64, k) == Bit(n, k)
  {
    hide Shl, Bit;
    LowBitsBit(n, 64, k);
    TwoTo64();
  }

  lemma TwoTo16()
    ensures Shl(1, 16) == 0x1_0000
  {
    assert Shl(1, 2) == 4 && Shl(1, 4) == 16;
    ShlSum(1, 4, 4);
    ShlTimes(16, 4);
    ShlSum(1, 8, 8);
    ShlTimes(256, 8);
  }

  lemma TwoTo64()
    ensures Shl(1, 64) == UINT64
  {
    hide Shl;
    TwoTo16();
    ShlSum(1, 16, 16);
    ShlTimes(0x1_0000, 16);
    assert Shl(1, 32) == 0x1_0000_0000;
    ShlSum(1, 32, 32);
    ShlTimes(0x1_0000_0000, 32);
  }

  class Hash {
    const data: array<Byte>
    var size: nat

    ghost predicate Valid()
      reads this, data
    {
      data.Length == LANES && size < UINT64
    }

    /** Lanes and length, which counts modulo 2^64, are those of one message, written in any way at all. */
    ghost predicate Holds(msg: seq<Byte>)
      reads this, data
    {
      Valid() && size == |msg| % UINT64 && data[..] == XorInto(ZEROES, 0, msg)
    }

    constructor ()
      ensures Holds([]) && fresh(data)
    {
      data := new Byte[LANES](_ => 0);
      size := 0;
      new;
      assert data[..] == ZEROES;
    }

    /** XORs as much of `src` as fits into the lanes from `lo` on. */
    method XorBytes(lo: nat, src: seq<Byte>) returns (n: nat)
      requires data.Length == LANES && lo < LANES
      modifies data
      ensures n == if |src| <= LANES - lo then |src| else LANES - lo
      ensures data[..] == XorInto(old(data[..]), lo, src[..n])
    {
      n := if |src| <= LANES - lo then |src| else LANES - lo;
      for i := 0 to n
        invariant data[..] == XorInto(old(data[..]), lo, src[..i])
      {
        ghost var was: Lanes := data[..];
        data[lo + i] := XorByte(data[lo + i], src[i]);
        assert src[..i + 1] == src[..i] + [src[i]];
        XorIntoConcat(old(data[..]), lo, src[..i], [src[i]]);
        assert data[..] == was[lo + i := XorByte(was[lo + i], src[i])];
        assert XorInto(was, lo + i, [src[i]]) == data[..];
      }
    }

    method Write(p: seq<Byte>) returns (n: nat)
      requires Valid()
      modifies this, data
      ensures Valid() && n == |p|
      ensures data[..] == XorInto(old(data[..]), old(size), p)
      ensures size == (old(size) + |p|) % UINT64
      ensures forall msg :: old(Holds(msg)) && Aligned(|msg|) ==> Holds(msg + p)
    {
      FillLanes(p);
      ghost var d1: Lanes := data[..];
      size := (size + |p|) % UINT64;
      assert data[..] == d1;
      n := |p|;
      forall msg | old(Holds(msg)) && Aligned(|msg|)
        ensures Holds(msg + p)
      {
        XorIntoConcat(ZEROES, 0, msg, p);
        XorIntoPeriodic(old(data[..]), old(size), |msg|, p);
        LengthWraps(|msg|, |p|);
      }
    }

    /** The passes of one Write over the lanes, before the length is advanced. */
    method FillLanes(p: seq<Byte>)
      requires data.Length == LANES
      modifies data
      ensures data[..] == XorInto(old(data[..]), size, p)
    {
      ghost var d0: Lanes := data[..];
      var i := FillRemainder(p);
      if i != |p| {
        while |p| - i >= LANES
          invariant i <= |p| && (size + i) % LANES == 0
          invariant data[..] == XorInto(d0, size, p[..i])
        {
          i := FillFrom(p, i, d0);
        }
        i := FillFrom(p, i, d0);
      }
      assert p[..i] == p;
    }

    /** Completes the pass over the lanes that the previous write left unfinished. */
    method FillRemainder(p: seq<Byte>) returns (i: nat)
      requires data.Length == LANES
      modifies data
      ensures i <= |p| && (i == |p| || (size + i) % LANES == 0)
      ensures data[..] == XorInto(old(data[..]), size, p[..i])
    {
      i := 0;
      var lastRemain := size % LANES;
      if lastRemain != 0 {
        i := XorBytes(lastRemain, p);
        XorIntoPeriodic(old(data[..]), size, lastRemain, p[..i]);
      }
    }

    /** One pass over the lanes from lane 0, inside a Write that has consumed `i` bytes of `p`. */
    method FillFrom(p: seq<Byte>, i: nat, ghost d0: Lanes) returns (k: nat)
      requires data.Length == LANES && i <= |p| && (size + i) % LANES == 0
      requires data[..] == XorInto(d0, size, p[..i])
      modifies data
      ensures |p| - i < LANES ==> k == |p|
      ensures |p| - i >= LANES ==> k == i + LANES && (size + k) % LANES == 0
      ensures data[..] == XorInto(d0, size, p[..k])
    {
      ghost var was: Lanes := data[..];
      k := XorBytes(0, p[i..]);
      k := i + k;
      Continue(d0, was, size, p, i, k);
    }

    static lemma Continue(d0: Lanes, was: Lanes, size: nat, p: seq<Byte>, i: nat, k: nat)
      requires i <= k <= |p| && (size + i) % LANES == 0
      requires was == XorInto(d0, size, p[..i])
      ensures XorInto(was, 0, p[i..][..k - i]) == XorInto(d0, size, p[..k])
    {
      assert p[..k] == p[..i] + p[i..k];
      assert p[i..][..k - i] == p[i..k];
      XorIntoConcat(d0, size, p[..i], p[i..k]);
      XorIntoPeriodic(was, size + i, 0, p[i..k]);
    }

    method CheckSum() returns (h: array<Byte>)
      requires Valid()
      ensures fresh(h) && h.Length == SIZE + 1
      ensures forall t :: 0 <= t < WIDTH ==> BitAt(h[..], t) == StateBit(data[..], size, t)
    {
      h := new Byte[SIZE + 1](_ => 0);
      forall t | 0 <= t < 8 * (SIZE + 1)
        ensures !BitAt(h[..], t)
      {
        ZeroBit(t % 8);
      }
      for i := 0 to LANES
        invariant fresh(h)
        invariant forall t :: 0 <= t < 8 * (SIZE + 1) ==> BitAt(h[..], t) == RawBit(data[..], i, t)
      {
        ghost var was := h[..];
        var shift := (i * 11) % 160;
        var shiftBytes := shift / 8;
        var shifted := Shl(data[i], shift % 8);
        h[shiftBytes] := XorByte(h[shiftBytes], LowByte(shifted));
        h[shiftBytes + 1] := XorByte(h[shiftBytes + 1], LowByte(Shr(shifted, 8)));
        forall t | 0 <= t < 8 * (SIZE + 1)
          ensures BitAt(h[..], t) == RawBit(data[..], i + 1, t)
        {
          AddShifted(was, h[..], data[i], shiftBytes, shift % 8, t);
        }
      }
      ghost var raw := h[..];
      h[0] := XorByte(h[0], h[20]);
      forall t | 0 <= t < WIDTH
        ensures BitAt(h[..], t) == LaneBit(data[..], LANES, t)
      {
        RawBitFolds(data[..], LANES, t);
        assert BitAt(raw, t) == RawBit(data[..], LANES, t);
        if t < 8 {
          XorBit(raw[0], raw[20], t);
          assert BitAt(raw, t + WIDTH) == RawBit(data[..], LANES, t + WIDTH);
        }
      }
      for i := 0 to 8
        invariant fresh(h)
        invariant forall t :: 0 <= t < WIDTH ==>
          BitAt(h[..], t) == (LaneBit(data[..], LANES, t) != (96 <= t < 96 + 8 * i && Bit(size, t - 96)))
      {
        ghost var was := h[..];
        h[SIZE - 8 + i] := XorByte(h[SIZE - 8 + i], LowByte(Shr(size, 8 * i)));
        forall t | 0 <= t < WIDTH
          ensures BitAt(h[..], t) == (LaneBit(data[..], LANES, t) != (96 <= t < 104 + 8 * i && Bit(size, t - 96)))
        {
          AddLengthByte(was, h[..], size, i, t);
        }
      }
    }

    /** Appends the digest of everything written so far to `b`; the hash itself is untouched. */
    method Sum(b: seq<Byte>) returns (r: seq<Byte>)
      requires Valid()
      ensures |r| == |b| + SIZE && r[..|b|] == b
      ensures forall msg :: Holds(msg) ==> IsDigest(r[|b|..], msg)
    {
      var h := CheckSum();
      r := b + h[..SIZE];
      var digest := h[..SIZE];
      assert r[|b|..] == digest;
      forall msg | Holds(msg)
        ensures IsDigest(digest, msg)
      {
        forall t | 0 <= t < WIDTH
          ensures BitAt(digest, t) == DigestBit(msg, t)
        {
          assert BitAt(digest, t) == BitAt(h[..], t);
          LanesMatchReference(msg, t);
          if t >= 96 {
            LengthBit(|msg|, t - 96);
          }
        }
      }
    }

    method Reset()
      requires Valid()
      modifies this, data
      ensures Holds([])
    {
      size := 0;
      forall i | 0 <= i < data.Length {
        data[i] := 0;
      }
      assert data[..] == ZEROES;
    }
  }

  /** The package-level one-shot hash computes the published digest of every message. */
  method SumMessage(msg: seq<Byte>) returns (h: seq<Byte>)
    ensures IsDigest(h, msg)
  {
    var q := new Hash();
    assert [] + msg == msg;
    var _ := q.Write(msg);
    h := q.Sum([]);
    assert h[0..] == h;
  }

  function Concat(chunks: seq<seq<Byte>>): seq<Byte> {
    if chunks == [] then [] else Concat(chunks[..|chunks| - 1]) + chunks[|chunks| - 1]
  }

  /** No write up to the `k`-th starts where the wrapped length has lost its lane. */
  ghost predicate AlignedUpTo(chunks: seq<seq<Byte>>, k: nat)
    requires k <= |chunks|
  {
    forall i :: 0 <= i < k ==> Aligned(|Concat(chunks[..i])|)
  }

  /**
   * However a message is cut into writes, and with a digest read off after every write, each reading
   * is the digest of the bytes written until then, as long as writes start in their true lanes. They
   * all do in a stream of fewer than 2^64 bytes.
   */
  method SumAfterEachWrite(chunks: seq<seq<Byte>>) returns (sums: seq<seq<Byte>>)
    ensures |sums| == |chunks|
    ensures forall k :: 0 <= k < |chunks| && AlignedUpTo(chunks, k + 1) ==> IsDigest(sums[k], Concat(chunks[..k + 1]))
    ensures |Concat(chunks)| < UINT64 ==> AlignedUpTo(chunks, |chunks|)
  {
    var q := new Hash();
    sums := [];
    for i := 0 to |chunks|
      invariant |sums| == i && fresh(q) && fresh(q.data) && q.Valid()
      invariant AlignedUpTo(chunks, i) ==> q.Holds(Concat(chunks[..i]))
      invariant forall k :: 0 <= k < i && AlignedUpTo(chunks, k + 1) ==> IsDigest(sums[k], Concat(chunks[..k + 1]))
    {
      assert chunks[..i + 1][..i] == chunks[..i];
      var _ := q.Write(chunks[i]);
      var s := q.Sum([]);
      assert AlignedUpTo(chunks, i + 1) ==> q.Holds(Concat(chunks[..i + 1]));
      assert s[0..] == s;
      sums := sums + [s];
    }
    if |Concat(chunks)| < UINT64 {
      forall i | 0 <= i < |chunks|
        ensures Aligned(|Concat(chunks[..i])|)
      {
        ConcatLength(chunks, i);
      }
    }
  }

  lemma {:induction false} ConcatLength(chunks: seq<seq<Byte>>, i: nat)
    requires i <= |chunks|
    ensures |Concat(chunks[..i])| <= |Concat(chunks)|
    decreases |chunks|
  {
    if i < |chunks| {
      var front := chunks[..|chunks| - 1];
      assert front[..i] == chunks[..i];
      ConcatLength(front, i);
    } else {
      assert chunks[..i] == chunks;
    }
  }

  // ---------------------------------------------------------------------------
  // What the digest detects
  // ---------------------------------------------------------------------------

  lemma {:induction false} SameContributions(p: seq<Byte>, q: seq<Byte>, s: nat, t: nat)
    requires |p| == |q|
    requires forall i :: 0 <= i < |p| ==> Lands(p[i], s + i, t) == Lands(q[i], s + i, t)
    ensures StreamBit(p, s, t) == StreamBit(q, s, t)
    decreases |p|
  {
    if p != [] {
      assert Lands(p[0], s + 0, t) == Lands(q[0], s + 0, t);
      forall i | 0 <= i < |p[1..]|
        ensures Lands(p[1..][i], s + 1 + i, t) == Lands(q[1..][i], s + 1 + i, t)
      {
        assert Lands(p[i + 1], s + (i + 1), t) == Lands(q[i + 1], s + (i + 1), t);
      }
      SameContributions(p[1..], q[1..], s + 1, t);
    }
  }

  lemma {:induction false} StreamBitConcat(p: seq<Byte>, q: seq<Byte>, s: nat, t: nat)
    ensures StreamBit(p + q, s, t) == (StreamBit(p, s, t) != StreamBit(q, s + |p|, t))
    decreases |p|
  {
    if p == [] {
      assert p + q == q;
    } else {
      assert (p + q)[1..] == p[1..] + q;
      StreamBitConcat(p[1..], q, s + 1, t);
    }
  }

  /** Two offsets less than 14 bytes apart never share a digest bit. */
  lemma OffsetsApart(x: Byte, i: nat, k: nat, b: nat)
    requires i != k && b < 8 && -14 < i - k < 14
    ensures !Lands(x, i, (SHIFT * k + b) % WIDTH)
  {
    var q, t := (SHIFT * k + b) / WIDTH, (SHIFT * k + b) % WIDTH;
    LandsAt(x, i, t);
    var r := b + SHIFT * (k - i);
    if i < k {
      RingRemainder(t - SHIFT * i, -q, r);
    } else {
      RingRemainder(t - SHIFT * i, -q - 1, r + WIDTH);
    }
  }

  /** Any change confined to a window of 14 consecutive bytes changes the digest. */
  lemma WindowChangeDetected(p: seq<Byte>, q: seq<Byte>, w: nat) returns (t: nat)
    requires |p| == |q| && p != q
    requires forall i :: 0 <= i < |p| && !(w <= i < w + 14) ==> p[i] == q[i]
    ensures t < WIDTH && DigestBit(p, t) != DigestBit(q, t)
  {
    var k :| 0 <= k < |p| && p[k] != q[k];
    var b := DifferingBit(p[k], q[k], 8);
    t := (SHIFT * k + b) % WIDTH;
    forall i | 0 <= i < |p| && i != k
      ensures Lands(p[i], i, t) == Lands(q[i], i, t)
    {
      if w <= i < w + 14 {
        OffsetsApart(p[i], i, k, b);
        OffsetsApart(q[i], i, k, b);
      }
    }
    LandsAtOwnBit(p[k], k, b);
    LandsAtOwnBit(q[k], k, b);
    OneDifference(p, q, k, t);
  }

  /** Hence two messages of one length that differ only inside such a window never share a digest. */
  lemma WindowDigestsDiffer(p: seq<Byte>, q: seq<Byte>, w: nat, g: seq<Byte>, h: seq<Byte>)
    requires |p| == |q| && p != q && IsDigest(g, p) && IsDigest(h, q)
    requires forall i :: 0 <= i < |p| && !(w <= i < w + 14) ==> p[i] == q[i]
    ensures g != h
  {
    var t := WindowChangeDetected(p, q, w);
    assert BitAt(g, t) != BitAt(h, t);
  }

  lemma LandsAtOwnBit(x: Byte, k: nat, b: nat)
    requires b < 8
    ensures Lands(x, k, (SHIFT * k + b) % WIDTH) == Bit(x, b)
  {
    var t := (SHIFT * k + b) % WIDTH;
    LandsAt(x, k, t);
    RingRemainder(t - SHIFT * k, -((SHIFT * k + b) / WIDTH), b);
  }

  lemma OneDifference(p: seq<Byte>, q: seq<Byte>, k: nat, t: nat)
    requires |p| == |q| && k < |p|
    requires forall i :: 0 <= i < |p| && i != k ==> Lands(p[i], i, t) == Lands(q[i], i, t)
    requires Lands(p[k], k, t) != Lands(q[k], k, t)
    ensures StreamBit(p, 0, t) != StreamBit(q, 0, t)
  {
    SplitAt(p, k, t);
    SplitAt(q, k, t);
    SameContributions(p[..k], q[..k], 0, t);
    var p', q' := p[k + 1..], q[k + 1..];
    forall i | 0 <= i < |p'|
      ensures Lands(p'[i], k + 1 + i, t) == Lands(q'[i], k + 1 + i, t)
    {
      var j := k + 1 + i;
      assert p'[i] == p[j] && q'[i] == q[j];
    }
    SameContributions(p', q', k + 1, t);
  }

  lemma SplitAt(p: seq<Byte>, k: nat, t: nat)
    requires k < |p|
    ensures StreamBit(p, 0, t) ==
            ((StreamBit(p[..k], 0, t) != Lands(p[k], k, t)) != StreamBit(p[k + 1..], k + 1, t))
  {
    assert p == p[..k] + p[k..];
    StreamBitConcat(p[..k], p[k..], 0, t);
    assert p[k..][1..] == p[k + 1..];
  }

  /** A message has one digest, so the digests of two messages differ as soon as one bit does. */
  lemma DigestUnique(g: seq<Byte>, h: seq<Byte>, msg: seq<Byte>)
    requires IsDigest(g, msg) && IsDigest(h, msg)
    ensures g == h
  {
    forall i | 0 <= i < SIZE
      ensures g[i] == h[i]
    {
      forall b | 0 <= b < 8
        ensures Bit(g[i], b) == Bit(h[i], b)
      {
        assert BitAt(g, 8 * i + b) == BitAt(h, 8 * i + b);
      }
      EqualBits(g[i], h[i], 8);
    }
  }

  /**
   * Fourteen is the best possible: flipping bit 0 of one byte and bit 6 of the byte 14 places further
   * on goes unnoticed, wherever in a message it happens.
   */
  lemma WindowOfFifteenCollides(before: seq<Byte>, mid: seq<Byte>, after: seq<Byte>, h: seq<Byte>)
    requires |mid| == 13
    ensures var p := before + [1] + mid + [0] + after;
            var q := before + [0] + mid + [64] + after;
            |p| == |q| && p != q && (IsDigest(h, p) <==> IsDigest(h, q))
  {
    var p := before + [1] + mid + [0] + after;
    var q := before + [0] + mid + [64] + after;
    assert p[|before|] == 1 && q[|before|] == 0;
    forall t | 0 <= t < WIDTH
      ensures DigestBit(p, t) == DigestBit(q, t)
    {
      SameBit(before, mid, after, t);
    }
  }

  lemma SameBit(before: seq<Byte>, mid: seq<Byte>, after: seq<Byte>, t: nat)
    requires |mid| == 13 && t < WIDTH
    ensures DigestBit(before + [1] + mid + [0] + after, t) == DigestBit(before + [0] + mid + [64] + after, t)
  {
    var n := |before|;
    TwoByteStream(before, 1, mid, 0, after, t);
    TwoByteStream(before, 0, mid, 64, after, t);
    LandsZero(n, t);
    LandsZero(n + 14, t);
    SingleBits(n, t);
  }

  lemma TwoByteStream(before: seq<Byte>, x: Byte, mid: seq<Byte>, y: Byte, after: seq<Byte>, t: nat)
    requires |mid| == 13
    ensures var n := |before|;
            StreamBit(before + [x] + mid + [y] + after, 0, t) ==
            ((((StreamBit(before, 0, t) != Lands(x, n, t)) != StreamBit(mid, n + 1, t))
              != Lands(y, n + 14, t)) != StreamBit(after, n + 15, t))
  {
    StreamBitConcat(before, [x], 0, t);
    StreamBitConcat(before + [x], mid, 0, t);
    StreamBitConcat(before + [x] + mid, [y], 0, t);
    StreamBitConcat(before + [x] + mid + [y], after, 0, t);
  }

  lemma SingleBits(n: nat, t: nat)
    requires t < WIDTH
    ensures Lands(1, n, t) == Lands(64, n + 14, t)
  {
    LandsAt(1, n, t);
    LandsAt(64, n + 14, t);
    var b, c := (t - SHIFT * n) % WIDTH, (t - SHIFT * (n + 14)) % WIDTH;
    var q := (t - SHIFT * n) / WIDTH;
    if b + 6 < WIDTH {
      RingRemainder(t - SHIFT * (n + 14), q - 1, b + 6);
    } else {
      RingRemainder(t - SHIFT * (n + 14), q, b + 6 - WIDTH);
    }
    if b < 8 {
      BitsOfOneAnd64(b);
    }
    if c < 8 {
      BitsOfOneAnd64(c);
    }
  }

  lemma BitsOfOneAnd64(k: nat)
    requires k < 8
    ensures Bit(1, k) == (k == 0) && Bit(64, k) == (k == 6)
  {
    ShlBit(1, 6, k);
    assert Shl(1, 6) == 64;
    if k > 0 {
      ZeroBit(k - 1);
    }
    if k > 6 {
      ZeroBit(k - 7);
    }
  }
}
