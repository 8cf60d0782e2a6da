/**
 * The order in which a sweep visits the addresses around its origin
 * (PortSweeper.handleScan): the last byte moves outward by 1, 2, ..., 127,
 * first down then up, modulo 256, skipping a last byte of 0.
 */
module AddressSequencer {
  import opened JavaInts

  /** An IP address as the bytes of a Java `byte[]`. */
  type Address = seq<byte>

  const MaxDelta := 127

  /** The last byte as the source computes it: `(256 + start + sign * delta) % 256`. */
  function SourceCandidate(last: byte, delta: int, sign: int): int
  {
    JavaRem256(256 + ToSigned(last) + sign * delta)
  }

  /** The byte `delta` steps from `u` in direction `sign`, on the ring of 256 values. */
  function Candidate(u: byte, delta: int, sign: int): byte
  {
    (u + sign * delta) % 256
  }

  /** How far `b` lies from `u` around the ring of 256 byte values. */
  function Dist(u: byte, b: byte): (d: int)
    ensures 0 <= d <= 128
    ensures d == 0 <==> b == u
  {
    var p := (b - u) % 256;
    if p <= 128 then p else 256 - p
  }

  /** The candidate emitted, or nothing when it is the skipped byte 0. */
  function Emit(b: byte): seq<byte>
  {
    if b == 0 then [] else [b]
  }

  /** What one value of `delta` contributes: the `sign = -1` candidate, then `sign = +1`. */
  function Pair(u: byte, delta: int): seq<byte>
  {
    Emit(Candidate(u, delta, -1)) + Emit(Candidate(u, delta, 1))
  }

  /** The last bytes emitted for the deltas 1 .. d-1, in emission order. */
  function LastBytesBelow(u: byte, d: nat): seq<byte>
    requires d <= MaxDelta + 1
  {
    if d <= 1 then [] else LastBytesBelow(u, d - 1) + Pair(u, d - 1)
  }

  /** Every last byte a scan around `u` emits, in emission order. */
  function LastBytes(u: byte): seq<byte>
  {
    LastBytesBelow(u, MaxDelta + 1)
  }

  /** `origin` with its last byte replaced by `b` (the clone at lines 136-137). */
  function WithLast(origin: Address, b: byte): Address
    requires |origin| > 0
  {
    origin[..|origin| - 1] + [b]
  }

  /** One address per last byte in `bs`, in the same order. */
  function Retarget(origin: Address, bs: seq<byte>): seq<Address>
    requires |origin| > 0
  {
    seq(|bs|, i requires 0 <= i < |bs| => WithLast(origin, bs[i]))
  }

  /** The addresses a scan of `origin` appends to the address queue, in order. */
  function ScanList(origin: Address): (r: seq<Address>)
    requires |origin| > 0
    ensures |r| <= 254
  {
    LastBytesCount(origin[|origin| - 1]);
    Retarget(origin, LastBytes(origin[|origin| - 1]))
  }

  /** The number of skipped deltas is at most one: the delta whose candidate is 0, or 0 for none. */
  function SkippedDelta(u: byte): nat
  {
    if u == 0 || u == 128 then 0 else if u < 128 then u else 256 - u
  }

  // ---------------------------------------------------------------------------
  // Arithmetic of one candidate

  /** The source's signed computation agrees with the ring arithmetic. */
  lemma SourceCandidateIsCandidate(u: byte, delta: int, sign: int)
    requires 1 <= delta <= MaxDelta && (sign == -1 || sign == 1)
    ensures SourceCandidate(u, delta, sign) == Candidate(u, delta, sign)
  {
    var a := 256 + ToSigned(u) + sign * delta;
    assert 1 <= a;
    assert ToSigned(u) == u || ToSigned(u) == u - 256;
    assert a % 256 == (u + sign * delta) % 256;
  }

  /** The candidate for `delta` and either sign lies exactly `delta` away. */
  lemma CandidateDist(u: byte, delta: int, sign: int)
    requires 1 <= delta <= MaxDelta && (sign == -1 || sign == 1)
    ensures Dist(u, Candidate(u, delta, sign)) == delta
  {
    var c := Candidate(u, delta, sign);
    if sign == 1 {
      assert c == u + delta || c == u + delta - 256;
      assert (c - u) % 256 == delta;
    } else {
      assert c == u - delta || c == u - delta + 256;
      assert (c - u) % 256 == 256 - delta;
    }
  }

  /** The two candidates of one delta differ. */
  lemma PairDistinct(u: byte, delta: int)
    requires 1 <= delta <= MaxDelta
    ensures Candidate(u, delta, -1) != Candidate(u, delta, 1)
  {
    var lo, hi := Candidate(u, delta, -1), Candidate(u, delta, 1);
    assert lo == u - delta || lo == u - delta + 256;
    assert hi == u + delta || hi == u + delta - 256;
  }

  /** Exactly one delta (`SkippedDelta`) loses a candidate to the byte-0 skip, unless u is 0 or 128. */
  lemma PairLength(u: byte, delta: int)
    requires 1 <= delta <= MaxDelta
    ensures |Pair(u, delta)| == if delta == SkippedDelta(u) then 1 else 2
  {
    var lo, hi := Candidate(u, delta, -1), Candidate(u, delta, 1);
    assert lo == u - delta || lo == u - delta + 256;
    assert hi == u + delta || hi == u + delta - 256;
    assert lo == 0 <==> u == delta;
    assert hi == 0 <==> u + delta == 256;
  }

  /** A byte at distance d in 1..127 from u is one of the two candidates of delta d. */
  lemma CandidateOfDist(u: byte, b: byte)
    requires 1 <= Dist(u, b) <= MaxDelta
    ensures b == Candidate(u, Dist(u, b), -1) || b == Candidate(u, Dist(u, b), 1)
  {
    var p := (b - u) % 256;
    assert b - u == p || b - u == p - 256;
    if p <= 128 {
      assert b == (u + p) % 256;
    } else {
      assert b == (u - (256 - p)) % 256;
    }
  }

  /** The byte opposite u on the ring lies at distance 128. */
  lemma OppositeDist(u: byte)
    ensures Dist(u, (u + 128) % 256) == 128
  {
    var o := (u + 128) % 256;
    assert o == u + 128 || o == u - 128;
  }

  // ---------------------------------------------------------------------------
  // The emitted sequence

  /** The emission order grows by appending: a shorter run is a prefix of a longer one. */
  lemma {:induction false} BelowPrefix(u: byte, d: nat, e: nat)
    requires d <= e <= MaxDelta + 1
    ensures LastBytesBelow(u, d) <= LastBytesBelow(u, e)
  {
    if d < e {
      BelowPrefix(u, d, e - 1);
    }
  }

  /** Every byte emitted for the deltas below d is non-zero and 1 .. d-1 away from u. */
  lemma {:induction false} BelowInRange(u: byte, d: nat)
    requires d <= MaxDelta + 1
    ensures forall i :: 0 <= i < |LastBytesBelow(u, d)| ==>
              LastBytesBelow(u, d)[i] != 0 && 1 <= Dist(u, LastBytesBelow(u, d)[i]) < d
  {
    if d > 1 {
      BelowInRange(u, d - 1);
      var prev, p := LastBytesBelow(u, d - 1), Pair(u, d - 1);
      assert LastBytesBelow(u, d) == prev + p;
      forall i | 0 <= i < |p|
        ensures p[i] != 0 && Dist(u, p[i]) == d - 1
      {
        PairMembers(u, d - 1, p[i]);
      }
    }
  }

  /**
   * `x` may be emitted before `y`: it is strictly closer to u, or both lie at
   * the same distance and `x` is the `sign = -1` candidate, `y` the `sign = +1` one.
   */
  predicate EmittedBefore(u: byte, x: byte, y: byte)
  {
    Dist(u, x) < Dist(u, y) ||
    (Dist(u, x) == Dist(u, y) && x == Candidate(u, Dist(u, x), -1) && y == Candidate(u, Dist(u, y), 1))
  }

  /** Emission order: every byte is emitted before every later one in the sense of EmittedBefore. */
  lemma {:induction false} BelowOrdered(u: byte, d: nat)
    requires d <= MaxDelta + 1
    ensures forall i, j :: 0 <= i < j < |LastBytesBelow(u, d)| ==>
              EmittedBefore(u, LastBytesBelow(u, d)[i], LastBytesBelow(u, d)[j])
  {
    if d > 1 {
      BelowOrdered(u, d - 1);
      BelowInRange(u, d - 1);
      var prev, p := LastBytesBelow(u, d - 1), Pair(u, d - 1);
      var all := LastBytesBelow(u, d);
      assert all == prev + p;
      forall i, j | 0 <= i < j < |all|
        ensures EmittedBefore(u, all[i], all[j])
      {
        if j < |prev| {
          assert all[i] == prev[i] && all[j] == prev[j];
        } else if i < |prev| {
          assert all[i] == prev[i];
          PairMembers(u, d - 1, all[j]);
        } else {
          PairOrdered(u, d - 1);
          assert all[i] == p[0] && all[j] == p[1];
        }
      }
    }
  }

  /** Each member of Pair(u, delta) is a non-zero byte exactly delta away from u. */
  lemma PairMembers(u: byte, delta: int, b: byte)
    requires 1 <= delta <= MaxDelta
    requires b in Pair(u, delta)
    ensures b != 0 && Dist(u, b) == delta
  {
    CandidateDist(u, delta, -1);
    CandidateDist(u, delta, 1);
  }

  /** When both candidates of a delta are kept, they come in the order -1, +1. */
  lemma PairOrdered(u: byte, delta: int)
    requires 1 <= delta <= MaxDelta
    ensures |Pair(u, delta)| == 2 ==> EmittedBefore(u, Pair(u, delta)[0], Pair(u, delta)[1])
  {
    CandidateDist(u, delta, -1);
    CandidateDist(u, delta, 1);
  }

  /** The number of bytes emitted for the deltas below d. */
  lemma {:induction false} BelowLength(u: byte, d: nat)
    requires 1 <= d <= MaxDelta + 1
    ensures |LastBytesBelow(u, d)| == 2 * (d - 1) - (if 0 < SkippedDelta(u) < d then 1 else 0)
  {
    if d > 1 {
      BelowLength(u, d - 1);
      PairLength(u, d - 1);
    }
  }

  /** Every emitted byte is non-zero, differs from u and from the opposite byte (u + 128) % 256. */
  lemma LastBytesExcluded(u: byte)
    ensures forall i :: 0 <= i < |LastBytes(u)| ==>
              LastBytes(u)[i] != 0 && LastBytes(u)[i] != u && LastBytes(u)[i] != (u + 128) % 256
  {
    BelowInRange(u, MaxDelta + 1);
    OppositeDist(u);
  }

  /** The emitted bytes are pairwise distinct. */
  lemma LastBytesDistinct(u: byte)
    ensures forall i, j :: 0 <= i < j < |LastBytes(u)| ==> LastBytes(u)[i] != LastBytes(u)[j]
  {
    var all := LastBytes(u);
    BelowOrdered(u, MaxDelta + 1);
    BelowInRange(u, MaxDelta + 1);
    forall i, j | 0 <= i < j < |all|
      ensures all[i] != all[j]
    {
      if Dist(u, all[i]) == Dist(u, all[j]) {
        PairDistinct(u, Dist(u, all[i]));
      }
    }
  }

  /** Every kept candidate of a delta in 1..127 is emitted by the full scan. */
  lemma PairEmitted(u: byte, delta: int, b: byte)
    requires 1 <= delta <= MaxDelta
    requires b in Pair(u, delta)
    ensures b in LastBytes(u)
  {
    PairEmittedBelow(u, delta, b, MaxDelta + 1);
  }

  /** A kept candidate of `delta` is emitted by every run over the deltas below e > delta. */
  lemma PairEmittedBelow(u: byte, delta: int, b: byte, e: nat)
    requires 1 <= delta < e <= MaxDelta + 1
    requires b in Pair(u, delta)
    ensures b in LastBytesBelow(u, e)
  {
    BelowPrefix(u, delta + 1, e);
    assert LastBytesBelow(u, delta + 1) == LastBytesBelow(u, delta) + Pair(u, delta);
  }

  /** The emitted bytes are exactly the bytes other than 0, u and (u + 128) % 256. */
  lemma LastBytesComplete(u: byte, b: byte)
    ensures b in LastBytes(u) <==> b != 0 && b != u && b != (u + 128) % 256
  {
    LastBytesExcluded(u);
    if b != 0 && b != u && b != (u + 128) % 256 {
      var d := Dist(u, b);
      OnlyOppositeAt128(u, b);
      CandidateOfDist(u, b);
      PairEmitted(u, d, b);
    }
  }

  /** Only the opposite byte lies at distance 128. */
  lemma OnlyOppositeAt128(u: byte, b: byte)
    ensures Dist(u, b) == 128 <==> b == (u + 128) % 256
  {
    OppositeDist(u);
    var p := (b - u) % 256;
    assert b - u == p || b - u == p - 256;
  }

  /** The emission order visits each delta in turn: the first two bytes are u - 1 and u + 1 (those not 0). */
  lemma LastBytesStart(u: byte)
    ensures Pair(u, 1) <= LastBytes(u)
  {
    BelowStart(u, MaxDelta + 1);
  }

  /** Every run over at least delta 1 starts with Pair(u, 1). */
  lemma BelowStart(u: byte, e: nat)
    requires 2 <= e <= MaxDelta + 1
    ensures Pair(u, 1) <= LastBytesBelow(u, e)
  {
    BelowPrefix(u, 2, e);
    assert LastBytesBelow(u, 2) == LastBytesBelow(u, 1) + Pair(u, 1);
  }

  /** 254 bytes are emitted when u is 0 or 128, and 253 otherwise. */
  lemma LastBytesCount(u: byte)
    ensures |LastBytes(u)| == if u == 0 || u == 128 then 254 else 253
  {
    BelowLength(u, MaxDelta + 1);
  }

  // ---------------------------------------------------------------------------
  // The emitted addresses

  /**
   * Every scanned address has the origin's length, agrees with it on every
   * byte but the last, and its last byte is the matching emitted byte (never 0).
   */
  lemma ScanListShape(origin: Address)
    requires |origin| > 0
    ensures |ScanList(origin)| == |LastBytes(origin[|origin| - 1])|
    ensures forall k :: 0 <= k < |ScanList(origin)| ==>
              var a := ScanList(origin)[k];
              |a| == |origin| && a[..|a| - 1] == origin[..|origin| - 1] &&
              a[|a| - 1] == LastBytes(origin[|origin| - 1])[k] && a[|a| - 1] != 0
  {
    LastBytesExcluded(origin[|origin| - 1]);
  }

  /** The scanned addresses are pairwise distinct and none is the origin itself. */
  lemma ScanListDistinct(origin: Address)
    requires |origin| > 0
    ensures forall i, j :: 0 <= i < j < |ScanList(origin)| ==> ScanList(origin)[i] != ScanList(origin)[j]
    ensures origin !in ScanList(origin)
  {
    var u := origin[|origin| - 1];
    var s := ScanList(origin);
    LastBytesDistinct(u);
    LastBytesExcluded(u);
    forall i, j | 0 <= i < j < |s|
      ensures s[i] != s[j]
    {
      assert s[i][|origin| - 1] == LastBytes(u)[i];
      assert s[j][|origin| - 1] == LastBytes(u)[j];
    }
  }

  /** The scan order expands outward: no address is closer to the origin than one scanned before it. */
  lemma ScanListOutward(origin: Address)
    requires |origin| > 0
    ensures forall i, j :: 0 <= i < j < |ScanList(origin)| ==>
              Dist(origin[|origin| - 1], ScanList(origin)[i][|origin| - 1])
              <= Dist(origin[|origin| - 1], ScanList(origin)[j][|origin| - 1])
  {
    var u := origin[|origin| - 1];
    var s := ScanList(origin);
    BelowOrdered(u, MaxDelta + 1);
    forall i, j | 0 <= i < j < |s|
      ensures Dist(u, s[i][|origin| - 1]) <= Dist(u, s[j][|origin| - 1])
    {
      assert s[i][|origin| - 1] == LastBytes(u)[i];
      assert s[j][|origin| - 1] == LastBytes(u)[j];
    }
  }

  /** At most 254 addresses are scanned: 254 when the origin's last byte is 0 or 128, 253 otherwise. */
  lemma ScanListCount(origin: Address)
    requires |origin| > 0
    ensures |ScanList(origin)| <= 254
    ensures |ScanList(origin)| == if origin[|origin| - 1] in {0, 128} then 254 else 253
  {
    LastBytesCount(origin[|origin| - 1]);
  }

  /**
   * Around an origin ending in 10 (192.168.1.10, say) the scan visits 253
   * addresses, starting with the one ending in 9 and then the one ending in 11.
   */
  lemma ExampleLastByteTen(origin: Address)
    requires |origin| > 0 && origin[|origin| - 1] == 10
    ensures |ScanList(origin)| == 253
    ensures ScanList(origin)[0] == WithLast(origin, 9)
    ensures ScanList(origin)[1] == WithLast(origin, 11)
  {
    var u := origin[|origin| - 1];
    LastBytesCount(u);
    var lb := LastBytes(u);
    FirstBytesAroundTen(u);
    assert lb[0] == 9 && lb[1] == 11;
    assert ScanList(origin) == Retarget(origin, lb);
  }

  /** Around 10 the scan starts with 9 and then 11. */
  lemma FirstBytesAroundTen(u: byte)
    requires u == 10
    ensures |LastBytes(u)| >= 2 && LastBytes(u)[0] == 9 && LastBytes(u)[1] == 11
  {
    LastBytesStart(u);
    var p := Pair(u, 1);
    assert Candidate(u, 1, -1) == 9 && Candidate(u, 1, 1) == 11;
    assert p == [9, 11];
  }
}
