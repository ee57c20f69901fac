/**
 SCALE encoding (Polkadot Protocol Specification, Appendix A, "SCALE Codec"):
 fixed-width little-endian integers, compact lengths, bounded vectors and
 records, as codecs that compose.

 A codec is lawful when it round-trips, when it is canonical (the bytes it
 accepts are exactly the bytes it writes), and when `max` is the length of the
 longest encoding.
 */
module Scale {
  import opened Wrappers
  import opened Octets

  datatype Codec<!T> = Codec(
    ok: T -> bool,
    enc: T -> Bytes,
    dec: Bytes -> Option<(T, Bytes)>,
    max: nat)

  /** Decoding an encoding gives the value back and leaves the rest of the input. */
  ghost predicate RoundTrips<T(!new)>(c: Codec<T>) {
    forall v: T, rest: Bytes {:trigger c.enc(v) + rest} ::
      c.ok(v) ==> c.dec(c.enc(v) + rest) == Some((v, rest))
  }

  /** Whatever decodes is a value within its bounds, written the one way it is encoded. */
  ghost predicate Canonical<T(!new)>(c: Codec<T>) {
    forall b: Bytes {:trigger c.dec(b)} :: c.dec(b).Some? ==>
      c.ok(c.dec(b).value.0) && b == c.enc(c.dec(b).value.0) + c.dec(b).value.1
  }

  ghost predicate Bounded<T(!new)>(c: Codec<T>) {
    forall v: T {:trigger c.enc(v)} :: c.ok(v) ==> |c.enc(v)| <= c.max
  }

  /** The bound is reached. */
  ghost predicate Attained<T(!new)>(c: Codec<T>) {
    exists v: T {:trigger c.enc(v)} :: c.ok(v) && |c.enc(v)| == c.max
  }

  ghost predicate Lawful<T(!new)>(c: Codec<T>) {
    RoundTrips(c) && Canonical(c) && Bounded(c) && Attained(c)
  }

  // ---- Integers ----

  function Pow256(k: nat): (p: int)
    ensures p >= 1
  {
    if k == 0 then 1 else 0x100 * Pow256(k - 1)
  }

  /** The `k` low bytes of `n`, least significant first. */
  function LittleEndian(n: nat, k: nat): (b: Bytes)
    ensures |b| == k
  {
    if k == 0 then [] else [n % 0x100] + LittleEndian(n / 0x100, k - 1)
  }

  function FromLittleEndian(b: Bytes): (n: nat)
    ensures n < Pow256(|b|)
  {
    if b == [] then 0 else b[0] + 0x100 * FromLittleEndian(b[1..])
  }

  lemma {:induction false} LittleEndianRoundTrip(n: nat, k: nat)
    requires n < Pow256(k)
    ensures FromLittleEndian(LittleEndian(n, k)) == n
    decreases k
  {
    if k != 0 {
      assert LittleEndian(n, k)[1..] == LittleEndian(n / 0x100, k - 1);
      LittleEndianRoundTrip(n / 0x100, k - 1);
    }
  }

  lemma {:induction false} LittleEndianCanonical(b: Bytes)
    ensures LittleEndian(FromLittleEndian(b), |b|) == b
    decreases |b|
  {
    if b != [] {
      LittleEndianCanonical(b[1..]);
      assert FromLittleEndian(b) % 0x100 == b[0];
      assert FromLittleEndian(b) / 0x100 == FromLittleEndian(b[1..]);
      assert b == [b[0]] + b[1..];
    }
  }

  lemma PowersOf256()
    ensures Pow256(1) == 0x100 && Pow256(2) == 0x1_0000
    ensures Pow256(4) == 0x1_0000_0000 && Pow256(8) == 0x1_0000_0000_0000_0000
  {
    assert Pow256(3) == 0x100_0000;
    assert Pow256(5) == 0x100 * Pow256(4);
    assert Pow256(6) == 0x100 * Pow256(5);
    assert Pow256(7) == 0x100 * Pow256(6);
  }

  function U8(): Codec<byte> {
    Codec(
      (n: byte) => true,
      (n: byte) => [n],
      (b: Bytes) => if b == [] then None else Some((b[0], b[1..])),
      1)
  }

  function U32(): Codec<u32> {
    Codec((n: u32) => true, (n: u32) => LittleEndian(n, 4), ReadU32, 4)
  }

  function U64(): Codec<u64> {
    Codec((n: u64) => true, (n: u64) => LittleEndian(n, 8), ReadU64, 8)
  }

  function ReadU32(b: Bytes): Option<(u32, Bytes)> {
    if |b| < 4 then None else
    PowersOf256();
    Some((FromLittleEndian(b[..4]), b[4..]))
  }

  function ReadU64(b: Bytes): Option<(u64, Bytes)> {
    if |b| < 8 then None else
    PowersOf256();
    Some((FromLittleEndian(b[..8]), b[8..]))
  }

  lemma U8Lawful()
    ensures Lawful(U8())
  {
    var c := U8();
    forall n: byte, rest: Bytes
      ensures c.dec(c.enc(n) + rest) == Some((n, rest))
    {
      assert ([n] + rest)[1..] == rest;
    }
    assert c.ok(0) && |c.enc(0)| == c.max;
  }

  lemma FixedWidth(n: nat, k: nat, rest: Bytes)
    requires n < Pow256(k)
    ensures var b := LittleEndian(n, k) + rest; FromLittleEndian(b[..k]) == n && b[k..] == rest
  {
    LittleEndianRoundTrip(n, k);
    assert (LittleEndian(n, k) + rest)[..k] == LittleEndian(n, k);
  }

  lemma U32Lawful()
    ensures Lawful(U32())
  {
    var c := U32();
    PowersOf256();
    forall n: u32, rest: Bytes
      ensures c.dec(c.enc(n) + rest) == Some((n, rest))
    {
      FixedWidth(n, 4, rest);
    }
    forall b: Bytes | |b| >= 4
      ensures b == LittleEndian(FromLittleEndian(b[..4]), 4) + b[4..]
    {
      LittleEndianCanonical(b[..4]);
      assert b == b[..4] + b[4..];
    }
    assert c.ok(0) && |c.enc(0)| == c.max;
  }

  lemma U64Lawful()
    ensures Lawful(U64())
  {
    var c := U64();
    PowersOf256();
    forall n: u64, rest: Bytes
      ensures c.dec(c.enc(n) + rest) == Some((n, rest))
    {
      FixedWidth(n, 8, rest);
    }
    forall b: Bytes | |b| >= 8
      ensures b == LittleEndian(FromLittleEndian(b[..8]), 8) + b[8..]
    {
      LittleEndianCanonical(b[..8]);
      assert b == b[..8] + b[8..];
    }
    assert c.ok(0) && |c.enc(0)| == c.max;
  }

  // ---- Compact lengths ----

  /** The compact form of a 32-bit length: the two low bits of the first byte say how many bytes follow. */
  function Compact(n: u32): Bytes {
    if n < 0x40 then [4 * n]
    else if n < 0x4000 then LittleEndian(4 * n + 1, 2)
    else if n < 0x4000_0000 then LittleEndian(4 * n + 2, 4)
    else [3] + LittleEndian(n, 4)
  }

  /** The compact value at the head of `b`. A longer form than needed is an error. */
  function ReadCompact(b: Bytes): Option<(u32, Bytes)> {
    if b == [] then None
    else match b[0] % 4
      case 0 => Some((b[0] / 4, b[1..]))
      case 1 =>
        if |b| < 2 then None else
        var x := FromLittleEndian(b[..2]) / 4;
        if 0x3F < x <= 0x3FFF then Some((x, b[2..])) else None
      case 2 =>
        if |b| < 4 then None else
        var x := FromLittleEndian(b[..4]) / 4;
        if 0x3FFF < x <= 0x3FFF_FFFF then Some((x, b[4..])) else None
      case _ =>
        if b[0] != 3 || |b| < 5 then None else
        var x := FromLittleEndian(b[1..5]);
        if 0x3FFF_FFFF < x <= 0xFFFF_FFFF then Some((x, b[5..])) else None
  }

  lemma CompactRoundTrip(n: u32, rest: Bytes)
    ensures ReadCompact(Compact(n) + rest) == Some((n, rest))
  {
    if n < 0x40 {
      assert ([4 * n] + rest)[1..] == rest;
    } else if n < 0x4000 {
      CompactTwo(n, rest);
    } else if n < 0x4000_0000 {
      CompactFour(n, rest);
    } else {
      CompactFive(n, rest);
    }
  }

  lemma CompactTwo(n: u32, rest: Bytes)
    requires 0x40 <= n < 0x4000
    ensures ReadCompact(LittleEndian(4 * n + 1, 2) + rest) == Some((n, rest))
  {
    CompactHead(4 * n + 1, 2, rest);
  }

  lemma CompactFour(n: u32, rest: Bytes)
    requires 0x4000 <= n < 0x4000_0000
    ensures ReadCompact(LittleEndian(4 * n + 2, 4) + rest) == Some((n, rest))
  {
    CompactHead(4 * n + 2, 4, rest);
  }

  lemma CompactFive(n: u32, rest: Bytes)
    requires 0x4000_0000 <= n
    ensures ReadCompact([3] + LittleEndian(n, 4) + rest) == Some((n, rest))
  {
    CompactHead(n, 4, rest);
    var tail := LittleEndian(n, 4) + rest;
    assert [3] + LittleEndian(n, 4) + rest == [3] + tail;
    assert ([3] + tail)[1..5] == tail[..4];
    assert ([3] + tail)[5..] == tail[4..];
  }

  lemma CompactHead(x: nat, k: nat, rest: Bytes)
    requires k == 2 || k == 4
    requires x < if k == 2 then 0x1_0000 else 0x1_0000_0000
    ensures var b := LittleEndian(x, k) + rest;
      && b[0] == x % 0x100 && b[0] % 4 == x % 4
      && FromLittleEndian(b[..k]) == x && b[k..] == rest
  {
    PowersOf256();
    LittleEndianRoundTrip(x, k);
    assert (LittleEndian(x, k) + rest)[..k] == LittleEndian(x, k);
    assert x == 0x100 * (x / 0x100) + x % 0x100;
  }

  lemma CompactCanonical(b: Bytes)
    requires ReadCompact(b).Some?
    ensures b == Compact(ReadCompact(b).value.0) + ReadCompact(b).value.1
  {
    if b[0] % 4 == 0 {
    } else if b[0] % 4 == 1 {
      LittleEndianCanonical(b[..2]);
      FirstByte(b[..2]);
      assert b == b[..2] + b[2..];
    } else if b[0] % 4 == 2 {
      LittleEndianCanonical(b[..4]);
      FirstByte(b[..4]);
      assert b == b[..4] + b[4..];
    } else {
      LittleEndianCanonical(b[1..5]);
      assert b == [3] + b[1..5] + b[5..];
    }
  }

  lemma FirstByte(b: Bytes)
    requires b != []
    ensures FromLittleEndian(b) % 4 == b[0] % 4
  {
    assert FromLittleEndian(b) == b[0] + 0x100 * FromLittleEndian(b[1..]);
  }

  lemma CompactLength(n: u32, m: u32)
    requires n <= m
    ensures |Compact(n)| <= |Compact(m)|
  {
  }

  // ---- Records ----

  function Pair<A, B>(a: Codec<A>, b: Codec<B>): Codec<(A, B)> {
    Codec(
      (v: (A, B)) => a.ok(v.0) && b.ok(v.1),
      (v: (A, B)) => a.enc(v.0) + b.enc(v.1),
      (s: Bytes) =>
        match a.dec(s)
        case None => None
        case Some((x, s')) =>
          match b.dec(s')
          case None => None
          case Some((y, s'')) => Some(((x, y), s'')),
      a.max + b.max)
  }

  lemma PairLawful<A(!new), B(!new)>(a: Codec<A>, b: Codec<B>)
    requires Lawful(a) && Lawful(b)
    ensures Lawful(Pair(a, b))
  {
    var c := Pair(a, b);
    forall v: (A, B), rest: Bytes | c.ok(v)
      ensures c.dec(c.enc(v) + rest) == Some((v, rest))
    {
      assert c.enc(v) + rest == a.enc(v.0) + (b.enc(v.1) + rest);
    }
    forall s: Bytes | c.dec(s).Some?
      ensures c.ok(c.dec(s).value.0) && s == c.enc(c.dec(s).value.0) + c.dec(s).value.1
    {
      var (x, s') := a.dec(s).value;
      var (y, s'') := b.dec(s').value;
      assert s == a.enc(x) + (b.enc(y) + s'');
      assert s == (a.enc(x) + b.enc(y)) + s'';
    }
    forall v: (A, B) | c.ok(v)
      ensures |c.enc(v)| <= c.max
    {
      assert |a.enc(v.0)| <= a.max && |b.enc(v.1)| <= b.max;
    }
    var x: A :| a.ok(x) && |a.enc(x)| == a.max;
    var y: B :| b.ok(y) && |b.enc(y)| == b.max;
    assert c.ok((x, y)) && |c.enc((x, y))| == c.max;
  }

  /** The codec of a record, from the codec of its fields in order. */
  function Record<A, B>(c: Codec<A>, make: A -> B, fields: B -> A): Codec<B> {
    Codec(
      (v: B) => c.ok(fields(v)),
      (v: B) => c.enc(fields(v)),
      (s: Bytes) =>
        match c.dec(s)
        case None => None
        case Some((x, rest)) => Some((make(x), rest)),
      c.max)
  }

  lemma RecordLawful<A(!new), B(!new)>(c: Codec<A>, make: A -> B, fields: B -> A)
    requires Lawful(c)
    requires forall x: A {:trigger make(x)} :: c.ok(x) ==> fields(make(x)) == x
    requires forall y: B {:trigger fields(y)} :: c.ok(fields(y)) ==> make(fields(y)) == y
    ensures Lawful(Record(c, make, fields))
  {
    var r := Record(c, make, fields);
    forall v: B, rest: Bytes | r.ok(v)
      ensures r.dec(r.enc(v) + rest) == Some((v, rest))
    {
      assert r.enc(v) + rest == c.enc(fields(v)) + rest;
    }
    forall s: Bytes | r.dec(s).Some?
      ensures r.ok(r.dec(s).value.0) && s == r.enc(r.dec(s).value.0) + r.dec(s).value.1
    {
      var (x, rest) := c.dec(s).value;
      assert fields(make(x)) == x;
    }
    var x: A :| c.ok(x) && |c.enc(x)| == c.max;
    assert r.ok(make(x)) && |r.enc(make(x))| == r.max;
  }

  lemma PairOk<A, B>(a: Codec<A>, b: Codec<B>, x: A, y: B)
    ensures Pair(a, b).ok((x, y)) <==> a.ok(x) && b.ok(y)
  {
  }

  lemma RecordOk<A, B>(c: Codec<A>, make: A -> B, fields: B -> A, v: B)
    ensures Record(c, make, fields).ok(v) <==> c.ok(fields(v))
  {
  }

  // ---- Bounded vectors ----

  function EncodeAll<T>(c: Codec<T>, xs: seq<T>): Bytes {
    if xs == [] then [] else c.enc(xs[0]) + EncodeAll(c, xs[1..])
  }

  function DecodeAll<T>(c: Codec<T>, n: nat, b: Bytes): Option<(seq<T>, Bytes)> {
    if n == 0 then Some(([], b))
    else match c.dec(b)
      case None => None
      case Some((x, b')) =>
        match DecodeAll(c, n - 1, b')
        case None => None
        case Some((xs, rest)) => Some(([x] + xs, rest))
  }

  /** A vector of at most `limit` items: its compact length, then the items. */
  function Vector<T>(c: Codec<T>, limit: u32): Codec<seq<T>> {
    hide EncodeAll, DecodeAll, Compact, ReadCompact, VectorMax;
    Codec(
      (xs: seq<T>) => |xs| <= limit && forall i | 0 <= i < |xs| :: c.ok(xs[i]),
      (xs: seq<T>) => (if |xs| <= limit then Compact(|xs|) else []) + EncodeAll(c, xs),
      (b: Bytes) =>
        match ReadCompact(b)
        case None => None
        case Some((n, b')) => if n <= limit then DecodeAll(c, n, b') else None,
      VectorMax(c, limit))
  }

  function VectorMax<T>(c: Codec<T>, limit: u32): nat { |Compact(limit)| + limit * c.max }

  lemma VectorOk<T>(c: Codec<T>, limit: u32, xs: seq<T>)
    ensures Vector(c, limit).ok(xs) <==> |xs| <= limit && forall i | 0 <= i < |xs| :: c.ok(xs[i])
  {
  }

  lemma {:induction false} EncodeAllRoundTrips<T(!new)>(c: Codec<T>, xs: seq<T>, rest: Bytes)
    requires RoundTrips(c) && forall i | 0 <= i < |xs| :: c.ok(xs[i])
    ensures DecodeAll(c, |xs|, EncodeAll(c, xs) + rest) == Some((xs, rest))
    decreases |xs|
  {
    if xs == [] {
      assert EncodeAll(c, xs) + rest == rest;
    } else {
      EncodeAllRoundTrips(c, xs[1..], rest);
      assert EncodeAll(c, xs) + rest == c.enc(xs[0]) + (EncodeAll(c, xs[1..]) + rest);
      assert xs == [xs[0]] + xs[1..];
    }
  }

  lemma {:induction false} DecodeAllCanonical<T(!new)>(c: Codec<T>, n: nat, b: Bytes)
    requires Canonical(c) && DecodeAll(c, n, b).Some?
    ensures var (xs, rest) := DecodeAll(c, n, b).value;
      |xs| == n && (forall i | 0 <= i < n :: c.ok(xs[i])) && b == EncodeAll(c, xs) + rest
    decreases n
  {
    if n == 0 {
      assert b == [] + b;
    } else {
      var (x, b') := c.dec(b).value;
      DecodeAllCanonical(c, n - 1, b');
      var (xs, rest) := DecodeAll(c, n - 1, b').value;
      assert ([x] + xs)[1..] == xs;
      assert c.enc(x) + (EncodeAll(c, xs) + rest) == (c.enc(x) + EncodeAll(c, xs)) + rest;
    }
  }

  lemma {:induction false} EncodeAllBounded<T(!new)>(c: Codec<T>, xs: seq<T>)
    requires Bounded(c) && forall i | 0 <= i < |xs| :: c.ok(xs[i])
    ensures |EncodeAll(c, xs)| <= |xs| * c.max
    decreases |xs|
  {
    if xs != [] {
      EncodeAllBounded(c, xs[1..]);
      assert |xs| * c.max == c.max + (|xs| - 1) * c.max;
    }
  }

  lemma {:induction false} EncodeAllAttained<T(!new)>(c: Codec<T>, x: T, n: nat)
    requires |c.enc(x)| == c.max
    ensures |EncodeAll(c, seq(n, i => x))| == n * c.max
    decreases n
  {
    if n != 0 {
      EncodeAllAttained(c, x, n - 1);
      assert seq(n, i => x)[1..] == seq(n - 1, i => x);
      assert n * c.max == c.max + (n - 1) * c.max;
    }
  }

  lemma VectorRoundTrips<T(!new)>(c: Codec<T>, limit: u32)
    requires RoundTrips(c)
    ensures RoundTrips(Vector(c, limit))
  {
    var v := Vector(c, limit);
    forall xs: seq<T>, rest: Bytes | v.ok(xs)
      ensures v.dec(v.enc(xs) + rest) == Some((xs, rest))
    {
      CompactRoundTrip(|xs|, EncodeAll(c, xs) + rest);
      assert v.enc(xs) + rest == Compact(|xs|) + (EncodeAll(c, xs) + rest);
      EncodeAllRoundTrips(c, xs, rest);
    }
  }

  lemma VectorCanonical<T(!new)>(c: Codec<T>, limit: u32)
    requires Canonical(c)
    ensures Canonical(Vector(c, limit))
  {
    var v := Vector(c, limit);
    forall b: Bytes | v.dec(b).Some?
      ensures v.ok(v.dec(b).value.0) && b == v.enc(v.dec(b).value.0) + v.dec(b).value.1
    {
      CompactCanonical(b);
      var (n, b') := ReadCompact(b).value;
      DecodeAllCanonical(c, n, b');
      var (xs, rest) := DecodeAll(c, n, b').value;
      assert Compact(n) + (EncodeAll(c, xs) + rest) == (Compact(n) + EncodeAll(c, xs)) + rest;
    }
  }

  lemma VectorBounded<T(!new)>(c: Codec<T>, limit: u32)
    requires Bounded(c)
    ensures Bounded(Vector(c, limit))
  {
    var v := Vector(c, limit);
    forall xs: seq<T> | v.ok(xs)
      ensures |v.enc(xs)| <= v.max
    {
      EncodeAllBounded(c, xs);
      CompactLength(|xs|, limit);
      ProductMonotone(|xs|, limit, c.max);
    }
  }

  lemma ProductMonotone(a: nat, b: nat, m: nat)
    requires a <= b
    ensures a * m <= b * m
  {
  }

  lemma VectorAttained<T(!new)>(c: Codec<T>, limit: u32)
    requires Attained(c)
    ensures Attained(Vector(c, limit))
  {
    var v := Vector(c, limit);
    var x: T :| c.ok(x) && |c.enc(x)| == c.max;
    var full := seq(limit, i => x);
    EncodeAllAttained(c, x, limit);
    assert v.ok(full) && |v.enc(full)| == v.max;
  }

  lemma VectorLawful<T(!new)>(c: Codec<T>, limit: u32)
    requires Lawful(c)
    ensures Lawful(Vector(c, limit))
  {
    VectorRoundTrips(c, limit);
    VectorCanonical(c, limit);
    VectorBounded(c, limit);
    VectorAttained(c, limit);
  }
}
