/**
 Bytes, the machine integers of the format, the lexicographic order of byte
 strings, and well-formed UTF-8 (section 4 of RFC 3629).
 */
module Octets {
  type byte = x: int | 0 <= x < 0x100
  type u32 = x: int | 0 <= x < 0x1_0000_0000
  type u64 = x: int | 0 <= x < 0x1_0000_0000_0000_0000

  type Bytes = seq<byte>

  /** Strict lexicographic order: the order of Rust byte slices. */
  predicate Less(a: Bytes, b: Bytes)
    decreases |a|
  {
    && b != []
    && (a == [] || a[0] < b[0] || (a[0] == b[0] && Less(a[1..], b[1..])))
  }

  lemma {:induction false} LessIrreflexive(a: Bytes)
    ensures !Less(a, a)
    decreases |a|
  {
    if a != [] {
      LessIrreflexive(a[1..]);
    }
  }

  lemma {:induction false} LessTransitive(a: Bytes, b: Bytes, c: Bytes)
    requires Less(a, b) && Less(b, c)
    ensures Less(a, c)
    decreases |a|
  {
    if a != [] && a[0] == b[0] && b[0] == c[0] {
      LessTransitive(a[1..], b[1..], c[1..]);
    }
  }

  lemma {:induction false} LessTotal(a: Bytes, b: Bytes)
    ensures Less(a, b) || a == b || Less(b, a)
    decreases |a|
  {
    if a != [] && b != [] && a[0] == b[0] {
      LessTotal(a[1..], b[1..]);
      assert a == [a[0]] + a[1..] && b == [b[0]] + b[1..];
    }
  }

  lemma LessAsymmetric(a: Bytes, b: Bytes)
    requires Less(a, b)
    ensures !Less(b, a) && a != b
  {
    LessIrreflexive(a);
    if Less(b, a) {
      LessTransitive(a, b, a);
    }
  }

  predicate Continuation(b: byte) { 0x80 <= b <= 0xBF }

  /** Well-formed UTF-8, by the syntax of section 4 of RFC 3629. */
  predicate Utf8(s: Bytes)
    decreases |s|
  {
    || s == []
    || (s[0] <= 0x7F && Utf8(s[1..]))
    || (|s| >= 2 && 0xC2 <= s[0] <= 0xDF && Continuation(s[1]) && Utf8(s[2..]))
    || (|s| >= 3 && Utf8Three(s[0], s[1]) && Continuation(s[2]) && Utf8(s[3..]))
    || (|s| >= 4 && Utf8Four(s[0], s[1]) && Continuation(s[2]) && Continuation(s[3]) && Utf8(s[4..]))
  }

  predicate Utf8Three(first: byte, second: byte) {
    || (first == 0xE0 && 0xA0 <= second <= 0xBF)
    || (0xE1 <= first <= 0xEC && Continuation(second))
    || (first == 0xED && 0x80 <= second <= 0x9F)
    || (0xEE <= first <= 0xEF && Continuation(second))
  }

  predicate Utf8Four(first: byte, second: byte) {
    || (first == 0xF0 && 0x90 <= second <= 0xBF)
    || (0xF1 <= first <= 0xF3 && Continuation(second))
    || (first == 0xF4 && 0x80 <= second <= 0x8F)
  }

  // ---- UTF-8 is the encoding of characters ----

  /** A Unicode scalar value: a code point that is not a surrogate. */
  type Scalar = c: int | 0 <= c < 0x11_0000 && !(0xD800 <= c < 0xE000)

  /** The bytes of one character (section 3 of RFC 3629): six bits in every byte after the first. */
  function EncodeScalar(c: Scalar): (b: Bytes)
    ensures 1 <= |b| <= 4
  {
    if c < 0x80 then [c]
    else if c < 0x800 then [0xC0 + c / 0x40, LowSix(c)]
    else if c < 0x1_0000 then [0xE0 + c / 0x40 / 0x40, LowSix(c / 0x40), LowSix(c)]
    else [0xF0 + c / 0x40 / 0x40 / 0x40, LowSix(c / 0x40 / 0x40), LowSix(c / 0x40), LowSix(c)]
  }

  /** The byte that holds the six low bits of `n`. */
  function LowSix(n: nat): byte { 0x80 + n % 0x40 }

  function EncodeText(text: seq<Scalar>): Bytes {
    if text == [] then [] else EncodeScalar(text[0]) + EncodeText(text[1..])
  }

  /** `b` begins with the encoding of `c`. */
  predicate BeginsWith(b: Bytes, c: Scalar) { |EncodeScalar(c)| <= |b| && b[..|EncodeScalar(c)|] == EncodeScalar(c) }

  /** The first character of well-formed bytes. */
  lemma FirstScalar(s: Bytes) returns (c: Scalar)
    requires s != [] && Utf8(s)
    ensures BeginsWith(s, c) && Utf8(s[|EncodeScalar(c)|..])
  {
    if s[0] <= 0x7F {
      c := s[0];
    } else if s[0] <= 0xDF {
      var n := SixMore(s[0] - 0xC0, s[1]);
      c := n;
    } else if s[0] <= 0xEF {
      c := ThreeBytes(s[0], s[1], s[2]);
    } else {
      c := FourBytes(s[0], s[1], s[2], s[3]);
    }
  }

  lemma ThreeBytes(x: byte, y: byte, z: byte) returns (c: Scalar)
    requires Utf8Three(x, y) && Continuation(z)
    ensures EncodeScalar(c) == [x, y, z]
  {
    var high := SixMore(x - 0xE0, y);
    var n := SixMore(high, z);
    c := n;
  }

  lemma FourBytes(x: byte, y: byte, z: byte, w: byte) returns (c: Scalar)
    requires Utf8Four(x, y) && Continuation(z) && Continuation(w)
    ensures EncodeScalar(c) == [x, y, z, w]
  {
    var high := SixMore(x - 0xF0, y);
    var middle := SixMore(high, z);
    var n := SixMore(middle, w);
    c := n;
  }

  /** The number with six more bits after those of `high`. */
  lemma SixMore(high: nat, b: byte) returns (n: nat)
    requires Continuation(b)
    ensures n == 0x40 * high + (b - 0x80) && n / 0x40 == high && LowSix(n) == b
  {
    n := 0x40 * high + (b - 0x80);
  }

  /** An encoded character before well-formed bytes. */
  lemma OneMoreScalar(c: Scalar, s: Bytes)
    requires Utf8(s)
    ensures Utf8(EncodeScalar(c) + s)
  {
    var b := EncodeScalar(c);
    assert (b + s)[|b|..] == s;
    assert forall i | 0 <= i < |b| :: (b + s)[i] == b[i];
  }

  lemma EmptyIsUtf8()
    ensures Utf8([])
  {
  }

  lemma {:induction false} TextIsUtf8(text: seq<Scalar>)
    ensures Utf8(EncodeText(text))
    decreases |text|
  {
    hide Utf8, EncodeScalar;
    if text == [] {
      EmptyIsUtf8();
    } else {
      TextIsUtf8(text[1..]);
      OneMoreScalar(text[0], EncodeText(text[1..]));
    }
  }

  lemma {:induction false} Utf8IsText(s: Bytes) returns (text: seq<Scalar>)
    requires Utf8(s)
    ensures s == EncodeText(text)
    decreases |s|
  {
    hide Utf8, EncodeScalar;
    text := [];
    if s != [] {
      var c := FirstScalar(s);
      var n := |EncodeScalar(c)|;
      var rest := Utf8IsText(s[n..]);
      text := [c] + rest;
      assert text[1..] == rest && s == s[..n] + s[n..];
    }
  }

  /** `s` is the encoding of some sequence of characters. */
  ghost predicate IsText(s: Bytes) { exists text: seq<Scalar> :: s == EncodeText(text) }

  /** The well-formed byte strings are exactly the encodings of sequences of characters. */
  lemma Utf8Meaning(s: Bytes)
    ensures Utf8(s) <==> IsText(s)
  {
    if Utf8(s) {
      var text := Utf8IsText(s);
      assert s == EncodeText(text);
    }
    if IsText(s) {
      var text: seq<Scalar> :| s == EncodeText(text);
      TextIsUtf8(text);
    }
  }

  // ---- The order ----

  /** `a` and `b` agree before `i`, and there `a` ends or has the smaller byte. */
  predicate FirstDifference(a: Bytes, b: Bytes, i: nat) {
    i <= |a| && i < |b| && a[..i] == b[..i] && (i == |a| || a[i] < b[i])
  }

  /** One string is less than another exactly when it is smaller at the first place where they differ. */
  lemma {:induction false} LessMeaning(a: Bytes, b: Bytes)
    ensures Less(a, b) <==> exists i: nat :: FirstDifference(a, b, i)
    decreases |a|
  {
    if a == [] || b == [] || a[0] != b[0] {
      if Less(a, b) {
        assert FirstDifference(a, b, 0);
      }
    } else {
      LessMeaning(a[1..], b[1..]);
      assert a == [a[0]] + a[1..] && b == [b[0]] + b[1..];
      if Less(a, b) {
        var i: nat :| FirstDifference(a[1..], b[1..], i);
        assert a[..i + 1] == [a[0]] + a[1..][..i] && b[..i + 1] == [b[0]] + b[1..][..i];
        assert FirstDifference(a, b, i + 1);
      }
      if i: nat :| FirstDifference(a, b, i) {
        assert a[1..][..i - 1] == a[..i][1..] && b[1..][..i - 1] == b[..i][1..];
        assert FirstDifference(a[1..], b[1..], i - 1);
      }
    }
  }
}
