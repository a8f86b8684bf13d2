/** Byte strings: searching, and big-endian integers of any width. */
module Bytes {

  type byte = x: int | 0 <= x < 256

  datatype Option<+T> = None | Some(value: T)

  // ----- Searching -----

  predicate MatchAt(hay: seq<byte>, needle: seq<byte>, i: nat) {
    i + |needle| <= |hay| && hay[i..i + |needle|] == needle
  }

  /** memmem: the first occurrence at or after a position. */
  function IndexOf(hay: seq<byte>, needle: seq<byte>, from: nat): (r: Option<nat>)
    requires from <= |hay|
    ensures r.Some? ==> from <= r.value && MatchAt(hay, needle, r.value)
    ensures r.Some? ==> forall i :: from <= i < r.value ==> !MatchAt(hay, needle, i)
    ensures r.None? ==> forall i :: from <= i <= |hay| ==> !MatchAt(hay, needle, i)
    decreases |hay| - from
  {
    if MatchAt(hay, needle, from) then Some(from)
    else if from == |hay| then None
    else IndexOf(hay, needle, from + 1)
  }

  /** std::find: the first position of a byte, the length of the string when it is absent. */
  function FindByte(s: seq<byte>, b: byte): (i: nat)
    ensures i <= |s|
    ensures i < |s| ==> s[i] == b
    ensures forall k :: 0 <= k < i ==> s[k] != b
  {
    if s == [] || s[0] == b then 0 else 1 + FindByte(s[1..], b)
  }

  // ----- Text -----

  predicate IsAscii(s: string) {
    forall i :: 0 <= i < |s| ==> s[i] as int < 128
  }

  /** The bytes of an ASCII text. */
  function Ascii(s: string): (b: seq<byte>)
    requires IsAscii(s)
    ensures |b| == |s| && forall i :: 0 <= i < |s| ==> b[i] == s[i] as int
  {
    seq(|s|, i requires 0 <= i < |s| => s[i] as int)
  }

  // ----- Concatenation of many sequences -----

  function Flatten<T>(parts: seq<seq<T>>): seq<T> {
    if parts == [] then [] else parts[0] + Flatten(parts[1..])
  }

  lemma {:induction false} FlattenConcat<T>(a: seq<seq<T>>, b: seq<seq<T>>)
    ensures Flatten(a + b) == Flatten(a) + Flatten(b)
  {
    if a == [] {
      assert a + b == b;
    } else {
      assert (a + b)[1..] == a[1..] + b;
      FlattenConcat(a[1..], b);
    }
  }

  lemma FlattenOne<T>(a: seq<T>)
    ensures Flatten([a]) == a
  {
    assert Flatten([a]) == a + Flatten([]);
  }

  lemma FlattenSnoc<T>(parts: seq<seq<T>>, last: seq<T>)
    ensures Flatten(parts + [last]) == Flatten(parts) + last
  {
    FlattenConcat(parts, [last]);
    FlattenOne(last);
  }

  // ----- Big-endian integers -----

  function Pow256(n: nat): (p: nat)
    ensures p >= 1 && (n > 0 ==> p % 2 == 0)
  {
    if n == 0 then 1 else 256 * Pow256(n - 1)
  }

  /** The n low bytes of an integer in two's complement, most significant first. */
  function EncodeInt(n: nat, x: int): (s: seq<byte>)
    ensures |s| == n
  {
    if n == 0 then [] else EncodeInt(n - 1, x / 256) + [x % 256]
  }

  function DecodeUnsigned(s: seq<byte>): nat {
    if s == [] then 0 else DecodeUnsigned(s[..|s| - 1]) * 256 + s[|s| - 1]
  }

  function DecodeInt(s: seq<byte>): int {
    var u := DecodeUnsigned(s);
    if s != [] && u >= Pow256(|s|) / 2 then u - Pow256(|s|) else u
  }

  /** Network byte order: byte i of n counts 256 to the power of n - 1 - i. */
  lemma {:induction false} EncodeIntAt(n: nat, x: int, i: nat)
    requires i < n
    ensures EncodeInt(n, x)[i] == x / Pow256(n - 1 - i) % 256
  {
    if i == n - 1 {
      assert Pow256(0) == 1;
    } else {
      EncodeIntAt(n - 1, x / 256, i);
      DivideTwice(x, Pow256(n - 2 - i));
    }
  }

  lemma DivideTwice(x: int, p: int)
    requires p > 0
    ensures x / 256 / p == x / (256 * p)
  {
    var q, r := x / 256 / p, x / 256 % p;
    var d, t := 256 * p, 256 * r + x % 256;
    assert x / 256 == q * p + r && x == 256 * (x / 256) + x % 256;
    assert q * d == 256 * (q * p);
    QuotientUnique(d, q, t, x / d, x % d);
  }

  lemma QuotientUnique(d: int, q: int, r: int, s: int, t: int)
    requires 0 <= r < d && 0 <= t < d && q * d + r == s * d + t
    ensures q == s
  {
    MultipleAbove(d, q, s);
    MultipleAbove(d, s, q);
  }

  lemma {:induction false} MultipleAbove(d: nat, q: int, s: int)
    ensures q < s ==> q * d + d <= s * d
    decreases s - q
  {
    if q + 1 < s {
      MultipleAbove(d, q + 1, s);
    }
    assert (q + 1) * d == q * d + d;
  }

  predicate FitsSigned(n: nat, x: int) {
    0 <= 2 * x + Pow256(n) < 2 * Pow256(n)
  }

  lemma {:induction false} EncodeIntModulo(n: nat, x: int)
    ensures EncodeInt(n, x + Pow256(n)) == EncodeInt(n, x)
  {
    if n > 0 {
      assert (x + Pow256(n)) / 256 == x / 256 + Pow256(n - 1);
      EncodeIntModulo(n - 1, x / 256);
    }
  }

  lemma {:induction false} DecodeUnsignedEncode(n: nat, x: nat)
    requires x < Pow256(n)
    ensures DecodeUnsigned(EncodeInt(n, x)) == x
  {
    if n > 0 {
      DecodeUnsignedEncode(n - 1, x / 256);
      assert EncodeInt(n, x)[..n - 1] == EncodeInt(n - 1, x / 256);
    }
  }

  lemma {:induction false} DecodeUnsignedBound(s: seq<byte>)
    ensures DecodeUnsigned(s) < Pow256(|s|)
  {
    if s != [] {
      DecodeUnsignedBound(s[..|s| - 1]);
    }
  }

  /** Exactly the integers of a width survive network byte order and back. */
  lemma IntRoundTrip(n: nat, x: int)
    requires n > 0
    ensures DecodeInt(EncodeInt(n, x)) == x <==> FitsSigned(n, x)
  {
    if FitsSigned(n, x) {
      if x < 0 {
        EncodeIntModulo(n, x);
        DecodeUnsignedEncode(n, x + Pow256(n));
      } else {
        DecodeUnsignedEncode(n, x);
      }
    } else {
      DecodeUnsignedBound(EncodeInt(n, x));
    }
  }
}
