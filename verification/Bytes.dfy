/** Bytes, machine words and byte sequences, shared by the codecs and the buffers. */
module Bytes {
  type byte = b: int | 0 <= b < 256
  type uint32 = w: int | 0 <= w < 0x1_0000_0000
  type size_t = n: int | 0 <= n < 0x1_0000_0000_0000_0000

  function Min(a: nat, b: nat): nat {
    if a <= b then a else b
  }

  function Max(a: nat, b: nat): nat {
    if a <= b then b else a
  }

  function Pow2(k: nat): (p: nat)
    ensures p >= 1
  {
    if k == 0 then 1 else 2 * Pow2(k - 1)
  }

  /** Bitwise inclusive or. */
  function Or(a: nat, b: nat): nat {
    if a == 0 then b
    else if b == 0 then a
    else (if a % 2 == 1 || b % 2 == 1 then 1 else 0) + 2 * Or(a / 2, b / 2)
  }

  /** Fields that share no bit can be assembled with "or" or with "+" alike. */
  lemma {:induction false} OrDisjoint(a: nat, b: nat, k: nat)
    requires a < Pow2(k)
    ensures Or(a, b * Pow2(k)) == a + b * Pow2(k)
  {
    if k == 0 {
    } else if a == 0 || b == 0 {
    } else {
      var shifted := b * Pow2(k - 1);
      assert b * Pow2(k) == 2 * shifted;
      OrDisjoint(a / 2, b, k - 1);
    }
  }

  /** Bitwise exclusive or of the low k bits. */
  function Xor(a: nat, b: nat, k: nat): (r: nat)
    ensures r < Pow2(k)
  {
    if k == 0 then 0 else (a % 2 + b % 2) % 2 + 2 * Xor(a / 2, b / 2, k - 1)
  }

  lemma {:induction false} XorInvolutive(a: nat, b: nat, k: nat)
    requires a < Pow2(k)
    ensures Xor(Xor(a, b, k), b, k) == a
  {
    if k > 0 {
      var low, high := (a % 2 + b % 2) % 2, Xor(a / 2, b / 2, k - 1);
      var r := low + 2 * high;
      assert r % 2 == low && r / 2 == high;
      assert (low + b % 2) % 2 == a % 2;
      XorInvolutive(a / 2, b / 2, k - 1);
    }
  }

  /** Bit k of a number. */
  function Bit(x: nat, k: nat): (b: nat)
    ensures b <= 1
  {
    if k == 0 then x % 2 else Bit(x / 2, k - 1)
  }

  /** A bit of the exclusive or is the bit of the one number, turned over where the bit of the other is set. */
  lemma {:induction false} XorBits(a: nat, b: nat, n: nat, k: nat)
    requires k < n
    ensures Bit(Xor(a, b, n), k) == if Bit(b, k) == 1 then 1 - Bit(a, k) else Bit(a, k)
  {
    var low, high := (a % 2 + b % 2) % 2, Xor(a / 2, b / 2, n - 1);
    var r := low + 2 * high;
    assert r % 2 == low && r / 2 == high;
    if k > 0 {
      XorBits(a / 2, b / 2, n - 1, k - 1);
    }
  }

  /** A bit of the inclusive or is set where either is. */
  lemma {:induction false} OrBits(a: nat, b: nat, k: nat)
    ensures Bit(Or(a, b), k) == if Bit(a, k) == 1 || Bit(b, k) == 1 then 1 else 0
    decreases k
  {
    if a == 0 || b == 0 {
      ZeroBits(k);
    } else {
      var low := if a % 2 == 1 || b % 2 == 1 then 1 else 0;
      var r := low + 2 * Or(a / 2, b / 2);
      assert r % 2 == low && r / 2 == Or(a / 2, b / 2);
      if k > 0 {
        OrBits(a / 2, b / 2, k - 1);
      }
    }
  }

  lemma {:induction false} ZeroBits(k: nat)
    ensures Bit(0, k) == 0
  {
    if k > 0 {
      ZeroBits(k - 1);
    }
  }

  function XorByte(a: byte, b: byte): byte {
    assert Pow2(8) == 256 by { assert Pow2(4) == 16; }
    Xor(a, b, 8)
  }

  /** The low n bytes of a number, least significant first. */
  function ToLittle(v: nat, n: nat): (d: seq<byte>)
    ensures |d| == n
  {
    if n == 0 then [] else [v % 256] + ToLittle(v / 256, n - 1)
  }

  function LittleValue(d: seq<byte>): nat {
    if d == [] then 0 else d[0] + 256 * LittleValue(d[1..])
  }

  function Pow256(n: nat): nat {
    if n == 0 then 1 else 256 * Pow256(n - 1)
  }

  lemma {:induction false} LittleRoundTrip(v: nat, n: nat)
    requires v < Pow256(n)
    ensures LittleValue(ToLittle(v, n)) == v
  {
    if n > 0 {
      LittleRoundTrip(v / 256, n - 1);
      assert ToLittle(v, n)[1..] == ToLittle(v / 256, n - 1);
    }
  }

  /** The low n bytes of a number, most significant first. */
  function ToBig(v: nat, n: nat): (d: seq<byte>)
    ensures |d| == n
  {
    if n == 0 then [] else ToBig(v / 256, n - 1) + [v % 256]
  }

  function BigValue(d: seq<byte>): nat {
    if d == [] then 0 else 256 * BigValue(d[..|d| - 1]) + d[|d| - 1]
  }

  lemma {:induction false} BigRoundTrip(v: nat, n: nat)
    requires v < Pow256(n)
    ensures BigValue(ToBig(v, n)) == v
  {
    if n > 0 {
      BigRoundTrip(v / 256, n - 1);
      assert ToBig(v, n)[..n - 1] == ToBig(v / 256, n - 1);
    }
  }

  /** Digit i of a number in base 256. */
  function Digit(v: nat, i: nat): byte {
    if i == 0 then v % 256 else Digit(v / 256, i - 1)
  }

  /** Byte i of the little-endian form is digit i of the number in base 256. */
  lemma {:induction false} LittleDigit(v: nat, n: nat, i: nat)
    requires i < n
    ensures ToLittle(v, n)[i] == Digit(v, i)
  {
    if i > 0 {
      LittleDigit(v / 256, n - 1, i - 1);
    }
  }

  /** Byte i from the end of the big-endian form is. */
  lemma {:induction false} BigDigit(v: nat, n: nat, i: nat)
    requires i < n
    ensures ToBig(v, n)[n - 1 - i] == Digit(v, i)
  {
    if i > 0 {
      BigDigit(v / 256, n - 1, i - 1);
    }
  }

  lemma {:induction false} BigBound(d: seq<byte>)
    ensures BigValue(d) < Pow256(|d|)
  {
    if d != [] {
      BigBound(d[..|d| - 1]);
    }
  }

  lemma SubSlice(data: array<byte>, begin: nat, size: nat, lo: nat, hi: nat)
    requires begin + size <= data.Length && lo <= hi <= size
    ensures data[begin..begin + size][lo..hi] == data[begin + lo..begin + hi]
  {
    var all := data[..];
    assert data[begin..begin + size] == all[begin..begin + size];
    assert data[begin + lo..begin + hi] == all[begin + lo..begin + hi];
  }

  /** The concatenation of a list of byte strings. */
  function Concat(parts: seq<seq<byte>>): seq<byte> {
    if parts == [] then [] else parts[0] + Concat(parts[1..])
  }

  lemma {:induction false} ConcatAppend(a: seq<seq<byte>>, b: seq<seq<byte>>)
    ensures Concat(a + b) == Concat(a) + Concat(b)
  {
    if a == [] {
      assert a + b == b;
    } else {
      assert (a + b)[1..] == a[1..] + b;
      ConcatAppend(a[1..], b);
    }
  }
}
