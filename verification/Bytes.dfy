/** Fixed-width integers in memory, in either byte order. */
module Bytes {
  import opened Basics

  type byte = b: int | 0 <= b < 256

  function Pow256(w: nat): (r: nat)
    ensures r > 0
  {
    if w == 0 then 1 else 256 * Pow256(w - 1)
  }

  /** 2 to the power 32. */
  const TWO32: nat := 0x1_0000_0000

  const INT_MAX := 0x7fff_ffff

  /** What the conversion to a 32-bit int makes of a number. */
  function Int32(n: int): (r: int)
    ensures -0x8000_0000 <= r <= INT_MAX && (0 <= n <= INT_MAX ==> r == n)
  {
    var u := n % TWO32;
    if u <= INT_MAX then u else u - TWO32
  }

  lemma FourBytes()
    ensures Pow256(4) == TWO32
  {
    assert Pow256(1) == 256 && Pow256(2) == 0x1_0000 && Pow256(3) == 0x100_0000;
  }

  lemma EightBytes()
    ensures INT_MAX < Pow256(8)
  {
    FourBytes();
    assert Pow256(5) == 256 * TWO32 && Pow256(6) == 256 * Pow256(5) && Pow256(7) == 256 * Pow256(6);
  }

  function ToLittle(n: nat, w: nat): (s: seq<byte>)
    ensures |s| == w
  {
    if w == 0 then [] else [n % 256] + ToLittle(n / 256, w - 1)
  }

  function FromLittle(s: seq<byte>): (n: nat) {
    if s == [] then 0 else s[0] + 256 * FromLittle(s[1..])
  }

  function Reversed(s: seq<byte>): (r: seq<byte>)
    ensures |r| == |s|
    ensures forall i :: 0 <= i < |s| ==> r[i] == s[|s| - 1 - i]
  {
    if s == [] then [] else Reversed(s[1..]) + [s[0]]
  }

  /** The memory image of `n` as an unsigned integer of `w` bytes. */
  function Image(big: bool, n: nat, w: nat): (s: seq<byte>)
    ensures |s| == w
  {
    if big then Reversed(ToLittle(n, w)) else ToLittle(n, w)
  }

  function Value(big: bool, s: seq<byte>): nat {
    FromLittle(if big then Reversed(s) else s)
  }

  lemma {:induction false} LittleRoundTrip(n: nat, w: nat)
    requires n < Pow256(w)
    ensures FromLittle(ToLittle(n, w)) == n
  {
    if w > 0 {
      LittleRoundTrip(n / 256, w - 1);
      assert ToLittle(n, w)[1..] == ToLittle(n / 256, w - 1);
    }
  }

  lemma ReversedTwice(s: seq<byte>)
    ensures Reversed(Reversed(s)) == s
  {
  }

  lemma {:induction false} LittleInjective(s: seq<byte>, t: seq<byte>)
    requires |s| == |t| && FromLittle(s) == FromLittle(t)
    ensures s == t
  {
    if s != [] {
      Decompose(FromLittle(s), FromLittle(s[1..]), s[0], 256);
      Decompose(FromLittle(t), FromLittle(t[1..]), t[0], 256);
      LittleInjective(s[1..], t[1..]);
      assert s == [s[0]] + s[1..] && t == [t[0]] + t[1..];
    }
  }

  lemma DivideTwice(n: nat, a: nat, b: nat)
    requires a > 0 && b > 0
    ensures a * b > 0 && n / a / b == n / (a * b)
  {
    var q, r := n / a, n % a;
    DivMod(n, a);
    DivMod(q, b);
    Distribute(q / b * b, q % b, a);
    MultipleBelow(q % b + 1, b, a);
    Distribute(q % b, 1, a);
    Regroup(q / b, b, a);
    ProductNonNegative(q % b, a);
    Decompose(n, q / b, (q % b) * a + r, a * b);
  }

  /** Byte number `i`, counted from the least significant one. */
  lemma {:induction false} LittleDigit(n: nat, w: nat, i: nat)
    requires i < w
    ensures ToLittle(n, w)[i] == n / Pow256(i) % 256
  {
    if i > 0 {
      LittleDigit(n / 256, w - 1, i - 1);
      DivideTwice(n, 256, Pow256(i - 1));
    }
  }

  /** What is in memory: the most significant byte first on a big-endian machine, the least
      significant one first on a little-endian one. */
  lemma ImageDigits(big: bool, n: nat, w: nat, i: nat)
    requires i < w
    ensures Image(big, n, w)[i] == n / Pow256(if big then w - 1 - i else i) % 256
  {
    LittleDigit(n, w, if big then w - 1 - i else i);
  }

  /** The number with these bytes, the most significant one first. */
  function Digits2(a: int, b: int): int {
    0x100 * a + b
  }

  function Digits4(a: int, b: int, c: int, d: int): int {
    0x100_0000 * a + 0x1_0000 * b + 0x100 * c + d
  }

  lemma TwoDigits(s: seq<byte>)
    requires |s| == 2
    ensures Value(true, s) == Digits2(s[0], s[1]) && Value(false, s) == Digits2(s[1], s[0])
  {
    LittleTwo(s);
    LittleTwo(Reversed(s));
  }

  lemma LittleTwo(s: seq<byte>)
    requires |s| == 2
    ensures FromLittle(s) == Digits2(s[1], s[0])
  {
    var a := s[1..];
    assert FromLittle(a) == a[0] + 256 * FromLittle(a[1..]) && FromLittle(a[1..]) == 0;
  }

  lemma FourDigits(s: seq<byte>)
    requires |s| == 4
    ensures Value(true, s) == Digits4(s[0], s[1], s[2], s[3]) && Value(false, s) == Digits4(s[3], s[2], s[1], s[0])
  {
    LittleFour(s);
    LittleFour(Reversed(s));
  }

  lemma LittleFour(s: seq<byte>)
    requires |s| == 4
    ensures FromLittle(s) == Digits4(s[3], s[2], s[1], s[0])
  {
    var a, b, c := s[1..], s[1..][1..], s[1..][1..][1..];
    assert FromLittle(c) == c[0] + 256 * FromLittle(c[1..]) && FromLittle(c[1..]) == 0;
    assert FromLittle(b) == b[0] + 256 * FromLittle(c);
    assert FromLittle(a) == a[0] + 256 * FromLittle(b);
  }

  lemma {:induction false} LittleByte(n: nat, w: nat, i: nat)
    requires i < w && n < 256
    ensures ToLittle(n, w)[i] == if i == 0 then n else 0
  {
    if i > 0 {
      LittleByte(n / 256, w - 1, i - 1);
    }
  }

  /** The bytes are the same from either end. */
  predicate Symmetric(n: nat, w: nat) {
    Reversed(ToLittle(n, w)) == ToLittle(n, w)
  }

  /** Read in the other byte order, an integer is the same exactly when its bytes are symmetric. */
  lemma SwappedReadsBack(big: bool, n: nat, w: nat)
    requires n < Pow256(w)
    ensures Value(!big, Image(big, n, w)) == n <==> Symmetric(n, w)
  {
    var s := ToLittle(n, w);
    LittleRoundTrip(n, w);
    if FromLittle(Reversed(s)) == n {
      LittleInjective(Reversed(s), s);
    }
  }

  /** An unsigned integer that fits reads back from its image. */
  lemma ImageRoundTrip(big: bool, n: nat, w: nat)
    requires n < Pow256(w)
    ensures Value(big, Image(big, n, w)) == n
  {
    LittleRoundTrip(n, w);
    ReversedTwice(ToLittle(n, w));
  }
}
