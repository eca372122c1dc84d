// userCode: the twelve characters a person compares, cut five bits at a time
// out of a digest of the box's key and the service's salt
// (internal/account/client.go).
module UserCode {
  import opened Basics

  const ALPHABET := "ABCDEFGHJKLMNPQRSTUVWXYZ23456789"
  const LENGTH := 12

  function Pow2(k: nat): (r: nat)
    ensures r > 0
  {
    if k == 0 then 1 else 2 * Pow2(k - 1)
  }

  type Bits = x: seq<nat> | forall i | 0 <= i < |x| :: x[i] < 2

  // The number bits spell, the most significant first, and back.
  function Num(x: Bits): (n: nat)
    ensures n < Pow2(|x|)
  {
    if x == [] then 0 else 2 * Num(x[..|x| - 1]) + x[|x| - 1]
  }

  function BitsOf(n: nat, width: nat): (x: Bits)
    ensures |x| == width
  {
    if width == 0 then [] else BitsOf(n / 2, width - 1) + [n % 2]
  }

  // A digest as one string of bits.
  function DigestBits(sum: seq<Byte>): (x: Bits)
    ensures |x| == 8 * |sum|
  {
    if sum == [] then [] else BitsOf(sum[0], 8) + DigestBits(sum[1..])
  }

  // The code is the digest's first sixty bits in base 32.
  ghost predicate Spells(code: string, sum: seq<Byte>, n: nat) {
    && n <= |code| && 5 * n <= 8 * |sum|
    && forall i | 0 <= i < n :: code[i] == Letter(DigestBits(sum), i)
  }

  function Letter(x: Bits, i: nat): char
    requires 5 * i + 5 <= |x|
  {
    NumOfFive(x[5 * i..5 * i + 5]);
    ALPHABET[Num(x[5 * i..5 * i + 5])]
  }

  lemma NumOfFive(x: Bits)
    requires |x| == 5
    ensures Num(x) < 32
  {
    PowersOfTwo();
  }

  lemma PowersOfTwo()
    ensures Pow2(5) == 32 && Pow2(8) == 256 && Pow2(0) == 1
  {
    assert Pow2(5) == 2 * Pow2(4) && Pow2(4) == 2 * Pow2(3) && Pow2(3) == 2 * Pow2(2) && Pow2(2) == 2 * Pow2(1);
    assert Pow2(8) == 2 * Pow2(7) && Pow2(7) == 2 * Pow2(6) && Pow2(6) == 2 * Pow2(5);
  }

  lemma {:induction false} NumAppend(x: Bits, y: Bits)
    ensures Num(x + y) == Num(x) * Pow2(|y|) + Num(y)
  {
    hide Num, Pow2;
    NumNone();
    if y == [] {
      assert x + y == x;
    } else {
      var init, last := y[..|y| - 1], y[|y| - 1];
      NumAppend(x, init);
      NumSnoc(init, last);
      NumSnoc(x + init, last);
      assert init + [last] == y && x + init + [last] == x + y;
      OneMoreBit(Num(x), Pow2(|init|), Num(init), last);
    }
  }

  lemma NumNone()
    ensures Num([]) == 0 && Pow2(0) == 1
  {
  }

  lemma NumSnoc(x: Bits, b: nat)
    requires b < 2
    ensures Num(x + [b]) == 2 * Num(x) + b && Pow2(|x + [b]|) == 2 * Pow2(|x|)
  {
    assert (x + [b])[..|x|] == x;
  }

  lemma OneMoreBit(a: nat, p: nat, b: nat, c: nat)
    ensures 2 * (a * p + b) + c == a * (2 * p) + (2 * b + c)
  {
  }

  lemma {:induction false} NumOfBits(n: nat, width: nat)
    requires n < Pow2(width)
    ensures Num(BitsOf(n, width)) == n
  {
    if width > 0 {
      NumOfBits(n / 2, width - 1);
      assert BitsOf(n, width)[..width - 1] == BitsOf(n / 2, width - 1);
    }
  }

  lemma Grows(m: nat, d: nat)
    requires m >= 1
    ensures m * d >= d
  {
  }

  lemma Quotient(q: nat, d: nat, rest: nat)
    requires rest < d
    ensures (q * d + rest) / d == q
  {
    var n := q * d + rest;
    var p := n / d;
    assert p * d <= n < p * d + d;
    assert (p - q) * d == p * d - q * d;
    if p > q {
      Grows(p - q, d);
    } else if p < q {
      assert (q - p) * d == q * d - p * d;
      Grows(q - p, d);
    }
  }

  // Sixteen bits shifted right by 11 - r and masked are the five at r.
  lemma ShiftAndMask(x: Bits, r: nat)
    requires |x| == 16 && r < 8
    ensures Num(x) / Pow2(11 - r) % 32 == Num(x[r..r + 5])
  {
    hide Num, Pow2;
    var head: Bits, five: Bits, tail: Bits := x[..r], x[r..r + 5], x[r + 5..];
    assert x == (head + five) + tail;
    NumAppend(head + five, tail);
    Quotient(Num(head + five), Pow2(11 - r), Num(tail));
    NumAppend(head, five);
    NumOfFive(five);
    PowersOfTwo();
    Mask(Num(head), Num(five));
  }

  lemma Mask(high: nat, low: nat)
    requires low < 32
    ensures (high * 32 + low) % 32 == low
  {
  }

  lemma {:induction false} DigestSlice(sum: seq<Byte>, j: nat)
    requires j < |sum|
    ensures DigestBits(sum)[8 * j..8 * j + 8] == BitsOf(sum[j], 8)
  {
    hide Num, Pow2, BitsOf;
    var first, rest := BitsOf(sum[0], 8), DigestBits(sum[1..]);
    if j > 0 {
      DigestSlice(sum[1..], j - 1);
      SliceBehind(first, rest, 8 * (j - 1));
    } else {
      assert (first + rest)[..8] == first;
    }
  }

  lemma SliceBehind<T>(first: seq<T>, rest: seq<T>, k: nat)
    requires |first| == 8 && k + 8 <= |rest|
    ensures (first + rest)[8 + k..8 + k + 8] == rest[k..k + 8]
  {
  }

  function Pair(sum: seq<Byte>, j: nat): nat
    requires j + 1 < |sum|
  {
    var high: nat, low: nat := sum[j], sum[j + 1];
    256 * high + low
  }

  lemma PairIsSixteen(sum: seq<Byte>, j: nat)
    requires j + 1 < |sum|
    ensures Pair(sum, j) == Num(DigestBits(sum)[8 * j..8 * j + 16])
  {
    hide Num, Pow2, DigestBits, BitsOf;
    var x, k := DigestBits(sum), 8 * j;
    DigestSlice(sum, j);
    DigestSlice(sum, j + 1);
    assert 8 * (j + 1) == k + 8 && k + 8 + 8 == k + 16;
    SlicesMakePair(x, k, sum[j], sum[j + 1]);
  }

  lemma SlicesMakePair(x: Bits, k: nat, a: Byte, b: Byte)
    requires k + 16 <= |x| && x[k..k + 8] == BitsOf(a, 8) && x[k + 8..k + 16] == BitsOf(b, 8)
    ensures var m: nat, n: nat := a, b; Num(x[k..k + 16]) == 256 * m + n
  {
    hide Num, Pow2, BitsOf;
    assert x[k..k + 16] == x[k..k + 8] + x[k + 8..k + 16];
    TwoBytes(x[k..k + 8], x[k + 8..k + 16], a, b);
  }

  lemma TwoBytes(high: Bits, low: Bits, a: Byte, b: Byte)
    requires high == BitsOf(a, 8) && low == BitsOf(b, 8)
    ensures var m: nat, n: nat := a, b; Num(high + low) == 256 * m + n
  {
    hide Num, Pow2, BitsOf;
    PowersOfTwo();
    NumOfBits(a, 8);
    NumOfBits(b, 8);
    NumAppend(high, low);
    var m: nat, p := a, Pow2(|low|);
    assert p == 256 && m * p == m * 256;
  }

  // The character the loop picks.
  function Picked(sum: seq<Byte>, i: nat): char
    requires |sum| == 32 && i < LENGTH
  {
    ALPHABET[Pair(sum, 5 * i / 8) / Pow2(11 - 5 * i % 8) % 32]
  }

  lemma PickedLetter(sum: seq<Byte>, i: nat)
    requires |sum| == 32 && i < LENGTH
    ensures Picked(sum, i) == Letter(DigestBits(sum), i)
  {
    hide Num, Pow2, DigestBits, Pair, BitsOf;
    var j, r := 5 * i / 8, 5 * i % 8;
    PairIsSixteen(sum, j);
    MaskedIsFive(DigestBits(sum), 8 * j, r);
    assert 8 * j + r == 5 * i;
    NumOfFive(DigestBits(sum)[5 * i..5 * i + 5]);
  }

  lemma SliceOfSlice<T>(x: seq<T>, k: nat, n: nat, r: nat, w: nat)
    requires k + n <= |x| && r + w <= n
    ensures x[k..k + n][r..r + w] == x[k + r..k + r + w]
  {
    var a, b := x[k..k + n][r..r + w], x[k + r..k + r + w];
    forall i | 0 <= i < w ensures a[i] == b[i] {
      assert a[i] == x[k..k + n][r + i] == x[k + r + i];
    }
  }

  lemma MaskedIsFive(x: Bits, k: nat, r: nat)
    requires k + 16 <= |x| && r < 8
    ensures Num(x[k..k + 16]) / Pow2(11 - r) % 32 == Num(x[k + r..k + r + 5])
  {
    hide Num, Pow2;
    var y: Bits := x[k..k + 16];
    ShiftAndMask(y, r);
    SliceOfSlice(x, k, 16, r, 5);
  }

  method UserCodeOf(sum: seq<Byte>) returns (code: string)
    requires |sum| == 32
    ensures |code| == LENGTH && Spells(code, sum, LENGTH)
  {
    hide Letter, Num, DigestBits;
    var chars := new char[LENGTH];
    for i := 0 to LENGTH
      invariant forall k | 0 <= k < i :: chars[k] == Letter(DigestBits(sum), k)
    {
      PickedLetter(sum, i);
      var bit := 5 * i;
      var high: nat, low: nat := sum[bit / 8], sum[bit / 8 + 1];
      var pair := 256 * high + low;
      chars[i] := ALPHABET[pair / Pow2(11 - bit % 8) % 32];
    }
    code := chars[..];
  }

  // ---- What comparing codes proves ----

  lemma {:induction false} SameNumSameBits(x: Bits, y: Bits)
    requires |x| == |y| && Num(x) == Num(y)
    ensures x == y
  {
    if x != [] {
      hide Num, Pow2;
      var a: Bits, b: Bits := x[..|x| - 1], y[..|y| - 1];
      assert x == a + [x[|x| - 1]] && y == b + [y[|y| - 1]];
      NumSnoc(a, x[|x| - 1]);
      NumSnoc(b, y[|y| - 1]);
      SameNumSameBits(a, b);
    }
  }

  lemma LettersDiffer(m: nat, n: nat)
    requires m < 32 && n < 32 && ALPHABET[m] == ALPHABET[n]
    ensures m == n
  {
    PlaceOf(m);
    PlaceOf(n);
  }

  // Where a letter stands in the alphabet.
  function Place(c: char): int {
    if 'A' <= c <= 'H' then (c - 'A') as int
    else if 'J' <= c <= 'N' then (c - 'J') as int + 8
    else if 'P' <= c <= 'Z' then (c - 'P') as int + 13
    else if '2' <= c <= '9' then (c - '2') as int + 24
    else -1
  }

  lemma PlaceOf(m: nat)
    requires m < 32
    ensures Place(ALPHABET[m]) == m
  {
  }

  // Two digests spell one code exactly when their first sixty bits agree.
  lemma CodeIsSixtyBits(a: seq<Byte>, b: seq<Byte>, code: string)
    requires |a| == |b| == 32 && |code| == LENGTH && Spells(code, a, LENGTH)
    ensures Spells(code, b, LENGTH) <==> DigestBits(a)[..60] == DigestBits(b)[..60]
  {
    var x, y := DigestBits(a), DigestBits(b);
    if Spells(code, b, LENGTH) {
      forall k | 0 <= k < 60 ensures x[k] == y[k] {
        var i := k / 5;
        SameLetter(x, y, i, code);
        assert x[5 * i..5 * i + 5][k - 5 * i] == y[5 * i..5 * i + 5][k - 5 * i];
      }
    } else if x[..60] == y[..60] {
      forall i | 0 <= i < LENGTH ensures code[i] == Letter(y, i) {
        assert x[5 * i..5 * i + 5] == x[..60][5 * i..5 * i + 5] == y[..60][5 * i..5 * i + 5] == y[5 * i..5 * i + 5];
      }
    }
  }

  lemma SameLetter(x: Bits, y: Bits, i: nat, code: string)
    requires i < LENGTH == |code| && |x| == |y| == 256 && code[i] == Letter(x, i) == Letter(y, i)
    ensures x[5 * i..5 * i + 5] == y[5 * i..5 * i + 5]
  {
    var a: Bits, b: Bits := x[5 * i..5 * i + 5], y[5 * i..5 * i + 5];
    NumOfFive(a);
    NumOfFive(b);
    LettersDiffer(Num(a), Num(b));
    SameNumSameBits(a, b);
  }
}
