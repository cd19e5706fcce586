/**
 The 64-bit difference hash of a 9 by 8 grey image and the Hamming distance between
 hashes. Hashes are unbounded naturals, as bigints are; `|`, `^`, `&` and `>>` are
 spelt out on binary digits.
 */
module Hashes {

  const HASH_W := 9
  const HASH_H := 8
  const HASH_BITS := 64

  // ----- Binary digits -------------------------------------------------------------

  function Pow2(n: nat): (p: nat)
    ensures p > 0
  {
    if n == 0 then 1 else 2 * Pow2(n - 1)
  }

  predicate Bit(x: nat, i: nat) {
    if i == 0 then x % 2 == 1 else Bit(x / 2, i - 1)
  }

  function Xor(a: nat, b: nat): nat
    decreases a + b
  {
    if a == 0 && b == 0 then 0 else 2 * Xor(a / 2, b / 2) + (if a % 2 != b % 2 then 1 else 0)
  }

  function Or(a: nat, b: nat): nat
    decreases a + b
  {
    if a == 0 && b == 0 then 0 else 2 * Or(a / 2, b / 2) + (if a % 2 == 1 || b % 2 == 1 then 1 else 0)
  }

  function PopCount(x: nat): nat {
    if x == 0 then 0 else x % 2 + PopCount(x / 2)
  }

  lemma {:induction false} ZeroBit(i: nat)
    ensures !Bit(0, i)
  {
    if i > 0 { ZeroBit(i - 1); }
  }

  lemma {:induction false} BitSplit(x: nat, i: nat)
    ensures Bit(x, i) <==> if i == 0 then x % 2 == 1 else Bit(x / 2, i - 1)
  {
  }

  lemma {:induction false} XorSplit(a: nat, b: nat)
    ensures Xor(a, b) % 2 == 1 <==> a % 2 != b % 2
    ensures Xor(a, b) / 2 == if a == 0 && b == 0 then 0 else Xor(a / 2, b / 2)
  {
  }

  lemma {:induction false} OrSplit(a: nat, b: nat)
    ensures Or(a, b) % 2 == 1 <==> a % 2 == 1 || b % 2 == 1
    ensures Or(a, b) / 2 == if a == 0 && b == 0 then 0 else Or(a / 2, b / 2)
  {
  }

  lemma {:induction false} XorBit(a: nat, b: nat, i: nat)
    ensures Bit(Xor(a, b), i) <==> (Bit(a, i) != Bit(b, i))
    decreases i
  {
    hide *;
    XorSplit(a, b);
    BitSplit(Xor(a, b), i);
    BitSplit(a, i);
    BitSplit(b, i);
    if i > 0 {
      if a == 0 && b == 0 {
        ZeroBit(i - 1);
      } else {
        XorBit(a / 2, b / 2, i - 1);
      }
    }
  }

  lemma {:induction false} OrBit(a: nat, b: nat, i: nat)
    ensures Bit(Or(a, b), i) <==> Bit(a, i) || Bit(b, i)
    decreases i
  {
    hide *;
    OrSplit(a, b);
    BitSplit(Or(a, b), i);
    BitSplit(a, i);
    BitSplit(b, i);
    if i > 0 {
      if a == 0 && b == 0 {
        ZeroBit(i - 1);
      } else {
        OrBit(a / 2, b / 2, i - 1);
      }
    }
  }

  lemma {:induction false} Pow2Bit(n: nat, i: nat)
    ensures Bit(Pow2(n), i) <==> i == n
    decreases i
  {
    if n == 0 {
      if i > 0 { ZeroBit(i - 1); }
    } else if i > 0 {
      Pow2Bit(n - 1, i - 1);
    }
  }

  /** A number below 2^n has no bit at n or above. */
  lemma {:induction false} NoBitAbove(x: nat, n: nat, i: nat)
    requires x < Pow2(n) && n <= i
    ensures !Bit(x, i)
    decreases n
  {
    if n == 0 {
      ZeroBit(i);
    } else {
      NoBitAbove(x / 2, n - 1, i - 1);
    }
  }

  /** A number without bits at n or above is below 2^n. */
  lemma {:induction false} BelowPow2(x: nat, n: nat)
    requires forall i: nat :: n <= i ==> !Bit(x, i)
    ensures x < Pow2(n)
    decreases n
  {
    if n == 0 {
      if x > 0 {
        var i := HighBit(x);
      }
    } else {
      forall i: nat | n - 1 <= i ensures !Bit(x / 2, i) {
        assert !Bit(x, i + 1);
      }
      BelowPow2(x / 2, n - 1);
    }
  }

  lemma {:induction false} HighBit(x: nat) returns (i: nat)
    requires x > 0
    ensures Bit(x, i)
  {
    if x % 2 == 1 {
      i := 0;
    } else {
      i := HighBit(x / 2);
      i := i + 1;
    }
  }

  // ----- Hamming distance ------------------------------------------------------------

  function Distance(a: nat, b: nat): nat {
    PopCount(Xor(a, b))
  }

  method Hamming(a: nat, b: nat) returns (count: nat)
    ensures count == Distance(a, b)
  {
    var x := Xor(a, b);
    count := 0;
    while x > 0
      invariant count + PopCount(x) == Distance(a, b)
    {
      count := count + x % 2;
      x := x / 2;
    }
  }

  lemma {:induction false} DistanceStep(a: nat, b: nat)
    ensures Distance(a, b) == Distance(a / 2, b / 2) + (if a % 2 != b % 2 then 1 else 0)
  {
    if a == 0 && b == 0 {
    } else {
      assert Xor(a, b) / 2 == Xor(a / 2, b / 2);
    }
  }

  lemma {:induction false} DistanceZero(a: nat, b: nat)
    ensures Distance(a, b) == 0 <==> a == b
    decreases a + b
  {
    if a != 0 || b != 0 {
      DistanceStep(a, b);
      DistanceZero(a / 2, b / 2);
    }
  }

  lemma {:induction false} DistanceSymmetric(a: nat, b: nat)
    ensures Distance(a, b) == Distance(b, a)
    decreases a + b
  {
    if a != 0 || b != 0 {
      DistanceStep(a, b);
      DistanceStep(b, a);
      DistanceSymmetric(a / 2, b / 2);
    }
  }

  lemma {:induction false} Triangle(a: nat, b: nat, c: nat)
    ensures Distance(a, c) <= Distance(a, b) + Distance(b, c)
    decreases a + b + c
  {
    if a != 0 || b != 0 || c != 0 {
      DistanceStep(a, b);
      DistanceStep(b, c);
      DistanceStep(a, c);
      Triangle(a / 2, b / 2, c / 2);
    }
  }

  /** Hamming distance is a metric on hashes. */
  lemma {:induction false} HammingIsMetric(a: nat, b: nat, c: nat)
    ensures Distance(a, b) == 0 <==> a == b
    ensures Distance(a, b) == Distance(b, a)
    ensures Distance(a, c) <= Distance(a, b) + Distance(b, c)
  {
    DistanceZero(a, b);
    DistanceSymmetric(a, b);
    Triangle(a, b, c);
  }

  // ----- The difference hash -----------------------------------------------------------

  /** A missing byte reads as zero. */
  function Pixel(gray: seq<nat>, i: int): nat {
    if 0 <= i < |gray| then gray[i] else 0
  }

  /** In row `pos / 8`, pixel `pos % 8` is brighter than the one to its right. */
  predicate Brighter(gray: seq<nat>, pos: nat) {
    var i := pos / HASH_H * HASH_W + pos % HASH_H;
    Pixel(gray, i) > Pixel(gray, i + 1)
  }

  function HashPrefix(gray: seq<nat>, n: nat): nat {
    if n == 0 then 0
    else if Brighter(gray, n - 1) then Or(HashPrefix(gray, n - 1), Pow2(n - 1))
    else HashPrefix(gray, n - 1)
  }

  function DHash(gray: seq<nat>): nat {
    HashPrefix(gray, HASH_BITS)
  }

  method ComputeDHash(gray: seq<nat>) returns (bits: nat)
    ensures bits == DHash(gray)
  {
    bits := 0;
    var pos := 0;
    for row := 0 to HASH_H
      invariant pos == row * HASH_H && bits == HashPrefix(gray, pos)
    {
      for col := 0 to HASH_H
        invariant pos == row * HASH_H + col && bits == HashPrefix(gray, pos)
      {
        var left := Pixel(gray, row * HASH_W + col);
        var right := Pixel(gray, row * HASH_W + col + 1);
        assert pos / HASH_H == row && pos % HASH_H == col;
        if left > right {
          bits := Or(bits, Pow2(pos));
        }
        pos := pos + 1;
      }
    }
  }

  lemma {:induction false} HashPrefixBit(gray: seq<nat>, n: nat, i: nat)
    ensures Bit(HashPrefix(gray, n), i) <==> i < n && Brighter(gray, i)
  {
    if n == 0 {
      ZeroBit(i);
    } else {
      HashPrefixBit(gray, n - 1, i);
      OrBit(HashPrefix(gray, n - 1), Pow2(n - 1), i);
      Pow2Bit(n - 1, i);
    }
  }

  /** The hash fits 64 bits and bit i says whether comparison i came out brighter. */
  lemma {:induction false} DHashBits(gray: seq<nat>)
    ensures DHash(gray) < Pow2(HASH_BITS)
    ensures forall i :: 0 <= i < HASH_BITS ==> (Bit(DHash(gray), i) <==> Brighter(gray, i))
  {
    forall i: nat ensures Bit(DHash(gray), i) <==> i < HASH_BITS && Brighter(gray, i) {
      HashPrefixBit(gray, HASH_BITS, i);
    }
    BelowPow2(DHash(gray), HASH_BITS);
  }

  /** The positions below n where x has a one. */
  function Ones(x: nat, n: nat): set<nat> {
    set i | 0 <= i < n && Bit(x, i)
  }

  function CountBits(x: nat, n: nat): nat {
    if n == 0 then 0 else CountBits(x, n - 1) + if Bit(x, n - 1) then 1 else 0
  }

  lemma {:induction false} CountBitsIsOnes(x: nat, n: nat)
    ensures CountBits(x, n) == |Ones(x, n)|
  {
    if n == 0 {
      assert Ones(x, n) == {};
    } else {
      CountBitsIsOnes(x, n - 1);
      assert Ones(x, n) == Ones(x, n - 1) + if Bit(x, n - 1) then {n - 1} else {};
    }
  }

  lemma {:induction false} CountBitsLow(x: nat, n: nat)
    requires n > 0
    ensures CountBits(x, n) == x % 2 + CountBits(x / 2, n - 1)
  {
    if n > 1 {
      CountBitsLow(x, n - 1);
    }
  }

  lemma {:induction false} PopCountIsOnes(x: nat, n: nat)
    requires x < Pow2(n)
    ensures PopCount(x) == CountBits(x, n)
    decreases n
  {
    if n > 0 {
      CountBitsLow(x, n);
      PopCountIsOnes(x / 2, n - 1);
    }
  }

  /** The distance of two image hashes is the number of the 64 comparisons that differ. */
  lemma {:induction false} DistanceCountsDifferences(a: seq<nat>, b: seq<nat>)
    ensures Distance(DHash(a), DHash(b))
         == |set i: nat | 0 <= i < HASH_BITS && Brighter(a, i) != Brighter(b, i)|
  {
    var x := Xor(DHash(a), DHash(b));
    DHashBits(a);
    DHashBits(b);
    forall i: nat ensures Bit(x, i) <==> Bit(DHash(a), i) != Bit(DHash(b), i) {
      XorBit(DHash(a), DHash(b), i);
    }
    hide DHash, Xor, Bit, Brighter;
    forall i: nat | HASH_BITS <= i ensures !Bit(x, i) {
      NoBitAbove(DHash(a), HASH_BITS, i);
      NoBitAbove(DHash(b), HASH_BITS, i);
    }
    BelowPow2(x, HASH_BITS);
    PopCountIsOnes(x, HASH_BITS);
    CountBitsIsOnes(x, HASH_BITS);
    assert Ones(x, HASH_BITS) == set i: nat | 0 <= i < HASH_BITS && Brighter(a, i) != Brighter(b, i);
  }
}
