/** Go's shifts and OR on uint32, and what each bit of them is. */
module Bits {
  import opened GoStrings

  /** Bit k of a number, counted from the lowest. */
  predicate Bit(v: nat, k: nat)
    decreases k
  {
    if k == 0 then v % 2 == 1 else Bit(v / 2, k - 1)
  }

  /** v << n, one place at a time: what leaves 32 bits is lost. */
  function ShiftLeft(v: u32, n: nat): u32
    decreases n
  {
    if n == 0 then v else ShiftLeft(2 * v % 0x1_0000_0000, n - 1)
  }

  /** v >> n, one place at a time. */
  function ShiftRight(v: u32, n: nat): u32
    decreases n
  {
    if n == 0 then v else ShiftRight(v / 2, n - 1)
  }

  /** a | b, bit by bit. */
  function OrOf(a: nat, b: nat): (r: nat)
    ensures r <= a + b && r >= a && r >= b
    decreases a
  {
    if a == 0 then b else 2 * OrOf(a / 2, b / 2) + if a % 2 == 1 || b % 2 == 1 then 1 else 0
  }

  function Or(a: u32, b: u32): u32 { OrOf(a, b) % 0x1_0000_0000 }

  function LowByte(v: u32): byte { (v % 256) as byte }

  function Pow2(n: nat): (p: nat)
    ensures p > 0
  {
    if n == 0 then 1 else 2 * Pow2(n - 1)
  }

  function Quotient(v: nat, n: nat): nat {
    hide Pow2;
    v / Pow2(n)
  }

  lemma {:induction false} NoBitOfZero(k: nat)
    ensures !Bit(0, k)
  {
    if k > 0 {
      NoBitOfZero(k - 1);
    }
  }

  /** Two numbers side by side: x below bit n, y from it on. */
  lemma {:induction false} BitOfSum(x: nat, y: nat, n: nat, k: nat)
    requires x < Pow2(n)
    ensures Bit(x + Pow2(n) * y, k) <==> if k < n then Bit(x, k) else Bit(y, k - n)
    decreases n
  {
    if n > 0 {
      var w := Pow2(n - 1) * y;
      assert Pow2(n) * y == 2 * w;
      assert (x + 2 * w) / 2 == x / 2 + w && (x + 2 * w) % 2 == x % 2;
      if k > 0 {
        BitOfSum(x / 2, y, n - 1, k - 1);
      }
    }
  }

  lemma {:induction false} BitAbove(v: nat, n: nat, k: nat)
    requires v < Pow2(n) && k >= n
    ensures !Bit(v, k)
    decreases n
  {
    if n == 0 {
      NoBitOfZero(k);
    } else {
      BitAbove(v / 2, n - 1, k - 1);
    }
  }

  /** Cutting to n bits keeps those below n. */
  lemma BitOfMod(v: nat, n: nat, k: nat)
    ensures Bit(v % Pow2(n), k) <==> k < n && Bit(v, k)
  {
    hide Bit, Pow2;
    var p := Pow2(n);
    assert v == v % p + p * (v / p);
    BitOfSum(v % p, v / p, n, k);
    if k >= n {
      BitAbove(v % p, n, k);
    }
  }

  /** Dividing by a power of two drops the bits below it. */
  lemma BitOfQuotient(v: nat, n: nat, k: nat)
    ensures Bit(Quotient(v, n), k) <==> Bit(v, n + k)
  {
    hide Bit, Pow2;
    var p := Pow2(n);
    assert v == v % p + p * (v / p);
    BitOfSum(v % p, v / p, n, n + k);
  }

  /** The bits decide the number. */
  lemma {:induction false} BitsDecide(a: nat, b: nat, n: nat)
    requires a < Pow2(n) && b < Pow2(n) && forall k: nat | k < n :: Bit(a, k) == Bit(b, k)
    ensures a == b
    decreases n
  {
    if n > 0 {
      assert Bit(a, 0) == Bit(b, 0);
      forall k: nat | k < n - 1 ensures Bit(a / 2, k) == Bit(b / 2, k) {
        assert Bit(a, k + 1) == Bit(b, k + 1);
      }
      BitsDecide(a / 2, b / 2, n - 1);
    }
  }

  lemma {:induction false} BitOfShiftRight(v: u32, n: nat, k: nat)
    ensures Bit(ShiftRight(v, n), k) <==> Bit(v, n + k)
    decreases n
  {
    if n > 0 {
      BitOfShiftRight(v / 2, n - 1, k);
    }
  }

  lemma Powers()
    ensures Pow2(8) == 256 && Pow2(32) == 0x1_0000_0000
  {
    assert Pow2(4) == 16 && Pow2(8) == 16 * Pow2(4);
    assert Pow2(12) == 16 * Pow2(8) && Pow2(16) == 16 * Pow2(12);
    assert Pow2(20) == 16 * Pow2(16) && Pow2(24) == 16 * Pow2(20);
    assert Pow2(28) == 16 * Pow2(24) && Pow2(32) == 16 * Pow2(28);
  }

  lemma BitOfDouble(v: u32, k: nat)
    ensures Bit(2 * v % 0x1_0000_0000, k) <==> 0 < k < 32 && Bit(v, k - 1)
  {
    hide Pow2;
    Powers();
    BitOfMod(2 * v, 32, k);
  }

  lemma {:induction false} BitOfShiftLeft(v: u32, n: nat, k: nat)
    ensures Bit(ShiftLeft(v, n), k) <==> n <= k < 32 && Bit(v, k - n)
    decreases n
  {
    if n == 0 {
      Powers();
      if k >= 32 {
        BitAbove(v, 32, k);
      }
    } else {
      var w := 2 * v % 0x1_0000_0000;
      BitOfShiftLeft(w, n - 1, k);
      if k >= n - 1 {
        BitOfDouble(v, k - (n - 1));
      }
    }
  }

  lemma {:induction false} BitOfOrOf(a: nat, b: nat, k: nat)
    ensures Bit(OrOf(a, b), k) <==> Bit(a, k) || Bit(b, k)
    decreases a
  {
    if a == 0 {
      NoBitOfZero(k);
    } else if k > 0 {
      BitOfOrOf(a / 2, b / 2, k - 1);
    }
  }

  lemma BitOfOr(a: u32, b: u32, k: nat)
    ensures Bit(Or(a, b), k) <==> Bit(a, k) || Bit(b, k)
  {
    hide Pow2, OrOf;
    Powers();
    BitOfOrOf(a, b, k);
    BitOfMod(OrOf(a, b), 32, k);
    if k >= 32 {
      BitAbove(a, 32, k);
      BitAbove(b, 32, k);
    }
  }

  lemma BitOfLowByte(v: u32, k: nat)
    ensures Bit(LowByte(v) as int, k) <==> k < 8 && Bit(v, k)
  {
    hide Pow2;
    Powers();
    BitOfMod(v, 8, k);
  }

  // ----- little-endian numbers

  function LittleEndian(b: Bytes): nat {
    if b == [] then 0 else b[0] as int + 256 * LittleEndian(b[1..])
  }

  /** Byte i of the text holds the bits from 8 * i on. */
  lemma {:induction false} BitOfBytes(b: Bytes, i: nat, j: nat)
    requires i < |b| && j < 8
    ensures Bit(LittleEndian(b), 8 * i + j) <==> Bit(b[i] as int, j)
    decreases i
  {
    hide Pow2;
    Powers();
    BitOfSum(b[0] as int, LittleEndian(b[1..]), 8, 8 * i + j);
    if i > 0 {
      BitOfBytes(b[1..], i - 1, j);
    }
  }

  lemma {:induction false} SizeOfBytes(b: Bytes, k: nat)
    requires k >= 8 * |b|
    ensures !Bit(LittleEndian(b), k)
    decreases |b|
  {
    hide Pow2;
    if b == [] {
      NoBitOfZero(k);
    } else {
      Powers();
      BitOfSum(b[0] as int, LittleEndian(b[1..]), 8, k);
      SizeOfBytes(b[1..], k - 8);
    }
  }
}
