/** The `u32` light masks of day 10, as naturals. A mask is read bit by bit:
    bit `i` of `x` is the parity of `x / 2^i`. The bitwise operators are
    defined by recursion on that binary expansion, and each is characterised
    bit by bit; two masks with the same bits are equal (`BitsEqual`). */
module Bits {

  function Pow2(n: nat): (r: nat)
    ensures r >= 1
  {
    if n == 0 then 1 else 2 * Pow2(n - 1)
  }

  /** `0xFFFF_FFFF`, the largest `u32`. */
  const MaxU32: nat := 0xFFFF_FFFF

  lemma {:induction false} Pow2Add(a: nat, b: nat)
    ensures Pow2(a + b) == Pow2(a) * Pow2(b)
  {
    if a > 0 {
      Pow2Add(a - 1, b);
    }
  }

  lemma Pow2Of32()
    ensures Pow2(32) == MaxU32 + 1
  {
    assert Pow2(4) == 16;
    Pow2Add(4, 4);
    Pow2Add(8, 8);
    Pow2Add(16, 16);
  }

  /** Bit `i` of `x`. */
  predicate Bit(x: nat, i: nat)
  {
    if i == 0 then x % 2 == 1 else Bit(x / 2, i - 1)
  }

  lemma {:induction false} ZeroBit(i: nat)
    ensures !Bit(0, i)
  {
    if i > 0 {
      ZeroBit(i - 1);
    }
  }

  /** `2 * x + b` shifts `x` up by one bit and puts `b` at the bottom. */
  lemma DoubleBit(x: nat, b: nat, i: nat)
    requires b <= 1
    ensures Bit(2 * x + b, i) <==> if i == 0 then b == 1 else Bit(x, i - 1)
  {
    assert (2 * x + b) / 2 == x;
  }

  /** A mask below `2^n` has no bit at `n` or above. */
  lemma {:induction false} HighBit(x: nat, n: nat, i: nat)
    requires x < Pow2(n) && n <= i
    ensures !Bit(x, i)
  {
    if n == 0 {
      assert x == 0;
      ZeroBit(i);
    } else {
      HighBit(x / 2, n - 1, i - 1);
    }
  }

  /** A mask is determined by its bits. */
  lemma {:induction false} BitsEqual(a: nat, b: nat)
    requires forall i: nat :: Bit(a, i) == Bit(b, i)
    ensures a == b
    decreases a + b
  {
    assert Bit(a, 0) == Bit(b, 0);
    if a != 0 || b != 0 {
      forall i: nat ensures Bit(a / 2, i) == Bit(b / 2, i) {
        assert Bit(a, i + 1) == Bit(b, i + 1);
      }
      BitsEqual(a / 2, b / 2);
    }
  }

  /** `1 << d`. */
  lemma {:induction false} Pow2Bit(d: nat, i: nat)
    ensures Bit(Pow2(d), i) <==> i == d
  {
    if d == 0 {
      if i > 0 {
        ZeroBit(i - 1);
      }
    } else if i > 0 {
      Pow2Bit(d - 1, i - 1);
    }
  }

  /** `a ^ b`. */
  function Xor(a: nat, b: nat): nat
  {
    if a == 0 then b
    else if b == 0 then a
    else 2 * Xor(a / 2, b / 2) + (if a % 2 == b % 2 then 0 else 1)
  }

  /** `a & b`. */
  function And(a: nat, b: nat): nat
  {
    if a == 0 || b == 0 then 0
    else 2 * And(a / 2, b / 2) + (if a % 2 == 1 && b % 2 == 1 then 1 else 0)
  }

  /** `a | b`. */
  function Or(a: nat, b: nat): nat
  {
    if a == 0 then b
    else if b == 0 then a
    else 2 * Or(a / 2, b / 2) + (if a % 2 == 1 || b % 2 == 1 then 1 else 0)
  }

  /** `!x` on a `u32`. */
  function Not(x: nat): nat
    requires x <= MaxU32
  {
    MaxU32 - x
  }

  lemma {:induction false} XorBit(a: nat, b: nat, i: nat)
    ensures Bit(Xor(a, b), i) <==> Bit(a, i) != Bit(b, i)
  {
    if a == 0 {
      ZeroBit(i);
    } else if b == 0 {
      ZeroBit(i);
    } else {
      DoubleBit(Xor(a / 2, b / 2), if a % 2 == b % 2 then 0 else 1, i);
      if i > 0 {
        XorBit(a / 2, b / 2, i - 1);
      }
    }
  }

  lemma {:induction false} AndBit(a: nat, b: nat, i: nat)
    ensures Bit(And(a, b), i) <==> Bit(a, i) && Bit(b, i)
  {
    if a == 0 || b == 0 {
      ZeroBit(i);
    } else {
      DoubleBit(And(a / 2, b / 2), if a % 2 == 1 && b % 2 == 1 then 1 else 0, i);
      if i > 0 {
        AndBit(a / 2, b / 2, i - 1);
      }
    }
  }

  lemma {:induction false} OrBit(a: nat, b: nat, i: nat)
    ensures Bit(Or(a, b), i) <==> Bit(a, i) || Bit(b, i)
  {
    if a == 0 {
      ZeroBit(i);
    } else if b == 0 {
      ZeroBit(i);
    } else {
      DoubleBit(Or(a / 2, b / 2), if a % 2 == 1 || b % 2 == 1 then 1 else 0, i);
      if i > 0 {
        OrBit(a / 2, b / 2, i - 1);
      }
    }
  }

  /** `2^n - 1 - x` has exactly the bits below `n` that `x` lacks. */
  lemma {:induction false} ComplementBit(n: nat, x: nat, i: nat)
    requires x < Pow2(n)
    ensures Bit(Pow2(n) - 1 - x, i) <==> i < n && !Bit(x, i)
  {
    if n == 0 {
      ZeroBit(i);
    } else {
      var y := Pow2(n) - 1 - x;
      assert y == 2 * (Pow2(n - 1) - 1 - x / 2) + (1 - x % 2);
      DoubleBit(Pow2(n - 1) - 1 - x / 2, 1 - x % 2, i);
      if i > 0 {
        ComplementBit(n - 1, x / 2, i - 1);
      }
    }
  }

  lemma NotBit(x: nat, i: nat)
    requires x <= MaxU32
    ensures Bit(Not(x), i) <==> i < 32 && !Bit(x, i)
  {
    Pow2Of32();
    ComplementBit(32, x, i);
  }

  lemma XorComm(a: nat, b: nat)
    ensures Xor(a, b) == Xor(b, a)
  {
    forall i: nat ensures Bit(Xor(a, b), i) == Bit(Xor(b, a), i) {
      XorBit(a, b, i);
      XorBit(b, a, i);
    }
    BitsEqual(Xor(a, b), Xor(b, a));
  }

  lemma XorAssoc(a: nat, b: nat, c: nat)
    ensures Xor(Xor(a, b), c) == Xor(a, Xor(b, c))
  {
    forall i: nat ensures Bit(Xor(Xor(a, b), c), i) == Bit(Xor(a, Xor(b, c)), i) {
      XorBit(Xor(a, b), c, i);
      XorBit(a, b, i);
      XorBit(a, Xor(b, c), i);
      XorBit(b, c, i);
    }
    BitsEqual(Xor(Xor(a, b), c), Xor(a, Xor(b, c)));
  }

  /** Toggles commute: applying `m` before or after `b` gives the same lights. */
  lemma XorSwap(a: nat, b: nat, m: nat)
    ensures Xor(a, Xor(b, m)) == Xor(Xor(a, m), b)
  {
    XorComm(b, m);
    XorAssoc(a, m, b);
  }

  /** Toggling twice with the same mask undoes the toggle. */
  lemma XorCancel(a: nat, b: nat)
    ensures Xor(Xor(a, b), b) == a
  {
    forall i: nat ensures Bit(Xor(Xor(a, b), b), i) == Bit(a, i) {
      XorBit(Xor(a, b), b, i);
      XorBit(a, b, i);
    }
    BitsEqual(Xor(Xor(a, b), b), a);
  }

  /** The toggle written with `&`, `!` and `|` in `find_combinations` — lights
      outside `mask` kept, lights inside flipped — is the exclusive or. */
  lemma ToggleIsXor(leds: nat, mask: nat)
    requires leds <= MaxU32 && mask <= MaxU32
    ensures Or(And(leds, Not(mask)), Xor(And(leds, mask), mask)) == Xor(leds, mask)
  {
    var lhs := Or(And(leds, Not(mask)), Xor(And(leds, mask), mask));
    forall i: nat ensures Bit(lhs, i) == Bit(Xor(leds, mask), i) {
      OrBit(And(leds, Not(mask)), Xor(And(leds, mask), mask), i);
      AndBit(leds, Not(mask), i);
      NotBit(mask, i);
      XorBit(And(leds, mask), mask, i);
      AndBit(leds, mask, i);
      XorBit(leds, mask, i);
      if i >= 32 {
        Pow2Of32();
        HighBit(leds, 32, i);
        HighBit(mask, 32, i);
      }
    }
    BitsEqual(lhs, Xor(leds, mask));
  }
}
