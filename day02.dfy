/** Day 2: invalid product IDs. An ID is invalid when its decimal digits are
    one block written `split` times (`1212` is `12` twice, `111` is `1` three
    times). `find_invalid` enumerates, in increasing order, the invalid IDs of
    a range `[min, max]` by counting up through the blocks; `resolve` sums the
    split-2 IDs (part 1) and the duplicate-free union over splits 2, 3, 5 and
    7 (part 2). */
module Day02 {
  import opened Common

  // ------------------------------------------------------------ arithmetic

  lemma MulSucc(a: nat, k: nat, m: nat)
    requires m == k + 1
    ensures a * k >= 0 && a * m == a * k + a
  {
  }

  /** Euclidean division by a positive divisor: `q * a <= x < (q + 1) * a`. */
  lemma DivBounds(x: nat, a: nat)
    requires a >= 1
    ensures (x / a) * a <= x < (x / a + 1) * a
  {
    var q, r := x / a, x % a;
    assert x == q * a + r && r < a;
    assert (q + 1) * a == q * a + a;
  }

  lemma DivLt(x: nat, a: nat, b: nat)
    requires a >= 1 && x < b * a
    ensures x / a < b
  {
    DivBounds(x, a);
    if x / a >= b {
      MulLe(b, x / a, a);
    }
  }

  lemma DivGe(x: nat, a: nat, b: nat)
    requires a >= 1 && b * a <= x
    ensures b <= x / a
  {
    DivBounds(x, a);
    if x / a < b {
      MulLe(x / a + 1, b, a);
    }
  }

  /** `m^k`. */
  function Power(m: nat, k: nat): nat
  {
    if k == 0 then 1 else Power(m, k - 1) * m
  }

  lemma {:induction false} PowerPow10(w: nat, k: nat)
    ensures Power(Pow10(w), k) == Pow10(w * k)
  {
    if k > 0 {
      PowerPow10(w, k - 1);
      assert w * (k - 1) + w == w * k;
      Pow10Add(w * (k - 1), w);
    }
  }

  /** The number of decimal digits of a positive number. */
  function NumDigits(v: nat): (d: nat)
    requires v >= 1
    ensures d >= 1 && Pow10(d - 1) <= v < Pow10(d)
  {
    if v < 10 then 1 else 1 + NumDigits(v / 10)
  }

  lemma DigitsUnique(v: nat, d: nat)
    requires d >= 1 && Pow10(d - 1) <= v < Pow10(d)
    ensures NumDigits(v) == d
  {
    var e := NumDigits(v);
    if e < d {
      Pow10Mono(e, d - 1);
    } else if e > d {
      Pow10Mono(d, e - 1);
    }
  }

  // ------------------------------------------------------- repeated blocks

  /** `(1..split).fold(value, |acc, _| acc * mul + value)`: `value` written
      `split` times, each copy shifted by `mul`. */
  function Repeat(value: nat, mul: nat, split: nat): nat
    requires split >= 1
  {
    if split == 1 then value else Repeat(value, mul, split - 1) * mul + value
  }

  /** The invalid ID whose block is `b`: `b` written `split` times in its own width. */
  function RepOf(b: nat, split: nat): nat
    requires b >= 1 && split >= 1
  {
    Repeat(b, Pow10(NumDigits(b)), split)
  }

  lemma {:induction false} RepeatAtLeast(v: nat, m: nat, k: nat)
    requires k >= 1 && m >= 1
    ensures Repeat(v, m, k) >= v
  {
    if k > 1 {
      RepeatAtLeast(v, m, k - 1);
      MulLe(1, m, Repeat(v, m, k - 1));
    }
  }

  lemma {:induction false} RepeatMono(v: nat, u: nat, m: nat, k: nat)
    requires v < u && k >= 1
    ensures Repeat(v, m, k) < Repeat(u, m, k)
  {
    if k > 1 {
      RepeatMono(v, u, m, k - 1);
      MulLe(Repeat(v, m, k - 1), Repeat(u, m, k - 1), m);
    }
  }

  lemma StepBelow(r: nat, v: nat, q: nat, m: nat)
    requires r < (v + 1) * q && v < m
    ensures r * m + v < (v + 1) * (q * m)
  {
    MulLe(r + 1, (v + 1) * q, m);
    assert (r + 1) * m == r * m + m;
  }

  lemma StepAbove(r: nat, v: nat, q: nat, m: nat)
    requires r >= v * q
    ensures r * m + v >= v * (q * m)
  {
    MulLe(v * q, r, m);
  }

  /** A block below `m` repeated `k` times stays below `(v + 1) * m^(k-1)`. */
  lemma {:induction false} RepeatBelow(v: nat, m: nat, k: nat)
    requires v < m && k >= 1
    ensures Repeat(v, m, k) < (v + 1) * Power(m, k - 1)
  {
    if k > 1 {
      RepeatBelow(v, m, k - 1);
      StepBelow(Repeat(v, m, k - 1), v, Power(m, k - 2), m);
    }
  }

  /** A block repeated `k` times is at least the block shifted `k - 1` times. */
  lemma {:induction false} RepeatAbove(v: nat, m: nat, k: nat)
    requires k >= 1
    ensures Repeat(v, m, k) >= v * Power(m, k - 1)
  {
    if k > 1 {
      RepeatAbove(v, m, k - 1);
      StepAbove(Repeat(v, m, k - 1), v, Power(m, k - 2), m);
    }
  }

  /** An invalid ID has `split` times as many digits as its block. */
  lemma RepOfWidth(b: nat, split: nat) returns (n: nat)
    requires b >= 1 && split >= 1
    ensures n == NumDigits(b) * split && n >= 1
    ensures Pow10(n - 1) <= RepOf(b, split) < Pow10(n)
  {
    var w := NumDigits(b);
    var k := split - 1;
    var p := Pow10(w);
    var q := Power(p, k);
    MulSucc(w, k, split);
    n := w * k + w;
    RepeatBelow(b, p, split);
    RepeatAbove(b, p, split);
    MulLe(b + 1, p, q);
    assert p * q == Power(p, split);
    PowerPow10(w, split);
    MulLe(Pow10(w - 1), b, q);
    PowerPow10(w, k);
    Pow10Add(w - 1, w * k);
  }

  lemma WiderBlock(a: nat, b: nat, k: nat)
    requires a < b && k >= 1
    ensures a * k + 1 <= b * k
  {
    MulLe(a + 1, b, k);
  }

  /** Invalid IDs grow with their block. */
  lemma RepOfMono(b: nat, c: nat, split: nat)
    requires 1 <= b < c && split >= 1
    ensures RepOf(b, split) < RepOf(c, split)
  {
    var wb, wc := NumDigits(b), NumDigits(c);
    if wb > wc {
      Pow10Mono(wc, wb - 1);
    }
    if wb == wc {
      RepeatMono(b, c, Pow10(wb), split);
    } else {
      var nb := RepOfWidth(b, split);
      var nc := RepOfWidth(c, split);
      WiderBlock(wb, wc, split);
      Pow10Mono(nb, nc - 1);
    }
  }

  lemma RepOfAtLeast(b: nat, split: nat)
    requires b >= 1 && split >= 1
    ensures RepOf(b, split) >= b
  {
    RepeatAtLeast(b, Pow10(NumDigits(b)), split);
  }

  // ------------------------------------------------------ decimal strings

  function DigitChar(d: nat): char
    requires d < 10
  {
    ('0' as int + d) as char
  }

  /** The decimal writing of a positive number, without leading zeros. */
  function Decimal(n: nat): string
    requires n >= 1
  {
    if n < 10 then [DigitChar(n)] else Decimal(n / 10) + [DigitChar(n % 10)]
  }

  /** `s` written `k` times. */
  function RepeatString(s: string, k: nat): string
    requires k >= 1
  {
    if k == 1 then s else RepeatString(s, k - 1) + s
  }

  /** The last digit of `x * 10p + v` is that of `v`, and the rest is `x * p + v / 10`. */
  lemma ShiftDigit(x: nat, p: nat, v: nat)
    ensures (x * (10 * p) + v) / 10 == x * p + v / 10
    ensures (x * (10 * p) + v) % 10 == v % 10
  {
    var n := x * (10 * p) + v;
    assert n == (x * p + v / 10) * 10 + v % 10;
  }

  lemma AppendAssoc(a: string, b: string, c: string)
    ensures (a + b) + c == a + (b + c)
  {
  }

  /** Shifting by the width of `v` and adding `v` writes `v` after `x`. */
  lemma {:induction false} DecimalConcat(x: nat, v: nat, w: nat)
    requires x >= 1 && v >= 1 && NumDigits(v) == w
    ensures Decimal(x * Pow10(w) + v) == Decimal(x) + Decimal(v)
    decreases w
  {
    var p := Pow10(w - 1);
    var n := x * Pow10(w) + v;
    assert n == x * (10 * p) + v;
    ShiftDigit(x, p, v);
    MulLe(1, x, 10 * p);
    assert Decimal(n) == Decimal(x * p + v / 10) + [DigitChar(v % 10)];
    if w == 1 {
      assert p == 1 && v < 10;
      assert x * p + v / 10 == x;
      assert Decimal(v) == [DigitChar(v % 10)];
    } else {
      assert p >= 10;
      assert Decimal(v) == Decimal(v / 10) + [DigitChar(v % 10)];
      DigitsUnique(v / 10, w - 1);
      DecimalConcat(x, v / 10, w - 1);
      AppendAssoc(Decimal(x), Decimal(v / 10), [DigitChar(v % 10)]);
    }
  }

  /** The generated number really is its block written `split` times. */
  lemma {:induction false} RepOfDecimal(b: nat, split: nat)
    requires b >= 1 && split >= 1
    ensures Decimal(RepOf(b, split)) == RepeatString(Decimal(b), split)
  {
    if split > 1 {
      var w := NumDigits(b);
      RepOfDecimal(b, split - 1);
      RepOfAtLeast(b, split - 1);
      DecimalConcat(RepOf(b, split - 1), b, w);
    }
  }

  // ------------------------------------------------------ the enumeration

  /** The invalid IDs in `[min, max]` whose blocks are `1 .. hi - 1`, in block order. */
  function Invalids(min: nat, max: nat, split: nat, hi: nat): seq<nat>
    requires split >= 1
  {
    if hi <= 1 then []
    else
      var n := RepOf(hi - 1, split);
      Invalids(min, max, split, hi - 1) + if min <= n <= max then [n] else []
  }

  /** `x` is some block written `split` times. */
  predicate IsInvalid(x: nat, split: nat)
    requires split >= 1
  {
    exists b :: 1 <= b <= x && RepOf(b, split) == x
  }

  /** Every listed ID comes from a block below `hi` and lies in `[min, max]`;
      every such ID is listed. */
  lemma {:induction false} InvalidsMembers(min: nat, max: nat, split: nat, hi: nat, x: nat)
    requires split >= 1
    ensures x in Invalids(min, max, split, hi) <==>
              min <= x <= max && exists b :: 1 <= b < hi && RepOf(b, split) == x
  {
    if hi > 1 {
      InvalidsMembers(min, max, split, hi - 1, x);
    }
  }

  /** Listed IDs come out strictly increasing, each below the next block's ID. */
  lemma {:induction false} InvalidsIncreasing(min: nat, max: nat, split: nat, hi: nat)
    requires split >= 1 && hi >= 1
    ensures forall a, b :: 0 <= a < b < |Invalids(min, max, split, hi)| ==>
              Invalids(min, max, split, hi)[a] < Invalids(min, max, split, hi)[b]
    ensures forall a :: 0 <= a < |Invalids(min, max, split, hi)| ==>
              Invalids(min, max, split, hi)[a] < RepOf(hi, split)
  {
    if hi > 1 {
      var prev := Invalids(min, max, split, hi - 1);
      var n := RepOf(hi - 1, split);
      InvalidsIncreasing(min, max, split, hi - 1);
      RepOfMono(hi - 1, hi, split);
      if min <= n <= max {
        var r := prev + [n];
        forall a | 0 <= a < |r| ensures r[a] <= n {
          if a < |prev| {
            assert r[a] == prev[a];
          }
        }
      }
    }
  }

  /** Blocks whose IDs all exceed `max` add nothing. */
  lemma {:induction false} InvalidsAbove(min: nat, max: nat, split: nat, lo: nat, hi: nat)
    requires split >= 1 && lo <= hi
    requires forall b :: lo <= b < hi && b >= 1 ==> RepOf(b, split) > max
    ensures Invalids(min, max, split, hi) == Invalids(min, max, split, lo)
    decreases hi - lo
  {
    if lo < hi {
      InvalidsAbove(min, max, split, lo, hi - 1);
    }
  }

  /** Blocks whose IDs all fall below `min` add nothing. */
  lemma {:induction false} InvalidsBelow(min: nat, max: nat, split: nat, hi: nat)
    requires split >= 1
    requires forall b :: 1 <= b < hi ==> RepOf(b, split) < min
    ensures Invalids(min, max, split, hi) == []
  {
    if hi > 1 {
      InvalidsBelow(min, max, split, hi - 1);
    }
  }

  /** Once the ID of block `v` exceeds `max`, the list up to `v` is complete. */
  lemma StopAt(min: nat, max: nat, split: nat, v: nat)
    requires split >= 1 && v >= 1 && RepOf(v, split) > max
    ensures Invalids(min, max, split, max + 1) == Invalids(min, max, split, v)
  {
    if v <= max + 1 {
      forall b | v <= b < max + 1 && b >= 1 ensures RepOf(b, split) > max {
        if b > v {
          RepOfMono(v, b, split);
        }
      }
      InvalidsAbove(min, max, split, v, max + 1);
    } else {
      forall b | max + 1 <= b < v && b >= 1 ensures RepOf(b, split) > max {
        RepOfAtLeast(b, split);
      }
      InvalidsAbove(min, max, split, max + 1, v);
    }
  }

  /** All invalid IDs in `[min, max]` are the blocks `1 ..= max` filtered to the range. */
  lemma InvalidsSpec(min: nat, max: nat, split: nat, x: nat)
    requires split >= 1
    ensures x in Invalids(min, max, split, max + 1) <==> min <= x <= max && IsInvalid(x, split)
  {
    InvalidsMembers(min, max, split, max + 1, x);
    if min <= x <= max && IsInvalid(x, split) {
      var b :| 1 <= b <= x && RepOf(b, split) == x;
      assert 1 <= b < max + 1;
    }
    if x in Invalids(min, max, split, max + 1) {
      var b :| 1 <= b < max + 1 && RepOf(b, split) == x;
      RepOfAtLeast(b, split);
    }
  }

  // ---------------------------------------------------------- start block

  /** `(1..split).fold(x, |acc, _| acc / mul)`. */
  function DivRepeat(x: nat, mul: nat, k: nat): nat
    requires mul >= 1
  {
    if k == 0 then x else DivRepeat(x / mul, mul, k - 1)
  }

  lemma DivStep(x: nat, m: nat, d: nat, q: nat)
    requires m >= 1 && d * q <= x / m < (d + 1) * q
    ensures d * (q * m) <= x < (d + 1) * (q * m)
  {
    DivBounds(x, m);
    MulLe(d * q, x / m, m);
    MulLe(x / m + 1, (d + 1) * q, m);
  }

  /** Dividing `k` times by `m` keeps the leading block: the quotient `d`
      satisfies `d * m^k <= x < (d + 1) * m^k`. */
  lemma {:induction false} DivRepeatBlock(x: nat, m: nat, k: nat)
    requires m >= 1
    ensures DivRepeat(x, m, k) * Power(m, k) <= x < (DivRepeat(x, m, k) + 1) * Power(m, k)
  {
    if k > 0 {
      DivRepeatBlock(x / m, m, k - 1);
      DivStep(x, m, DivRepeat(x, m, k), Power(m, k - 1));
    }
  }

  lemma DivRepeatBelow(x: nat, m: nat, k: nat)
    requires m >= 1 && x < Power(m, k) * m
    ensures DivRepeat(x, m, k) < m
  {
    DivRepeatBlock(x, m, k);
    MulLtCancel(DivRepeat(x, m, k), m, Power(m, k));
  }

  lemma DivRepeatAbove(x: nat, m: nat, k: nat, lo: nat)
    requires m >= 1 && lo * Power(m, k) <= x
    ensures DivRepeat(x, m, k) >= lo
  {
    DivRepeatBlock(x, m, k);
    MulLtCancel(lo, DivRepeat(x, m, k) + 1, Power(m, k));
  }

  /** The powers of ten met when `m` digits split into blocks of width `s`. */
  lemma ShiftPowers(s: nat, k: nat, m: nat)
    requires s >= 1 && m == s * k + s
    ensures Power(Pow10(s), k) == Pow10(m - s)
    ensures Power(Pow10(s), k) * Pow10(s) == Pow10(m)
    ensures Pow10(s - 1) * Power(Pow10(s), k) == Pow10(m - 1)
  {
    PowerPow10(s, k);
    Pow10Add(s * k, s);
    Pow10Add(s - 1, s * k);
  }

  /** A block below the leading block of `min` gives an ID below `min`. */
  lemma BlockBelowMin(b: nat, split: nat, s: nat, minDigits: nat, min: nat, value: nat)
    requires split >= 1 && 1 <= b < value < Pow10(s) && s * split == minDigits
    requires Pow10(minDigits - 1) <= min && value * Power(Pow10(s), split - 1) <= min
    ensures RepOf(b, split) < min
  {
    var w := NumDigits(b);
    if w > s {
      Pow10Mono(s, w - 1);
    }
    if w == s {
      RepeatBelow(b, Pow10(s), split);
      MulLe(b + 1, value, Power(Pow10(s), split - 1));
    } else {
      var n := RepOfWidth(b, split);
      WiderBlock(w, s, split);
      Pow10Mono(n, minDigits - 1);
    }
  }

  /** When `split` divides the digit count of `min`, the first block is the
      leading `minDigits / split` digits of `min`, and every smaller block
      gives an ID below `min`. */
  lemma StartDivisible(min: nat, minDigits: nat, split: nat, s: nat, value: nat)
    requires split >= 1 && minDigits >= 1 && Pow10(minDigits - 1) <= min < Pow10(minDigits)
    requires minDigits % split == 0 && s == minDigits / split
    requires value == DivRepeat(min, Pow10(s), split - 1)
    ensures s >= 1 && s <= minDigits && Pow10(s - 1) <= value < Pow10(s)
    ensures value * Pow10(minDigits - s) <= min < (value + 1) * Pow10(minDigits - s)
    ensures forall b :: 1 <= b < value ==> RepOf(b, split) < min
  {
    var k := split - 1;
    MulSucc(s, k, split);
    assert s * split == minDigits;
    var p := Pow10(s);
    ShiftPowers(s, k, minDigits);
    DivRepeatBelow(min, p, k);
    DivRepeatAbove(min, p, k, Pow10(s - 1));
    DivRepeatBlock(min, p, k);
    forall b | 1 <= b < value ensures RepOf(b, split) < min {
      BlockBelowMin(b, split, s, minDigits, min, value);
    }
  }

  /** Otherwise the first block is `10^(s-1)` with `s` the rounded-up block
      width, and every smaller block gives an ID below `min`. */
  lemma StartRounded(min: nat, minDigits: nat, split: nat, s: nat)
    requires split >= 1 && minDigits >= 1 && Pow10(minDigits - 1) <= min < Pow10(minDigits)
    requires s == (minDigits + split - 1) / split
    ensures s >= 1 && forall b :: 1 <= b < Pow10(s - 1) ==> RepOf(b, split) < min
  {
    assert (s - 1) * split < minDigits by {
      assert s * split <= minDigits + split - 1;
    }
    forall b | 1 <= b < Pow10(s - 1) ensures RepOf(b, split) < min {
      ShortBlock(min, minDigits, split, s - 1, b);
    }
  }

  /** A block of at most `t` digits, with `t * split` below the digit count of `min`, repeats to an ID below `min`. */
  lemma ShortBlock(min: nat, minDigits: nat, split: nat, t: nat, b: nat)
    requires split >= 1 && minDigits >= 1 && Pow10(minDigits - 1) <= min
    requires t * split < minDigits && 1 <= b < Pow10(t)
    ensures RepOf(b, split) < min
  {
    var w := NumDigits(b);
    if w > t {
      Pow10Mono(t, w - 1);
    }
    var n := RepOfWidth(b, split);
    MulLe(w, t, split);
    Pow10Mono(n, minDigits - 1);
  }

  /** Counting up one block: the width grows by one exactly when the block reaches `10^w`. */
  lemma NextBlock(value: nat, w: nat) returns (w': nat)
    requires w >= 1 && Pow10(w - 1) <= value < Pow10(w)
    ensures w' == if value + 1 == Pow10(w) then w + 1 else w
    ensures Pow10(w') == if value + 1 == Pow10(w) then Pow10(w) * 10 else Pow10(w)
    ensures w' >= 1 && Pow10(w' - 1) <= value + 1 < Pow10(w')
  {
    w' := if value + 1 == Pow10(w) then w + 1 else w;
  }

  /** The first block `find_invalid` tries, and its shift `mul == 10^w`.
      When `split` divides the digit count of `min` the block is the leading
      `minDigits / split` digits of `min`; otherwise it is `10^(w-1)`, with
      `w` the rounded-up block width. No smaller block gives an ID in range. */
  method StartBlock(min: nat, minDigits: nat, split: nat) returns (value: nat, mul: nat, ghost w: nat)
    requires split >= 1 && minDigits >= 1 && Pow10(minDigits - 1) <= min < Pow10(minDigits)
    ensures w >= 1 && mul == Pow10(w) && Pow10(w - 1) <= value < mul
    ensures minDigits % split == 0 ==>
              w == minDigits / split && value * Pow10(minDigits - w) <= min < (value + 1) * Pow10(minDigits - w)
    ensures minDigits % split != 0 ==> w == (minDigits + split - 1) / split && value == Pow10(w - 1)
    ensures forall b :: 1 <= b < value ==> RepOf(b, split) < min
  {
    var splitSize: nat;
    if minDigits % split == 0 {
      splitSize := minDigits / split;
      mul := Pow10(splitSize);
      value := DivRepeat(min, mul, split - 1);
      StartDivisible(min, minDigits, split, splitSize, value);
    } else {
      splitSize := (minDigits + split - 1) / split;
      StartRounded(min, minDigits, split, splitSize);
      value := Pow10(splitSize - 1);
      mul := 10 * value;
    }
    w := splitSize;
  }

  /** `find_invalid`: the invalid IDs in `[min, max]` with `split` copies,
      in increasing order. `minDigits` is the length of `min`'s decimal
      writing, which has no leading zero. */
  method FindInvalid(min: nat, minDigits: nat, max: nat, split: nat) returns (ret: seq<nat>)
    requires split >= 1 && minDigits >= 1 && Pow10(minDigits - 1) <= min < Pow10(minDigits)
    ensures ret == Invalids(min, max, split, max + 1)
  {
    var value, mul, w := StartBlock(min, minDigits, split);
    ret := [];
    InvalidsBelow(min, max, split, value);
    while true
      invariant w >= 1 && mul == Pow10(w)
      invariant Pow10(w - 1) <= value
      invariant value < mul
      invariant ret == Invalids(min, max, split, value)
      decreases max + 1 - value
    {
      DigitsUnique(value, w);
      var n := Repeat(value, mul, split);
      assert n == RepOf(value, split);
      if n > max {
        StopAt(min, max, split, value);
        break;
      }
      RepOfAtLeast(value, split);
      ghost var next := Invalids(min, max, split, value + 1);
      assert next == ret + if min <= n then [n] else [];
      if n >= min {
        ret := ret + [n];
      }
      w := NextBlock(value, w);
      value := value + 1;
      if value == mul {
        mul := mul * 10;
      }
    }
  }

  /** Test cases of `check_find_invalid`: `11..22` with two copies gives `[11, 22]`. */
  lemma FindInvalidExample1()
    ensures Invalids(11, 22, 2, 23) == [11, 22]
  {
    assert RepOf(1, 2) == 11 && RepOf(2, 2) == 22 && RepOf(3, 2) == 33;
    StopAt(11, 22, 2, 3);
    assert Invalids(11, 22, 2, 3) == [11, 22];
  }

  /** `998..1012` with two copies gives `[1010]`: the block width grows past `min`'s. */
  lemma FindInvalidExample2()
    ensures Invalids(998, 1012, 2, 1013) == [1010]
  {
    assert NumDigits(9) == 1 && RepOf(9, 2) == 99;
    assert NumDigits(10) == 2 && RepOf(10, 2) == 1010;
    assert NumDigits(11) == 2 && RepOf(11, 2) == 1111;
    forall b | 1 <= b < 10 ensures RepOf(b, 2) < 998 {
      if b < 9 {
        RepOfMono(b, 9, 2);
      }
    }
    InvalidsBelow(998, 1012, 2, 10);
    StopAt(998, 1012, 2, 11);
  }

  /** `1111110..1111112` with seven copies gives `[1111111]`. */
  lemma FindInvalidExample3()
    ensures Invalids(1111110, 1111112, 7, 1111113) == [1111111]
  {
    assert RepOf(1, 7) == 1111111 && RepOf(2, 7) == 2222222;
    StopAt(1111110, 1111112, 7, 2);
  }

  // ------------------------------------------------ repetition counts

  /** Writing the block `n + a` times is writing it `n` times, shifting by
      `a` blocks and writing it `a` more times. */
  lemma {:induction false} RepeatAppend(v: nat, m: nat, n: nat, a: nat)
    requires n >= 1 && a >= 1
    ensures Repeat(v, m, n + a) == Repeat(v, m, n) * Power(m, a) + Repeat(v, m, a)
  {
    if a > 1 {
      RepeatAppend(v, m, n, a - 1);
      ShiftAdd(Repeat(v, m, n), Power(m, a - 1), Repeat(v, m, a - 1), m, v);
    }
  }

  lemma ShiftAdd(r: nat, q: nat, s: nat, m: nat, v: nat)
    ensures (r * q + s) * m + v == r * (q * m) + (s * m + v)
  {
  }

  /** A block written `a * c` times is the `a`-fold block written `c` times. */
  lemma {:induction false} RepeatCompose(v: nat, m: nat, a: nat, c: nat)
    requires a >= 1 && c >= 1
    ensures Repeat(v, m, a * c) == Repeat(Repeat(v, m, a), Power(m, a), c)
  {
    if c > 1 {
      MulSucc(a, c - 1, c);
      RepeatCompose(v, m, a, c - 1);
      RepeatAppend(v, m, a * (c - 1), a);
    }
  }

  /** An ID written with `a * c` copies of `b` is written with `c` copies of `b` repeated `a` times. */
  lemma RepOfCompose(b: nat, a: nat, c: nat)
    requires b >= 1 && a >= 1 && c >= 1
    ensures RepOf(b, a) >= 1 && RepOf(b, a * c) == RepOf(RepOf(b, a), c)
  {
    var w := NumDigits(b);
    var n := RepOfWidth(b, a);
    RepOfAtLeast(b, a);
    DigitsUnique(RepOf(b, a), n);
    PowerPow10(w, a);
    RepeatCompose(b, Pow10(w), a, c);
  }

  /** Every count from 2 to 10 is a multiple of 2, 3, 5 or 7. */
  lemma SmallPrime(k: nat) returns (p: nat, a: nat)
    requires 2 <= k <= 10
    ensures (p == 2 || p == 3 || p == 5 || p == 7) && a >= 1 && a * p == k
  {
    if k % 2 == 0 {
      p, a := 2, k / 2;
    } else if k % 3 == 0 {
      p, a := 3, k / 3;
    } else if k % 5 == 0 {
      p, a := 5, k / 5;
    } else {
      p, a := 7, 1;
    }
  }

  /** IDs of at most ten digits repeated at least twice are caught by the
      splits 2, 3, 5 and 7. */
  lemma PrimeSplits(x: nat, k: nat)
    requires 2 <= k && x < Pow10(10) && IsInvalid(x, k)
    ensures IsInvalid(x, 2) || IsInvalid(x, 3) || IsInvalid(x, 5) || IsInvalid(x, 7)
  {
    var b :| 1 <= b <= x && RepOf(b, k) == x;
    var n := RepOfWidth(b, k);
    MulLe(1, NumDigits(b), k);
    if k > 10 {
      Pow10Mono(10, n - 1);
    }
    var p, a := SmallPrime(k);
    RepOfCompose(b, a, p);
    var c := RepOf(b, a);
    RepOfAtLeast(c, p);
    assert 1 <= c <= x && RepOf(c, p) == x;
  }

  // ------------------------------------------------------------- resolve

  predicate NoDuplicates(s: seq<nat>)
  {
    forall a, b :: 0 <= a < b < |s| ==> s[a] != s[b]
  }

  /** `for f in xs { if !acc.contains(&f) { acc.push(f) } }`. */
  function AddNew(acc: seq<nat>, xs: seq<nat>): seq<nat>
  {
    if xs == [] then acc
    else
      var r := AddNew(acc, xs[..|xs| - 1]);
      if xs[|xs| - 1] in r then r else r + [xs[|xs| - 1]]
  }

  /** The pushes keep `acc` as a prefix, add exactly the missing values, and add none twice. */
  lemma {:induction false} AddNewSpec(acc: seq<nat>, xs: seq<nat>)
    ensures |AddNew(acc, xs)| >= |acc| && AddNew(acc, xs)[..|acc|] == acc
    ensures forall x :: x in AddNew(acc, xs) <==> x in acc || x in xs
    ensures NoDuplicates(acc) ==> NoDuplicates(AddNew(acc, xs))
  {
    if xs != [] {
      var init := xs[..|xs| - 1];
      AddNewSpec(acc, init);
      assert xs == init + [xs[|xs| - 1]];
    }
  }

  method PushNew(acc: seq<nat>, xs: seq<nat>) returns (r: seq<nat>)
    ensures r == AddNew(acc, xs)
  {
    r := acc;
    for i := 0 to |xs|
      invariant r == AddNew(acc, xs[..i])
    {
      assert xs[..i + 1][..i] == xs[..i];
      if xs[i] !in r {
        r := r + [xs[i]];
      }
    }
    assert xs[..|xs|] == xs;
  }

  /** The `[3, 5, 7]` fold: the IDs for each further split added to `acc`. */
  function AddSplits(min: nat, max: nat, acc: seq<nat>, splits: seq<nat>): seq<nat>
    requires forall k :: 0 <= k < |splits| ==> splits[k] >= 1
  {
    if splits == [] then acc
    else AddNew(AddSplits(min, max, acc, splits[..|splits| - 1]), Invalids(min, max, splits[|splits| - 1], max + 1))
  }

  /** The part-2 list of a range: its split-2 IDs, then the new ones for 3, 5 and 7. */
  function AllInvalids(min: nat, max: nat): seq<nat>
  {
    AddSplits(min, max, Invalids(min, max, 2, max + 1), [3, 5, 7])
  }

  /** The part-2 list holds each ID of the range that is a block repeated
      2, 3, 5 or 7 times, once. */
  lemma AllInvalidsSpec(min: nat, max: nat)
    ensures NoDuplicates(AllInvalids(min, max))
    ensures forall x: nat :: x in AllInvalids(min, max) <==>
              min <= x <= max && (IsInvalid(x, 2) || IsInvalid(x, 3) || IsInvalid(x, 5) || IsInvalid(x, 7))
  {
    var i2 := Invalids(min, max, 2, max + 1);
    var i3 := Invalids(min, max, 3, max + 1);
    var i5 := Invalids(min, max, 5, max + 1);
    var i7 := Invalids(min, max, 7, max + 1);
    InvalidsIncreasing(min, max, 2, max + 1);
    assert [3, 5, 7][..2] == [3, 5] && [3, 5][..1] == [3] && [3][..0] == [];
    var a3 := AddNew(i2, i3);
    var a5 := AddNew(a3, i5);
    assert AddSplits(min, max, i2, [3]) == a3;
    assert AddSplits(min, max, i2, [3, 5]) == a5;
    AddNewSpec(i2, i3);
    AddNewSpec(a3, i5);
    AddNewSpec(a5, i7);
    assert AllInvalids(min, max) == AddNew(a5, i7);
    forall x: nat ensures x in AllInvalids(min, max) <==>
                       min <= x <= max && (IsInvalid(x, 2) || IsInvalid(x, 3) || IsInvalid(x, 5) || IsInvalid(x, 7)) {
      InvalidsSpec(min, max, 2, x);
      InvalidsSpec(min, max, 3, x);
      InvalidsSpec(min, max, 5, x);
      InvalidsSpec(min, max, 7, x);
    }
  }

  /** With `max` below `10^10` the part-2 list is every ID of the range made
      of one block repeated at least twice. */
  lemma AllRepetitions(min: nat, max: nat, x: nat)
    requires max < Pow10(10)
    ensures x in AllInvalids(min, max) <==> min <= x <= max && exists k :: 2 <= k && IsInvalid(x, k)
  {
    AllInvalidsSpec(min, max);
    if min <= x <= max && exists k :: 2 <= k && IsInvalid(x, k) {
      var k :| 2 <= k && IsInvalid(x, k);
      PrimeSplits(x, k);
    }
    if x in AllInvalids(min, max) {
      if IsInvalid(x, 2) {
        assert 2 <= 2 && IsInvalid(x, 2);
      } else if IsInvalid(x, 3) {
        assert 2 <= 3 && IsInvalid(x, 3);
      } else if IsInvalid(x, 5) {
        assert 2 <= 5 && IsInvalid(x, 5);
      } else {
        assert 2 <= 7 && IsInvalid(x, 7);
      }
    }
  }

  /** The two sums one range contributes. */
  method RangeSums(min: nat, minDigits: nat, max: nat) returns (p1: nat, p2: nat)
    requires minDigits >= 1 && Pow10(minDigits - 1) <= min < Pow10(minDigits)
    ensures p1 == Sum(Invalids(min, max, 2, max + 1))
    ensures p2 == Sum(AllInvalids(min, max))
  {
    var halves := FindInvalid(min, minDigits, max, 2);
    p1 := Sum(halves);
    var splits: seq<nat> := [3, 5, 7];
    var rest := halves;
    for i := 0 to |splits|
      invariant rest == AddSplits(min, max, halves, splits[..i])
    {
      assert splits[..i + 1][..i] == splits[..i];
      var found := FindInvalid(min, minDigits, max, splits[i]);
      rest := PushNew(rest, found);
    }
    assert splits[..3] == splits;
    p2 := Sum(rest);
  }

  lemma {:induction false} DecimalValueBound(s: string)
    requires AllDigits(s)
    ensures DecimalValue(s) < Pow10(|s|)
  {
    if s != [] {
      DecimalValueBound(s[..|s| - 1]);
    }
  }

  /** A digit string without a leading zero has exactly its length in digits. */
  lemma {:induction false} DecimalValueDigits(s: string)
    requires AllDigits(s) && s != [] && s[0] != '0'
    ensures Pow10(|s| - 1) <= DecimalValue(s) < Pow10(|s|)
  {
    DecimalValueBound(s);
    if |s| > 1 {
      DecimalValueDigits(s[..|s| - 1]);
    }
  }

  /** `rs[0]` and `rs[1]` of `range.split('-')`, or `None` where the
      indexing or the length assertions panic. */
  function RangeFields(piece: string): Option<(string, string)>
  {
    var rs := Split(piece, '-');
    if |rs| < 2 || |rs[0]| >= 11 || |rs[1]| >= 11 then None else Some((rs[0], rs[1]))
  }

  /** The input's ranges are written in decimal, the lower bound without a leading zero. */
  predicate WellFormedRange(piece: string)
  {
    RangeFields(piece).Some? ==>
      var lo := RangeFields(piece).value.0;
      AllDigits(lo) && AllDigits(RangeFields(piece).value.1) && lo != [] && lo[0] != '0'
  }

  function RangeTotals(lo: string, hi: string): (nat, nat)
    requires AllDigits(lo) && AllDigits(hi)
  {
    var min, max := DecimalValue(lo), DecimalValue(hi);
    (Sum(Invalids(min, max, 2, max + 1)), Sum(AllInvalids(min, max)))
  }

  /** The totals over the ranges of the line, or `None` if one of them panics. */
  function Totals(pieces: seq<string>): Option<(nat, nat)>
    requires forall k :: 0 <= k < |pieces| ==> WellFormedRange(pieces[k])
  {
    if pieces == [] then Some((0, 0))
    else
      var last := pieces[|pieces| - 1];
      assert WellFormedRange(last);
      match Totals(pieces[..|pieces| - 1])
      case None => None
      case Some(acc) =>
        match RangeFields(last)
        case None => None
        case Some(f) =>
          var t := RangeTotals(f.0, f.1);
          Some((acc.0 + t.0, acc.1 + t.1))
  }

  function Answer(lines: seq<string>): Option<(nat, nat)>
    requires lines != [] ==> forall k :: 0 <= k < |Split(lines[0], ',')| ==> WellFormedRange(Split(lines[0], ',')[k])
  {
    if lines == [] then None else Totals(Split(lines[0], ','))
  }

  /** Because both bounds are asserted shorter than 11 digits, a range's
      part-2 list is every ID in it made of one block repeated at least twice. */
  lemma RangeRepetitions(piece: string, x: nat)
    requires WellFormedRange(piece) && RangeFields(piece).Some?
    ensures var f := RangeFields(piece).value;
            x in AllInvalids(DecimalValue(f.0), DecimalValue(f.1)) <==>
              DecimalValue(f.0) <= x <= DecimalValue(f.1) && exists k :: 2 <= k && IsInvalid(x, k)
  {
    var f := RangeFields(piece).value;
    DecimalValueBound(f.1);
    Pow10Mono(|f.1|, 10);
    AllRepetitions(DecimalValue(f.0), DecimalValue(f.1), x);
  }

  /** One range of the line: its two sums, or `None` where the source panics. */
  method ReadRange(piece: string) returns (r: Option<(nat, nat)>)
    requires WellFormedRange(piece)
    ensures r.Some? <==> RangeFields(piece).Some?
    ensures r.Some? ==> r.value == RangeTotals(RangeFields(piece).value.0, RangeFields(piece).value.1)
  {
    var fields := RangeFields(piece);
    if fields.None? {
      return None;
    }
    var lo, hi := fields.value.0, fields.value.1;
    DecimalValueDigits(lo);
    var a, b := RangeSums(DecimalValue(lo), |lo|, DecimalValue(hi));
    return Some((a, b));
  }

  method Resolve(lines: seq<string>) returns (r: Option<(nat, nat)>)
    requires lines != [] ==> forall k :: 0 <= k < |Split(lines[0], ',')| ==> WellFormedRange(Split(lines[0], ',')[k])
    ensures r.Some? <==> Answer(lines).Some?
    ensures r.Some? ==> r.value == Answer(lines).value
  {
    if lines == [] {
      return None;
    }
    var pieces := Split(lines[0], ',');
    var p1, p2 := 0, 0;
    for i := 0 to |pieces|
      invariant Totals(pieces[..i]).Some?
      invariant Totals(pieces[..i]).value.0 == p1 && Totals(pieces[..i]).value.1 == p2
    {
      var sums := ReadRange(pieces[i]);
      TotalsStep(pieces, i);
      if sums.None? {
        TotalsNone(pieces, i + 1);
        return None;
      }
      p1, p2 := p1 + sums.value.0, p2 + sums.value.1;
    }
    assert pieces[..|pieces|] == pieces;
    return Some((p1, p2));
  }

  lemma TotalsStep(pieces: seq<string>, i: nat)
    requires forall k :: 0 <= k < |pieces| ==> WellFormedRange(pieces[k])
    requires i < |pieces| && Totals(pieces[..i]).Some?
    ensures RangeFields(pieces[i]).None? ==> Totals(pieces[..i + 1]).None?
    ensures RangeFields(pieces[i]).Some? ==>
              var f := RangeFields(pieces[i]).value;
              Totals(pieces[..i + 1]).Some? &&
              Totals(pieces[..i + 1]).value.0 == Totals(pieces[..i]).value.0 + RangeTotals(f.0, f.1).0 &&
              Totals(pieces[..i + 1]).value.1 == Totals(pieces[..i]).value.1 + RangeTotals(f.0, f.1).1
  {
    assert pieces[..i + 1][..i] == pieces[..i];
  }

  /** A range that panics makes the whole line panic. */
  lemma {:induction false} TotalsNone(pieces: seq<string>, n: nat)
    requires forall k :: 0 <= k < |pieces| ==> WellFormedRange(pieces[k])
    requires 1 <= n <= |pieces| && Totals(pieces[..n]).None?
    ensures Totals(pieces).None?
    decreases |pieces| - n
  {
    if n < |pieces| {
      assert pieces[..n + 1][..n] == pieces[..n];
      TotalsNone(pieces, n + 1);
    } else {
      assert pieces[..n] == pieces;
    }
  }
}
