/** Day 3: battery banks. A bank is a line of digit bytes; its joltage for
    `n` batteries is the largest number formed by `n` of its digits kept in
    order. `find_joltage` builds it greedily: for each position it takes the
    first maximum of the window that still leaves room for the remaining
    digits. `resolve` sums the 2-battery and 12-battery joltages of all banks. */
module Day03 {
  import opened Common

  /** The byte `b'0'`. */
  const Zero: nat := 48

  /** A bank as `line.as_bytes()` sees it: every byte an ASCII digit. */
  predicate DigitBank(bank: seq<nat>)
  {
    forall i :: 0 <= i < |bank| ==> Zero <= bank[i] <= Zero + 9
  }

  // ------------------------------------------------------------ find_max

  /** The fold `find_max` performs: starting from `(0, 0)`, an element strictly
      greater than the current maximum replaces the pair `(index, max)`. */
  function MaxAt(s: seq<nat>): (r: (nat, nat))
    ensures s != [] ==> r.0 < |s|
  {
    if s == [] then (0, 0)
    else
      var p := MaxAt(s[..|s| - 1]);
      if s[|s| - 1] > p.1 then (|s| - 1, s[|s| - 1]) else p
  }

  /** The pair is the maximum and the index of its FIRST occurrence; when no
      element is positive it stays `(0, 0)`. */
  lemma {:induction false} MaxAtSpec(s: seq<nat>)
    ensures s == [] ==> MaxAt(s) == (0, 0)
    ensures s != [] ==> MaxAt(s).0 < |s|
    ensures forall j :: 0 <= j < |s| ==> s[j] <= MaxAt(s).1
    ensures forall j :: 0 <= j < MaxAt(s).0 && j < |s| ==> s[j] < MaxAt(s).1
    ensures MaxAt(s).1 > 0 ==> MaxAt(s).0 < |s| && s[MaxAt(s).0] == MaxAt(s).1
    ensures MaxAt(s).1 == 0 ==> MaxAt(s).0 == 0
    decreases |s|
  {
    if s != [] {
      MaxAtSpec(s[..|s| - 1]);
    }
  }

  method FindMax(slice: seq<nat>) returns (index: nat, max: nat)
    ensures index == MaxAt(slice).0 && max == MaxAt(slice).1
  {
    max := 0;
    index := 0;
    for i := 0 to |slice|
      invariant index == MaxAt(slice[..i]).0 && max == MaxAt(slice[..i]).1
    {
      assert slice[..i + 1][..i] == slice[..i];
      if slice[i] > max {
        index := i;
        max := slice[i];
      }
    }
    assert slice[..|slice|] == slice;
  }

  // ------------------------------------------------------- digit numbers

  /** The digits of `bank` at the positions `idx`, in the order of `idx`. */
  function DigitsAt(bank: seq<nat>, idx: seq<nat>): (ds: seq<nat>)
    requires DigitBank(bank) && forall a :: 0 <= a < |idx| ==> idx[a] < |bank|
    ensures |ds| == |idx|
  {
    if idx == [] then [] else DigitsAt(bank, idx[..|idx| - 1]) + [bank[idx[|idx| - 1]] - Zero]
  }

  lemma {:induction false} DigitsAtBound(bank: seq<nat>, idx: seq<nat>)
    requires DigitBank(bank) && forall a :: 0 <= a < |idx| ==> idx[a] < |bank|
    ensures forall a :: 0 <= a < |idx| ==> DigitsAt(bank, idx)[a] < 10
    decreases |idx|
  {
    if idx != [] {
      DigitsAtBound(bank, idx[..|idx| - 1]);
    }
  }

  /** The number `number * 10 + digit` builds from a digit sequence. */
  function DecimalOf(ds: seq<nat>): nat
  {
    if ds == [] then 0 else DecimalOf(ds[..|ds| - 1]) * 10 + ds[|ds| - 1]
  }

  /** Positions strictly increasing, from `start` on, inside the bank: the
      batteries of a bank, taken in order. */
  predicate Selection(bank: seq<nat>, start: nat, idx: seq<nat>)
  {
    (forall a :: 0 <= a < |idx| ==> start <= idx[a] < |bank|) &&
    (forall a, b :: 0 <= a < b < |idx| ==> idx[a] < idx[b])
  }

  lemma {:induction false} DigitsCons(bank: seq<nat>, i: nat, r: seq<nat>)
    requires DigitBank(bank) && i < |bank| && forall a :: 0 <= a < |r| ==> r[a] < |bank|
    ensures DigitsAt(bank, [i] + r) == [bank[i] - Zero] + DigitsAt(bank, r)
    decreases |r|
  {
    if r != [] {
      var r' := r[..|r| - 1];
      assert ([i] + r)[..|r|] == [i] + r';
      DigitsCons(bank, i, r');
    }
  }

  lemma DecimalStep(d: nat, p: nat, v: nat, e: nat)
    ensures (d * p + v) * 10 + e == d * (10 * p) + (v * 10 + e)
  {
  }

  /** A leading digit weighs `10` to the number of digits after it. */
  lemma {:induction false} DecimalCons(d: nat, ds: seq<nat>)
    ensures DecimalOf([d] + ds) == d * Pow10(|ds|) + DecimalOf(ds)
    decreases |ds|
  {
    if ds != [] {
      var ds' := ds[..|ds| - 1];
      assert ([d] + ds)[..|ds|] == [d] + ds';
      DecimalCons(d, ds');
      DecimalStep(d, Pow10(|ds'|), DecimalOf(ds'), ds[|ds| - 1]);
    }
  }

  /** `k` digits make a number below `10^k`. */
  lemma {:induction false} DecimalBound(ds: seq<nat>)
    requires forall a :: 0 <= a < |ds| ==> ds[a] < 10
    ensures DecimalOf(ds) < Pow10(|ds|)
    decreases |ds|
  {
    if ds != [] {
      DecimalBound(ds[..|ds| - 1]);
    }
  }

  /** A smaller leading digit loses whatever follows. */
  lemma LeadLess(a: nat, b: nat, x: nat, y: nat, p: nat)
    requires a < b && x < p
    ensures a * p + x < b * p + y
  {
    MulLe(a + 1, b, p);
  }

  lemma LeadSame(a: nat, x: nat, y: nat, p: nat)
    requires x <= y
    ensures a * p + x <= a * p + y
  {
  }

  /** In a strictly increasing sequence the `k`-th element is at least `k` above the first. */
  lemma {:induction false} IncreasingGap(idx: seq<nat>, k: nat)
    requires forall a, b :: 0 <= a < b < |idx| ==> idx[a] < idx[b]
    requires k < |idx|
    ensures idx[0] + k <= idx[k]
  {
    if k > 0 {
      IncreasingGap(idx, k - 1);
    }
  }

  // -------------------------------------------------------- find_joltage

  /** The positions `find_joltage` picks for `n` batteries from `start` on:
      the first maximum of `bank[start..|bank| - (n - 1)]`, then the rest after it. */
  function Greedy(bank: seq<nat>, start: nat, n: nat): (idx: seq<nat>)
    requires start + n <= |bank|
    ensures |idx| == n && forall a :: 0 <= a < n ==> idx[a] < |bank|
    decreases n
  {
    if n == 0 then []
    else
      var i := start + MaxAt(bank[start..|bank| - (n - 1)]).0;
      [i] + Greedy(bank, i + 1, n - 1)
  }

  /** The greedy picks are `n` batteries taken in order. */
  lemma {:induction false} GreedySelection(bank: seq<nat>, start: nat, n: nat)
    requires DigitBank(bank) && start + n <= |bank|
    ensures |Greedy(bank, start, n)| == n && Selection(bank, start, Greedy(bank, start, n))
    decreases n
  {
    if n > 0 {
      var w := bank[start..|bank| - (n - 1)];
      MaxAtSpec(w);
      var i := start + MaxAt(w).0;
      GreedySelection(bank, i + 1, n - 1);
    }
  }

  /** The number the greedy picks from `start` on form. */
  function GreedyValue(bank: seq<nat>, start: nat, n: nat): nat
    requires DigitBank(bank) && start + n <= |bank|
  {
    DecimalOf(DigitsAt(bank, Greedy(bank, start, n)))
  }

  /** The joltage of a bank for `n` batteries, as `find_joltage` computes it. */
  function Joltage(bank: seq<nat>, n: nat): nat
    requires DigitBank(bank) && n <= |bank|
  {
    GreedyValue(bank, 0, n)
  }

  /** The first greedy pick: the first maximum of the window `[start, |bank| - n]`. */
  lemma GreedyHead(bank: seq<nat>, start: nat, n: nat) returns (i: nat)
    requires DigitBank(bank) && start + n <= |bank| && n > 0
    ensures start <= i && i + n <= |bank|
    ensures Greedy(bank, start, n) == [i] + Greedy(bank, i + 1, n - 1)
    ensures forall j :: start <= j <= |bank| - n ==> bank[j] <= bank[i]
    ensures forall j :: start <= j < i ==> bank[j] < bank[i]
  {
    var w := bank[start..|bank| - (n - 1)];
    MaxAtSpec(w);
    i := start + MaxAt(w).0;
    forall j | start <= j <= |bank| - n
      ensures bank[j] <= bank[i]
    {
      assert bank[j] == w[j - start];
    }
    forall j | start <= j < i
      ensures bank[j] < bank[i]
    {
      assert bank[j] == w[j - start];
    }
  }

  /** The number of batteries `[i] + r` in terms of the number of `r`. */
  lemma ConsValue(bank: seq<nat>, i: nat, r: seq<nat>, d: nat, p: nat)
    requires DigitBank(bank) && i < |bank| && forall a :: 0 <= a < |r| ==> r[a] < |bank|
    requires d == bank[i] - Zero && p == Pow10(|r|)
    ensures DecimalOf(DigitsAt(bank, [i] + r)) == d * p + DecimalOf(DigitsAt(bank, r))
  {
    var ds := DigitsAt(bank, r);
    DigitsCons(bank, i, r);
    DecimalCons(d, ds);
    assert DigitsAt(bank, [i] + r) == [d] + ds;
    assert |ds| == |r|;
  }

  /** The greedy number is its first pick's digit followed by the rest of the picks. */
  lemma GreedyValueHead(bank: seq<nat>, start: nat, n: nat, i: nat, d: nat, p: nat)
    requires DigitBank(bank) && start + n <= |bank| && n > 0
    requires i + n <= |bank| && Greedy(bank, start, n) == [i] + Greedy(bank, i + 1, n - 1)
    requires d == bank[i] - Zero && p == Pow10(n - 1)
    ensures GreedyValue(bank, start, n) == d * p + GreedyValue(bank, i + 1, n - 1)
  {
    var rest := Greedy(bank, i + 1, n - 1);
    GreedySelection(bank, i + 1, n - 1);
    ConsValue(bank, i, rest, d, p);
  }

  /** The number of a selection is its first battery's digit followed by the others'. */
  lemma SelectionValueHead(bank: seq<nat>, start: nat, idx: seq<nat>, d: nat, p: nat)
    requires DigitBank(bank) && Selection(bank, start, idx) && |idx| > 0
    requires d == bank[idx[0]] - Zero && p == Pow10(|idx| - 1)
    ensures idx[0] + |idx| <= |bank| && Selection(bank, idx[0] + 1, idx[1..])
    ensures DecimalOf(DigitsAt(bank, idx)) == d * p + DecimalOf(DigitsAt(bank, idx[1..]))
  {
    IncreasingGap(idx, |idx| - 1);
    assert idx == [idx[0]] + idx[1..];
    ConsValue(bank, idx[0], idx[1..], d, p);
  }

  /** A selection whose first digit is below the greedy first digit makes a smaller number. */
  lemma HeadLess(bank: seq<nat>, start: nat, n: nat, idx: seq<nat>, i: nat)
    requires DigitBank(bank) && start + n <= |bank| && n > 0
    requires Selection(bank, start, idx) && |idx| == n
    requires i + n <= |bank| && Greedy(bank, start, n) == [i] + Greedy(bank, i + 1, n - 1)
    requires bank[idx[0]] < bank[i]
    ensures DecimalOf(DigitsAt(bank, idx)) < GreedyValue(bank, start, n)
  {
    var a, b, p := bank[idx[0]] - Zero, bank[i] - Zero, Pow10(n - 1);
    SelectionValueHead(bank, start, idx, a, p);
    GreedyValueHead(bank, start, n, i, b, p);
    DigitsAtBound(bank, idx[1..]);
    DecimalBound(DigitsAt(bank, idx[1..]));
    LeadLess(a, b, DecimalOf(DigitsAt(bank, idx[1..])), GreedyValue(bank, i + 1, n - 1), p);
  }

  lemma SelectionTail(bank: seq<nat>, start: nat, idx: seq<nat>)
    requires Selection(bank, start, idx) && |idx| > 0
    ensures Selection(bank, idx[0] + 1, idx[1..])
  {
  }

  /** A selection that starts with the greedy first digit, followed by batteries
      worth no more than the remaining greedy picks, is worth no more. */
  lemma HeadSame(bank: seq<nat>, start: nat, n: nat, idx: seq<nat>, i: nat)
    requires DigitBank(bank) && start + n <= |bank| && n > 0
    requires Selection(bank, start, idx) && |idx| == n
    requires i + n <= |bank| && Greedy(bank, start, n) == [i] + Greedy(bank, i + 1, n - 1)
    requires bank[idx[0]] == bank[i] && i <= idx[0]
    requires DecimalOf(DigitsAt(bank, idx[1..])) <= GreedyValue(bank, i + 1, n - 1)
    ensures DecimalOf(DigitsAt(bank, idx)) <= GreedyValue(bank, start, n)
  {
    var a, p := bank[i] - Zero, Pow10(n - 1);
    SelectionValueHead(bank, start, idx, a, p);
    GreedyValueHead(bank, start, n, i, a, p);
    LeadSame(a, DecimalOf(DigitsAt(bank, idx[1..])), GreedyValue(bank, i + 1, n - 1), p);
  }

  /** Exchange argument: no `n` batteries taken in order from `start` on make a
      larger number than the greedy picks. */
  lemma {:induction false} GreedyOptimal(bank: seq<nat>, start: nat, n: nat, idx: seq<nat>)
    requires DigitBank(bank) && start + n <= |bank|
    requires Selection(bank, start, idx) && |idx| == n
    ensures DecimalOf(DigitsAt(bank, idx)) <= GreedyValue(bank, start, n)
    decreases n
  {
    if n > 0 {
      var i := GreedyHead(bank, start, n);
      IncreasingGap(idx, n - 1);
      if bank[idx[0]] < bank[i] {
        HeadLess(bank, start, n, idx, i);
      } else {
        assert bank[idx[0]] == bank[i] && i <= idx[0];
        SelectionTail(bank, start, idx);
        GreedyOptimal(bank, i + 1, n - 1, idx[1..]);
        HeadSame(bank, start, n, idx, i);
      }
    }
  }

  /** The joltage is the largest number `n` of the bank's batteries, kept in
      order, can form: the greedy picks are such batteries, and no others do better. */
  lemma JoltageOptimal(bank: seq<nat>, n: nat, idx: seq<nat>)
    requires DigitBank(bank) && n <= |bank|
    requires Selection(bank, 0, idx) && |idx| == n
    ensures Selection(bank, 0, Greedy(bank, 0, n)) && |Greedy(bank, 0, n)| == n
    ensures DecimalOf(DigitsAt(bank, idx)) <= Joltage(bank, n)
  {
    GreedySelection(bank, 0, n);
    GreedyOptimal(bank, 0, n, idx);
  }

  /** What `find_joltage` returns when it resumes at `start` with `number == acc`
      and `n` batteries still to pick: the loop, unrolled. */
  function Resume(bank: seq<nat>, start: nat, n: nat, acc: nat): nat
    requires DigitBank(bank) && start + n <= |bank|
    decreases n
  {
    if n == 0 then acc
    else
      var index := MaxAt(bank[start..|bank| - (n - 1)]).0;
      Resume(bank, start + index + 1, n - 1, acc * 10 + (bank[start + index] - Zero))
  }

  /** The first maximum of a window whose first element is positive is an element of it. */
  lemma {:induction false} MaxAtHit(s: seq<nat>)
    requires s != [] && s[0] > 0
    ensures MaxAt(s).0 < |s| && s[MaxAt(s).0] == MaxAt(s).1
    decreases |s|
  {
    if |s| > 1 {
      MaxAtHit(s[..|s| - 1]);
    }
  }

  /** One pass of the loop of `find_joltage` with `n` batteries still to pick: from
      the pair `find_max` returns, the loop resumes at `next` with `acc'`. */
  lemma ResumeStep(bank: seq<nat>, start: nat, n: nat, acc: nat, index: nat, max: nat, next: nat, acc': nat)
    requires DigitBank(bank) && start + n <= |bank| && n > 0
    requires index == MaxAt(bank[start..|bank| - (n - 1)]).0 && max == MaxAt(bank[start..|bank| - (n - 1)]).1
    requires next == start + index + 1 && acc' == acc * 10 + (max - Zero)
    ensures next + (n - 1) <= |bank| && bank[start + index] == max
    ensures Resume(bank, start, n, acc) == Resume(bank, next, n - 1, acc')
  {
    var w := bank[start..|bank| - (n - 1)];
    MaxAtHit(w);
    assert w[index] == bank[start + index];
  }

  /** The first greedy pick from `start`, with its digit: what both `Resume` and
      `Greedy` take first. */
  lemma FirstPick(bank: seq<nat>, start: nat, n: nat) returns (i: nat, d: nat)
    requires DigitBank(bank) && start + n <= |bank| && n > 0
    ensures i + n <= |bank| && d == bank[i] - Zero
    ensures Greedy(bank, start, n) == [i] + Greedy(bank, i + 1, n - 1)
    ensures forall acc: nat :: Resume(bank, start, n, acc) == Resume(bank, i + 1, n - 1, acc * 10 + d)
  {
    var w := bank[start..|bank| - (n - 1)];
    var index, max := MaxAt(w).0, MaxAt(w).1;
    i := start + index;
    MaxAtHit(w);
    assert w[index] == bank[i];
    d := max - Zero;
    forall acc: nat
      ensures Resume(bank, start, n, acc) == Resume(bank, i + 1, n - 1, acc * 10 + d)
    {
      ResumeStep(bank, start, n, acc, index, max, i + 1, acc * 10 + d);
    }
  }

  /** Resuming with `acc` shifts it left of the greedy number of the remaining picks
      (`q` is `10` to the number of remaining picks). */
  lemma {:induction false} ResumeValue(bank: seq<nat>, start: nat, n: nat, acc: nat, q: nat)
    requires DigitBank(bank) && start + n <= |bank| && q == Pow10(n)
    ensures Resume(bank, start, n, acc) == acc * q + GreedyValue(bank, start, n)
    decreases n
  {
    if n > 0 {
      var i, d := FirstPick(bank, start, n);
      var p := Pow10(n - 1);
      var g := GreedyValue(bank, i + 1, n - 1);
      ResumeValue(bank, i + 1, n - 1, acc * 10 + d, p);
      GreedyValueHead(bank, start, n, i, d, p);
      ShiftStep(acc, d, p, g, q);
    } else {
      assert Greedy(bank, start, 0) == [];
    }
  }

  lemma ShiftStep(acc: nat, d: nat, p: nat, g: nat, q: nat)
    requires q == 10 * p
    ensures (acc * 10 + d) * p + g == acc * q + (d * p + g)
  {
  }

  /** `find_joltage`: `batteriesNumber` passes of `find_max`, each over the window
      that leaves room for the batteries still to pick. */
  method FindJoltage(bank: seq<nat>, batteriesNumber: nat) returns (number: nat)
    requires DigitBank(bank) && batteriesNumber <= |bank|
    ensures number == Joltage(bank, batteriesNumber)
  {
    number := 0;
    var startIndex: nat := 0;
    ghost var goal := Resume(bank, 0, batteriesNumber, 0);
    // `k` counts the batteries still to pick: the iterator of the source yields `k - 1`
    var k := batteriesNumber;
    while k > 0
      invariant startIndex + k <= |bank|
      invariant Resume(bank, startIndex, k, number) == goal
    {
      var index, max := FindMax(bank[startIndex..|bank| - (k - 1)]);
      ResumeStep(bank, startIndex, k, number, index, max, startIndex + index + 1, number * 10 + (max - Zero));
      startIndex := startIndex + index + 1;
      number := number * 10 + (max - Zero);
      k := k - 1;
    }
    ResumeValue(bank, 0, batteriesNumber, 0, Pow10(batteriesNumber));
  }

  // ------------------------------------------------------------- resolve

  /** `line.as_bytes()` for a line of ASCII digits. */
  function Bytes(line: string): (b: seq<nat>)
    requires AllDigits(line)
    ensures |b| == |line| && DigitBank(b)
  {
    seq(|line|, k requires 0 <= k < |line| => line[k] as nat)
  }

  /** What one bank adds to both parts: `None` when it is too short for
      twelve batteries (the slice bounds of `find_joltage` panic). */
  function BankTotals(line: string): Option<(nat, nat)>
    requires AllDigits(line)
  {
    if |line| < 12 then None else Some((Joltage(Bytes(line), 2), Joltage(Bytes(line), 12)))
  }

  /** The per-bank results of a whole input. */
  function PerBank(lines: seq<string>): (ts: seq<Option<(nat, nat)>>)
    requires forall k :: 0 <= k < |lines| ==> AllDigits(lines[k])
    ensures |ts| == |lines|
    ensures forall k :: 0 <= k < |lines| ==> ts[k] == BankTotals(lines[k])
  {
    seq(|lines|, k requires 0 <= k < |lines| => BankTotals(lines[k]))
  }

  /** The fold of `resolve`: pairwise sums, `None` as soon as one bank panics. */
  function SumTotals(ts: seq<Option<(nat, nat)>>): Option<(nat, nat)>
  {
    if ts == [] then Some((0, 0))
    else
      var prev, t := SumTotals(ts[..|ts| - 1]), ts[|ts| - 1];
      if prev.None? || t.None? then None
      else Some((prev.value.0 + t.value.0, prev.value.1 + t.value.1))
  }

  function Answer(lines: seq<string>): Option<(nat, nat)>
    requires forall k :: 0 <= k < |lines| ==> AllDigits(lines[k])
  {
    SumTotals(PerBank(lines))
  }

  /** One more bank in the fold. */
  lemma SumStep(ts: seq<Option<(nat, nat)>>, k: nat)
    requires k < |ts|
    ensures SumTotals(ts[..k + 1]).Some? <==> SumTotals(ts[..k]).Some? && ts[k].Some?
    ensures SumTotals(ts[..k + 1]).Some? ==>
              SumTotals(ts[..k + 1]).value.0 == SumTotals(ts[..k]).value.0 + ts[k].value.0 &&
              SumTotals(ts[..k + 1]).value.1 == SumTotals(ts[..k]).value.1 + ts[k].value.1
  {
    var cur := ts[..k + 1];
    assert cur[..|cur| - 1] == ts[..k];
    assert cur[|cur| - 1] == ts[k];
  }

  /** Once a bank panics, the whole fold does. */
  lemma {:induction false} SumNone(ts: seq<Option<(nat, nat)>>, n: nat)
    requires n <= |ts| && SumTotals(ts[..n]).None?
    ensures SumTotals(ts).None?
    decreases |ts| - n
  {
    if n < |ts| {
      assert ts[..n + 1][..n] == ts[..n];
      SumNone(ts, n + 1);
    } else {
      assert ts[..n] == ts;
    }
  }

  /** The closure `resolve` folds with, for one bank. */
  method AddBank(line: string) returns (ok: bool, j1: nat, j2: nat)
    requires AllDigits(line)
    ensures ok == BankTotals(line).Some?
    ensures ok ==> j1 == BankTotals(line).value.0 && j2 == BankTotals(line).value.1
  {
    if |line| < 12 {
      return false, 0, 0;
    }
    j1 := FindJoltage(Bytes(line), 2);
    j2 := FindJoltage(Bytes(line), 12);
    ok := true;
  }

  method Resolve(lines: seq<string>) returns (r: Option<(nat, nat)>)
    requires forall k :: 0 <= k < |lines| ==> AllDigits(lines[k])
    ensures r.Some? == Answer(lines).Some?
    ensures r.Some? ==> r.value.0 == Answer(lines).value.0 && r.value.1 == Answer(lines).value.1
  {
    ghost var ts := PerBank(lines);
    var p1, p2 := 0, 0;
    for k := 0 to |lines|
      invariant SumTotals(ts[..k]).Some?
      invariant p1 == SumTotals(ts[..k]).value.0 && p2 == SumTotals(ts[..k]).value.1
    {
      var ok, j1, j2 := AddBank(lines[k]);
      SumStep(ts, k);
      if !ok {
        SumNone(ts, k + 1);
        return None;
      }
      p1, p2 := p1 + j1, p2 + j2;
    }
    assert ts[..|lines|] == ts;
    return Some((p1, p2));
  }
}
