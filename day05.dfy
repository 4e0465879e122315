/** Day 05: fresh ingredient ranges.

    The first block of lines lists inclusive ID ranges `a-b`, the second block
    (after an empty line) lists ingredient IDs. The ranges are kept in one list,
    sorted, disjoint and non-adjacent, by merging each new range in at its place.
    Part 1 counts the listed IDs inside some range; part 2 counts every ID that
    some range covers. */
module Day05 {
  import opened Common

  /** An inclusive range of IDs, `(first, last)`. */
  datatype Range = Range(first: nat, last: nat)

  predicate Contains(r: Range, x: nat)
  {
    r.first <= x <= r.last
  }

  /** Some range of `v` contains `x`. */
  predicate Covered(v: seq<Range>, x: nat)
  {
    exists k :: 0 <= k < |v| && Contains(v[k], x)
  }

  /** The form `add_and_merge` keeps: every range non-empty, and each one ends at
      least two IDs before the next begins (sorted, disjoint and non-adjacent). */
  predicate Canonical(v: seq<Range>)
  {
    (forall k :: 0 <= k < |v| ==> v[k].first <= v[k].last)
    && forall a, b :: 0 <= a < b < |v| ==> v[a].last + 1 < v[b].first
  }

  // ========================================================== push_merge

  /** `push_merge` on values: widen the last range when `range` starts no more than
      one past its end, otherwise append `range`. */
  function PushMergeF(v: seq<Range>, range: Range): seq<Range>
  {
    if v != [] && v[|v| - 1].last + 1 >= range.first then
      v[|v| - 1 := Range(v[|v| - 1].first, Max(v[|v| - 1].last, range.last))]
    else v + [range]
  }

  /** `push_merge(&mut v, range)`: the vector, passed by exclusive borrow, in and out. */
  method PushMerge(v: seq<Range>, range: Range) returns (v': seq<Range>)
    ensures v != [] && v[|v| - 1].last + 1 >= range.first ==>
              |v'| == |v| && v'[..|v| - 1] == v[..|v| - 1]
              && v'[|v| - 1] == Range(v[|v| - 1].first, Max(v[|v| - 1].last, range.last))
    ensures !(v != [] && v[|v| - 1].last + 1 >= range.first) ==> v' == v + [range]
    ensures v' == PushMergeF(v, range)
  {
    if v != [] {
      var last := v[|v| - 1];
      if last.last + 1 >= range.first {
        v' := v[|v| - 1 := Range(last.first, Max(last.last, range.last))];
        return;
      }
    }
    v' := v + [range];
  }

  /** Merging `range` after the last range keeps the list canonical, provided the
      last range does not start after `range`. */
  lemma PushMergeCanonical(v: seq<Range>, range: Range)
    requires Canonical(v) && range.first <= range.last
    requires v != [] ==> v[|v| - 1].first <= range.first
    ensures Canonical(PushMergeF(v, range))
    ensures PushMergeF(v, range) != [] && PushMergeF(v, range)[|PushMergeF(v, range)| - 1].first <= range.first
  {
    var r := PushMergeF(v, range);
    if v != [] && v[|v| - 1].last + 1 >= range.first {
      forall a, b | 0 <= a < b < |r| ensures r[a].last + 1 < r[b].first {
        assert r[a] == v[a];
      }
    }
  }

  /** ... and covers exactly what `v` and `range` cover. */
  lemma PushMergeCovers(v: seq<Range>, range: Range, x: nat)
    requires v != [] ==> v[|v| - 1].first <= range.first
    ensures Covered(PushMergeF(v, range), x) <==> Covered(v, x) || Contains(range, x)
  {
    var r := PushMergeF(v, range);
    if v != [] && v[|v| - 1].last + 1 >= range.first {
      var n := |v| - 1;
      if Covered(r, x) {
        var k :| 0 <= k < |r| && Contains(r[k], x);
        if k < n {
          assert Contains(v[k], x);
        } else if x > v[n].last {
          assert Contains(range, x);
        } else {
          assert Contains(v[n], x);
        }
      }
      if Covered(v, x) {
        var k :| 0 <= k < |v| && Contains(v[k], x);
        assert Contains(r[k], x);
      }
      if Contains(range, x) {
        assert Contains(r[n], x);
      }
    } else {
      if Covered(r, x) {
        var k :| 0 <= k < |r| && Contains(r[k], x);
        if k < |v| {
          assert Contains(v[k], x);
        }
      }
      if Covered(v, x) {
        var k :| 0 <= k < |v| && Contains(v[k], x);
        assert Contains(r[k], x);
      }
      if Contains(range, x) {
        assert Contains(r[|v|], x);
      }
    }
  }

  /** `push_merge` only ever touches the last range or appends. */
  lemma PushMergeKeeps(v: seq<Range>, range: Range)
    ensures |PushMergeF(v, range)| >= |v| && |PushMergeF(v, range)| >= 1
    ensures v != [] ==> PushMergeF(v, range)[..|v| - 1] == v[..|v| - 1]
                        && PushMergeF(v, range)[|v| - 1].first == v[|v| - 1].first
  {
  }

  // ======================================================= add_and_merge

  /** `v.iter().position(|(first, _)| first > x)`, with `|v|` standing for `None`. */
  function FirstAbove(v: seq<Range>, x: nat): (i: nat)
    ensures i <= |v| && (i < |v| ==> v[i].first > x)
    ensures forall k :: 0 <= k < i ==> v[k].first <= x
  {
    if v == [] then 0
    else if v[0].first > x then 0
    else 1 + FirstAbove(v[1..], x)
  }

  /** `push_merge` of every range of `w`, in order. */
  function PushAll(ret: seq<Range>, w: seq<Range>): seq<Range>
  {
    if w == [] then ret else PushMergeF(PushAll(ret, w[..|w| - 1]), w[|w| - 1])
  }

  /** `add_and_merge(v, range)`: the ranges before the first one starting after
      `range`, then `range`, then the rest, each merged into the last as it comes. */
  function Merge(v: seq<Range>, range: Range): seq<Range>
  {
    var i := FirstAbove(v, range.first);
    PushAll(PushMergeF(v[..i], range), v[i..])
  }

  /** `add_and_merge`. */
  method AddAndMerge(v: seq<Range>, range: Range) returns (ret: seq<Range>)
    ensures ret == Merge(v, range)
  {
    var i := FirstAbove(v, range.first);
    if i < |v| {
      ret := v[..i];
      ret := PushMerge(ret, range);
      ghost var start := ret;
      var j := i;
      assert v[i..i] == [];
      while j < |v|
        invariant i <= j <= |v| && ret == PushAll(start, v[i..j])
      {
        PushAllSnoc(start, v[i..j], v[j]);
        assert v[i..j + 1] == v[i..j] + [v[j]];
        ret := PushMerge(ret, v[j]);
        j := j + 1;
      }
      assert v[i..j] == v[i..];
    } else {
      ret := v;
      ret := PushMerge(ret, range);
      assert v[..i] == v && v[i..] == [];
    }
  }

  lemma PushAllSnoc(ret: seq<Range>, w: seq<Range>, x: Range)
    ensures PushAll(ret, w + [x]) == PushMergeF(PushAll(ret, w), x)
  {
    assert (w + [x])[..|w|] == w;
  }

  /** Merging sorted ranges in order, one after another, keeps the list canonical and
      its last range starting no later than the next to come. */
  lemma {:induction false} PushAllCanonical(ret: seq<Range>, w: seq<Range>)
    requires Canonical(ret) && ret != []
    requires forall k :: 0 <= k < |w| ==> w[k].first <= w[k].last
    requires forall a, b :: 0 <= a < b < |w| ==> w[a].first < w[b].first
    requires w != [] ==> ret[|ret| - 1].first <= w[0].first
    ensures Canonical(PushAll(ret, w)) && PushAll(ret, w) != []
    ensures w != [] ==> PushAll(ret, w)[|PushAll(ret, w)| - 1].first <= w[|w| - 1].first
    decreases |w|
  {
    if w != [] {
      var init := w[..|w| - 1];
      PushAllCanonical(ret, init);
      var p := PushAll(ret, init);
      assert p[|p| - 1].first <= w[|w| - 1].first by {
        if init != [] {
          assert w[|w| - 2].first < w[|w| - 1].first;
        }
      }
      PushMergeCanonical(p, w[|w| - 1]);
    }
  }

  lemma {:induction false} PushAllCovers(ret: seq<Range>, w: seq<Range>, x: nat)
    requires Canonical(ret) && ret != []
    requires forall k :: 0 <= k < |w| ==> w[k].first <= w[k].last
    requires forall a, b :: 0 <= a < b < |w| ==> w[a].first < w[b].first
    requires w != [] ==> ret[|ret| - 1].first <= w[0].first
    ensures Covered(PushAll(ret, w), x) <==> Covered(ret, x) || Covered(w, x)
    decreases |w|
  {
    if w != [] {
      var init := w[..|w| - 1];
      PushAllCovers(ret, init, x);
      PushAllCanonical(ret, w);
      PushAllCanonical(ret, init);
      var p := PushAll(ret, init);
      assert p[|p| - 1].first <= w[|w| - 1].first by {
        if init != [] {
          assert w[|w| - 2].first < w[|w| - 1].first;
        }
      }
      PushMergeCovers(p, w[|w| - 1], x);
      CoveredSnoc(init, w[|w| - 1], x);
      assert init + [w[|w| - 1]] == w;
    }
  }

  lemma CoveredSnoc(v: seq<Range>, r: Range, x: nat)
    ensures Covered(v + [r], x) <==> Covered(v, x) || Contains(r, x)
  {
    if Covered(v, x) {
      var k :| 0 <= k < |v| && Contains(v[k], x);
      assert (v + [r])[k] == v[k];
    }
    if Contains(r, x) {
      assert (v + [r])[|v|] == r;
    }
  }

  /** A canonical list is sorted by start. */
  lemma CanonicalSorted(v: seq<Range>)
    requires Canonical(v)
    ensures forall a, b :: 0 <= a < b < |v| ==> v[a].first < v[b].first
  {
    forall a, b | 0 <= a < b < |v| ensures v[a].first < v[b].first {
      assert v[a].first <= v[a].last;
    }
  }

  lemma CoveredSplit(v: seq<Range>, i: nat, x: nat)
    requires i <= |v|
    ensures Covered(v, x) <==> Covered(v[..i], x) || Covered(v[i..], x)
  {
    if Covered(v, x) {
      var k :| 0 <= k < |v| && Contains(v[k], x);
      if k < i {
        assert v[..i][k] == v[k];
      } else {
        assert v[i..][k - i] == v[k];
      }
    }
    if Covered(v[..i], x) {
      var k :| 0 <= k < i && Contains(v[..i][k], x);
      assert v[k] == v[..i][k];
    }
    if Covered(v[i..], x) {
      var k :| 0 <= k < |v| - i && Contains(v[i..][k], x);
      assert v[i + k] == v[i..][k];
    }
  }

  /** Merging a non-empty range into a canonical list keeps it canonical. */
  lemma MergeCanonical(v: seq<Range>, range: Range)
    requires Canonical(v) && range.first <= range.last
    ensures Canonical(Merge(v, range))
  {
    var i := FirstAbove(v, range.first);
    CanonicalSorted(v);
    assert Canonical(v[..i]);
    PushMergeCanonical(v[..i], range);
    PushAllCanonical(PushMergeF(v[..i], range), v[i..]);
  }

  /** ... and the result covers exactly what `v` and `range` cover. */
  lemma MergeCovers(v: seq<Range>, range: Range, x: nat)
    requires Canonical(v) && range.first <= range.last
    ensures Covered(Merge(v, range), x) <==> Covered(v, x) || Contains(range, x)
  {
    var i := FirstAbove(v, range.first);
    CanonicalSorted(v);
    assert Canonical(v[..i]);
    PushMergeCanonical(v[..i], range);
    PushMergeCovers(v[..i], range, x);
    PushAllCovers(PushMergeF(v[..i], range), v[i..], x);
    CoveredSplit(v, i, x);
  }

  /** The ranges before the insertion point, but the last of them, come out unchanged. */
  lemma {:induction false} PushAllKeeps(ret: seq<Range>, w: seq<Range>)
    requires ret != []
    ensures |PushAll(ret, w)| >= |ret| && PushAll(ret, w)[..|ret| - 1] == ret[..|ret| - 1]
    decreases |w|
  {
    if w != [] {
      PushAllKeeps(ret, w[..|w| - 1]);
      var p := PushAll(ret, w[..|w| - 1]);
      PushMergeKeeps(p, w[|w| - 1]);
      assert p[..|p| - 1][..|ret| - 1] == p[..|ret| - 1];
    }
  }

  lemma MergeKeepsPrefix(v: seq<Range>, range: Range)
    ensures var i := FirstAbove(v, range.first);
            i > 0 ==> |Merge(v, range)| >= i && Merge(v, range)[..i - 1] == v[..i - 1]
  {
    var i := FirstAbove(v, range.first);
    if i > 0 {
      var p := PushMergeF(v[..i], range);
      PushMergeKeeps(v[..i], range);
      PushAllKeeps(p, v[i..]);
      assert p[..|p| - 1][..i - 1] == p[..i - 1];
    }
  }

  // ========================================================== uniqueness

  /** Two canonical lists covering the same IDs are the same list. */
  lemma {:induction false} CanonicalUnique(a: seq<Range>, b: seq<Range>)
    requires Canonical(a) && Canonical(b)
    requires forall x :: Covered(a, x) <==> Covered(b, x)
    ensures a == b
    decreases |a| + |b|
  {
    if a == [] || b == [] {
      if a != [] {
        assert Covered(a, a[0].first);
      } else if b != [] {
        assert Covered(b, b[0].first);
      }
    } else {
      CanonicalSorted(a);
      CanonicalSorted(b);
      FirstRange(a, b);
      FirstRange(b, a);
      assert a[0] == b[0];
      assert Canonical(a[1..]) && Canonical(b[1..]);
      forall x ensures Covered(a[1..], x) <==> Covered(b[1..], x) {
        Tail(a, x);
        Tail(b, x);
      }
      CanonicalUnique(a[1..], b[1..]);
      assert a == [a[0]] + a[1..] && b == [b[0]] + b[1..];
    }
  }

  /** In a canonical list, the IDs past the end of the first range are those of the rest. */
  lemma Tail(a: seq<Range>, x: nat)
    requires Canonical(a) && a != []
    ensures Covered(a[1..], x) <==> Covered(a, x) && x > a[0].last
  {
    if Covered(a[1..], x) {
      var k :| 0 <= k < |a| - 1 && Contains(a[1..][k], x);
      assert a[k + 1] == a[1..][k];
    }
    if Covered(a, x) && x > a[0].last {
      var k :| 0 <= k < |a| && Contains(a[k], x);
      assert k > 0;
      assert a[1..][k - 1] == a[k];
    }
  }

  /** The first range of a canonical list is fixed by what the list covers: it
      starts at the least covered ID and ends before the first uncovered one. */
  lemma FirstRange(a: seq<Range>, b: seq<Range>)
    requires Canonical(a) && Canonical(b) && a != [] && b != []
    requires forall x :: Covered(a, x) <==> Covered(b, x)
    requires forall i, j :: 0 <= i < j < |a| ==> a[i].first < a[j].first
    requires forall i, j :: 0 <= i < j < |b| ==> b[i].first < b[j].first
    ensures a[0].first <= b[0].first && a[0].last <= b[0].last
  {
    assert Contains(b[0], b[0].first);
    assert Covered(a, b[0].first);
    var k :| 0 <= k < |a| && Contains(a[k], b[0].first);
    assert a[0].first <= a[k].first;
    var y := b[0].last + 1;
    assert !Covered(b, y) by {
      forall t | 0 <= t < |b| ensures !Contains(b[t], y) {
        if t > 0 {
          assert b[0].last + 1 < b[t].first;
        }
      }
    }
    assert !Contains(a[0], y);
  }

  /** Adding a range that is already covered changes nothing. */
  lemma MergeCovered(v: seq<Range>, range: Range)
    requires Canonical(v) && range.first <= range.last
    requires forall x :: Contains(range, x) ==> Covered(v, x)
    ensures Merge(v, range) == v
  {
    MergeCanonical(v, range);
    forall x ensures Covered(Merge(v, range), x) <==> Covered(v, x) {
      MergeCovers(v, range, x);
    }
    CanonicalUnique(Merge(v, range), v);
  }

  /** Adding the same range twice is adding it once. */
  lemma MergeIdempotent(v: seq<Range>, range: Range)
    requires Canonical(v) && range.first <= range.last
    ensures Merge(Merge(v, range), range) == Merge(v, range)
  {
    MergeCanonical(v, range);
    forall x | Contains(range, x) ensures Covered(Merge(v, range), x) {
      MergeCovers(v, range, x);
    }
    MergeCovered(Merge(v, range), range);
  }

  lemma PushMergeExamples()
    ensures PushMergeF([Range(0, 2)], Range(4, 5)) == [Range(0, 2), Range(4, 5)]
    ensures PushMergeF([Range(0, 2), Range(4, 5)], Range(5, 6)) == [Range(0, 2), Range(4, 6)]
    ensures PushMergeF([Range(0, 2), Range(4, 6)], Range(7, 8)) == [Range(0, 2), Range(4, 8)]
    ensures PushMergeF([Range(0, 2), Range(4, 8)], Range(5, 6)) == [Range(0, 2), Range(4, 8)]
  {
  }

  lemma MergeExamples()
    ensures Merge([Range(0, 2)], Range(3, 4)) == [Range(0, 4)]
    ensures Merge([Range(0, 4), Range(10, 12)], Range(6, 8)) == [Range(0, 4), Range(6, 8), Range(10, 12)]
  {
    assert [Range(0, 4), Range(10, 12)][1..] == [Range(10, 12)];
    assert [Range(0, 4), Range(10, 12)][..1] == [Range(0, 4)];
    assert [Range(0, 4), Range(10, 12)][1..][..0] == [];
  }

  // ============================================================= counting

  /** `ranges.into_iter().fold(0, |total, (first, last)| total + last - first + 1)`. */
  function TotalLength(v: seq<Range>): nat
    requires forall k :: 0 <= k < |v| ==> v[k].first <= v[k].last
  {
    if v == [] then 0 else TotalLength(v[..|v| - 1]) + v[|v| - 1].last - v[|v| - 1].first + 1
  }

  /** How many IDs below `n` some range of `v` covers. */
  function CountBelow(v: seq<Range>, n: nat): nat
  {
    if n == 0 then 0 else CountBelow(v, n - 1) + if Covered(v, n - 1) then 1 else 0
  }

  lemma {:induction false} CountDisjoint(v: seq<Range>, r: Range, n: nat)
    requires forall x :: !(Covered(v, x) && Contains(r, x))
    ensures CountBelow(v + [r], n) == CountBelow(v, n) + CountBelow([r], n)
  {
    if n > 0 {
      CountDisjoint(v, r, n - 1);
      CoveredSnoc(v, r, n - 1);
      CoveredSnoc([], r, n - 1);
      assert [] + [r] == [r];
    }
  }

  lemma {:induction false} CountOne(r: Range, n: nat)
    requires r.first <= r.last < n
    ensures CountBelow([r], n) == r.last - r.first + 1
  {
    if n - 1 > r.last {
      CountOne(r, n - 1);
      assert !Contains([r][0], n - 1);
    } else {
      CountBefore(r, n - 1);
      assert Contains([r][0], n - 1);
    }
  }

  lemma {:induction false} CountBefore(r: Range, n: nat)
    requires r.first <= n <= r.last + 1
    ensures CountBelow([r], n) == n - r.first
  {
    if n > r.first {
      CountBefore(r, n - 1);
      assert Contains([r][0], n - 1);
    } else if n > 0 {
      CountNone(r, n);
    }
  }

  lemma {:induction false} CountNone(r: Range, n: nat)
    requires n <= r.first
    ensures CountBelow([r], n) == 0
  {
    if n > 0 {
      CountNone(r, n - 1);
      assert !Contains([r][0], n - 1);
    }
  }

  /** Part 2: on a canonical list, the total of the range lengths is the number of
      IDs covered (counting below any bound past the last range). */
  lemma {:induction false} TotalLengthCounts(v: seq<Range>, n: nat)
    requires Canonical(v) && forall k :: 0 <= k < |v| ==> v[k].last < n
    ensures TotalLength(v) == CountBelow(v, n)
    decreases |v|
  {
    if v == [] {
      CountEmpty(n);
    } else {
      var init := v[..|v| - 1];
      var r := v[|v| - 1];
      assert Canonical(init);
      TotalLengthCounts(init, n);
      forall x ensures !(Covered(init, x) && Contains(r, x)) {
        if Covered(init, x) {
          var k :| 0 <= k < |init| && Contains(init[k], x);
          assert v[k].last + 1 < r.first;
        }
      }
      CountDisjoint(init, r, n);
      CountOne(r, n);
      assert init + [r] == v;
    }
  }

  lemma {:induction false} CountEmpty(n: nat)
    ensures CountBelow([], n) == 0
  {
    if n > 0 {
      CountEmpty(n - 1);
    }
  }

  // ============================================================= resolve

  /** A range line `a-b`: every `-`-separated piece must parse (else the `unwrap`
      panics) and there must be at least two of them. */
  function RangeOf(line: string): Option<Range>
  {
    var rs := MapAll(Split(line, '-'), ParseNat);
    if rs.None? || |rs.value| < 2 then None else Some(Range(rs.value[0], rs.value[1]))
  }

  /** The loop state of `resolve`: still reading ranges, the merged ranges, part 1. */
  datatype State = State(isRange: bool, ranges: seq<Range>, p1: nat)

  /** One line: an empty line ends the ranges; a range is merged in; an ID is
      counted when some range contains it. `None` where an `unwrap` panics. */
  function Step(st: State, line: string): Option<State>
  {
    if line == [] then Some(st.(isRange := false))
    else if st.isRange then
      match RangeOf(line)
      case None => None
      case Some(r) => Some(st.(ranges := Merge(st.ranges, r)))
    else
      match ParseNat(line)
      case None => None
      case Some(x) => Some(st.(p1 := st.p1 + if Covered(st.ranges, x) then 1 else 0))
  }

  function Run(lines: seq<string>): Option<State>
  {
    if lines == [] then Some(State(true, [], 0))
    else match Run(lines[..|lines| - 1])
      case None => None
      case Some(st) => Step(st, lines[|lines| - 1])
  }

  predicate RangeNonEmpty(line: string)
  {
    RangeOf(line).Some? ==> RangeOf(line).value.first <= RangeOf(line).value.last
  }

  /** Every range in the input is non-empty. */
  predicate RangesNonEmpty(lines: seq<string>)
  {
    forall k :: 0 <= k < |lines| ==> RangeNonEmpty(lines[k])
  }

  predicate NoBlank(lines: seq<string>)
  {
    forall t :: 0 <= t < |lines| ==> lines[t] != []
  }

  /** The ranges of the first block: the range lines before the first empty line. */
  function RangesRead(lines: seq<string>): seq<Range>
  {
    if lines == [] then []
    else
      var init := lines[..|lines| - 1];
      var line := lines[|lines| - 1];
      if line != [] && NoBlank(init) && RangeOf(line).Some? then RangesRead(init) + [RangeOf(line).value]
      else RangesRead(init)
  }

  /** One line keeps the ranges canonical, and adds exactly the IDs of the range it reads. */
  lemma StepRanges(st: State, line: string, x: nat)
    requires Canonical(st.ranges) && RangeNonEmpty(line) && Step(st, line).Some?
    ensures Canonical(Step(st, line).value.ranges)
    ensures Step(st, line).value.isRange <==> st.isRange && line != []
    ensures Covered(Step(st, line).value.ranges, x) <==>
              Covered(st.ranges, x) || (st.isRange && line != [] && Contains(RangeOf(line).value, x))
  {
    if line != [] && st.isRange {
      MergeCanonical(st.ranges, RangeOf(line).value);
      MergeCovers(st.ranges, RangeOf(line).value, x);
    }
  }

  /** The merged list stays canonical and covers exactly the IDs of the ranges read. */
  lemma {:induction false} RunRanges(lines: seq<string>, x: nat)
    requires RangesNonEmpty(lines) && Run(lines).Some?
    ensures Canonical(Run(lines).value.ranges)
    ensures Run(lines).value.isRange <==> NoBlank(lines)
    ensures Covered(Run(lines).value.ranges, x) <==> Covered(RangesRead(lines), x)
    decreases |lines|
  {
    if lines != [] {
      var init := lines[..|lines| - 1];
      var line := lines[|lines| - 1];
      assert RangesNonEmpty(init) by {
        forall k | 0 <= k < |init| ensures RangeNonEmpty(init[k]) {
          assert init[k] == lines[k];
        }
      }
      assert NoBlank(lines) <==> NoBlank(init) && line != [] by {
        assert forall k :: 0 <= k < |init| ==> init[k] == lines[k];
      }
      RunRanges(init, x);
      var st := Run(init).value;
      assert RangeNonEmpty(line);
      StepRanges(st, line, x);
      if line != [] && st.isRange {
        CoveredSnoc(RangesRead(init), RangeOf(line).value, x);
      }
    }
  }

  /** The two answers: part 1 as counted, part 2 the total length of the ranges. */
  function Answer(lines: seq<string>): Option<(nat, nat)>
    requires RangesNonEmpty(lines)
  {
    match Run(lines)
    case None => None
    case Some(st) =>
      RunRanges(lines, 0);
      Some((st.p1, TotalLength(st.ranges)))
  }

  /** The body of the line loop of `resolve`. */
  method ReadLine(st: State, line: string) returns (r: Option<State>)
    ensures r == Step(st, line)
  {
    if line == [] {
      return Some(st.(isRange := false));
    }
    if st.isRange {
      var range := RangeOf(line);
      if range.None? {
        return None;
      }
      var ranges := AddAndMerge(st.ranges, range.value);
      return Some(st.(ranges := ranges));
    }
    var ingredient := ParseNat(line);
    if ingredient.None? {
      return None;
    }
    r := Some(st.(p1 := st.p1 + if Covered(st.ranges, ingredient.value) then 1 else 0));
  }

  /** The closing `fold` of `resolve`: the total length of the ranges. */
  method SumLengths(ranges: seq<Range>) returns (p2: nat)
    requires forall k :: 0 <= k < |ranges| ==> ranges[k].first <= ranges[k].last
    ensures p2 == TotalLength(ranges)
  {
    p2 := 0;
    var j := 0;
    while j < |ranges|
      invariant j <= |ranges| && p2 == TotalLength(ranges[..j])
    {
      assert ranges[..j + 1][..j] == ranges[..j];
      p2 := p2 + ranges[j].last - ranges[j].first + 1;
      j := j + 1;
    }
    assert ranges[..j] == ranges;
  }

  /** `resolve`. */
  method Resolve(lines: seq<string>) returns (r: Option<(nat, nat)>)
    requires RangesNonEmpty(lines)
    ensures r == Answer(lines)
  {
    var st := State(true, [], 0);
    var k := 0;
    while k < |lines|
      invariant k <= |lines| && Run(lines[..k]) == Some(st)
    {
      assert lines[..k + 1][..k] == lines[..k];
      var next := ReadLine(st, lines[k]);
      if next.None? {
        RunNone(lines, k + 1);
        return None;
      }
      st := next.value;
      k := k + 1;
    }
    assert lines[..k] == lines;
    RunRanges(lines, 0);
    var p2 := SumLengths(st.ranges);
    r := Some((st.p1, p2));
  }

  /** Once a line panics, `resolve` panics. */
  lemma {:induction false} RunNone(lines: seq<string>, k: nat)
    requires 0 < k <= |lines| && Run(lines[..k]).None?
    ensures Run(lines).None?
    decreases |lines|
  {
    if k < |lines| {
      assert lines[..|lines| - 1][..k] == lines[..k];
      RunNone(lines[..|lines| - 1], k);
    } else {
      assert lines[..k] == lines;
    }
  }
}
