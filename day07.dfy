/** Day 7: a tachyon manifold. A beam enters the top row in the middle column
    and falls row by row; `beams[i]` counts the timelines whose beam is in
    column `i`. A beam that meets a splitter `^` stops there and continues in
    the two neighbouring columns, each unless that neighbour is itself a
    splitter; any other cell lets it fall straight down. Part 1 counts the
    splitters hit by a beam, part 2 the timelines left after the last row. */
module Day07 {
  import opened Common

  /** A row the falling beams can read: it covers the `size` columns, and the
      last column holds no splitter (the source reads and writes column
      `index + 1` behind a guard `index < SIZE` that always holds). */
  predicate RowOk(line: string, size: nat)
  {
    size >= 1 && |line| >= size && line[size - 1] != '^'
  }

  /** The timelines arriving in column `j` of the next row from the columns
      before `i` of this one: straight down unless `j` is a splitter, and
      from a splitter on either side unless `j` is one. */
  function Into(b: seq<nat>, line: string, i: nat, j: nat): nat
    requires RowOk(line, |b|) && j < |b|
  {
    if line[j] == '^' then 0
    else (if j < i then b[j] else 0)
         + (if 0 < j && j - 1 < i && line[j - 1] == '^' then b[j - 1] else 0)
         + (if j + 1 < |b| && j + 1 < i && line[j + 1] == '^' then b[j + 1] else 0)
  }

  /** The beams of the next row, column by column. */
  function Next(b: seq<nat>, line: string): (r: seq<nat>)
    requires RowOk(line, |b|)
    ensures |r| == |b|
  {
    seq(|b|, j requires 0 <= j < |b| => Into(b, line, |b|, j))
  }

  /** How many of the first `i` columns carry timelines onto a splitter. */
  function Splits(b: seq<nat>, line: string, i: nat): nat
    requires RowOk(line, |b|) && i <= |b|
  {
    if i == 0 then 0
    else Splits(b, line, i - 1) + (if b[i - 1] != 0 && line[i - 1] == '^' then 1 else 0)
  }

  /** The timelines leaving column `k`: all of them when they fall straight,
      once per free side of a splitter. */
  function Out(b: seq<nat>, line: string, k: nat): nat
    requires RowOk(line, |b|) && k < |b|
  {
    if line[k] != '^' then b[k]
    else (if 0 < k && line[k - 1] != '^' then b[k] else 0) + (if line[k + 1] != '^' then b[k] else 0)
  }

  /** The timelines leaving the first `i` columns. */
  function Outgoing(b: seq<nat>, line: string, i: nat): nat
    requires RowOk(line, |b|) && i <= |b|
  {
    if i == 0 then 0 else Outgoing(b, line, i - 1) + Out(b, line, i - 1)
  }

  /** The loop body of `resolve` on column `k`: `tmp` after the timelines of
      that column have been added where they go. */
  function Deposit(t: seq<nat>, b: seq<nat>, line: string, k: nat): (r: seq<nat>)
    requires RowOk(line, |b|) && |t| == |b| && k < |b|
    ensures |r| == |t|
  {
    if b[k] == 0 then t
    else if line[k] != '^' then t[k := t[k] + b[k]]
    else if k > 0 && line[k - 1] != '^' then
      (if line[k + 1] != '^' then t[k - 1 := t[k - 1] + b[k]][k + 1 := t[k + 1] + b[k]] else t[k - 1 := t[k - 1] + b[k]])
    else if line[k + 1] != '^' then t[k + 1 := t[k + 1] + b[k]]
    else t
  }

  /** `tmp` after the first `i` columns, from all zeroes. */
  function Scattered(b: seq<nat>, line: string, i: nat): (r: seq<nat>)
    requires RowOk(line, |b|) && i <= |b|
    ensures |r| == |b|
  {
    if i == 0 then seq(|b|, _ => 0) else Deposit(Scattered(b, line, i - 1), b, line, i - 1)
  }

  /** Scattering column by column gathers, in every column, what `Into` says arrives there. */
  lemma {:induction false} ScatteredInto(b: seq<nat>, line: string, i: nat, j: nat)
    requires RowOk(line, |b|) && i <= |b| && j < |b|
    ensures Scattered(b, line, i)[j] == Into(b, line, i, j)
    decreases i
  {
    if i > 0 {
      ScatteredInto(b, line, i - 1, j);
    }
  }

  /** Depositing column `k` adds what leaves it to the total of `tmp`. */
  lemma DepositSum(t: seq<nat>, b: seq<nat>, line: string, k: nat, r: seq<nat>)
    requires RowOk(line, |b|) && |t| == |b| && k < |b| && r == Deposit(t, b, line, k)
    ensures Sum(r) == Sum(t) + Out(b, line, k)
  {
    var x := b[k];
    if x == 0 {
      assert r == t;
    } else if line[k] != '^' {
      DepositAt(t, b, line, k, k, r);
    } else {
      var left := k > 0 && line[k - 1] != '^';
      var right := line[k + 1] != '^';
      if left && right {
        DepositBoth(t, b, line, k, r);
      } else if left {
        DepositAt(t, b, line, k, k - 1, r);
      } else if right {
        DepositAt(t, b, line, k, k + 1, r);
      } else {
        assert r == t;
      }
    }
  }

  /** Column `k` sends all its timelines to the single column `j`. */
  lemma DepositAt(t: seq<nat>, b: seq<nat>, line: string, k: nat, j: nat, r: seq<nat>)
    requires RowOk(line, |b|) && |t| == |b| && k < |b| && r == Deposit(t, b, line, k) && b[k] != 0
    requires (line[k] != '^' && j == k)
          || (line[k] == '^' && 0 < k && j == k - 1 && line[k - 1] != '^' && line[k + 1] == '^')
          || (line[k] == '^' && j == k + 1 && !(0 < k && line[k - 1] != '^') && line[k + 1] != '^')
    ensures j < |t| && Sum(r) == Sum(t) + b[k]
  {
    DepositOne(t, b, line, k, j);
    SumUpdate(t, j, b[k]);
  }

  lemma DepositOne(t: seq<nat>, b: seq<nat>, line: string, k: nat, j: nat)
    requires RowOk(line, |b|) && |t| == |b| && k < |b| && b[k] != 0
    requires (line[k] != '^' && j == k)
          || (line[k] == '^' && 0 < k && j == k - 1 && line[k - 1] != '^' && line[k + 1] == '^')
          || (line[k] == '^' && j == k + 1 && !(0 < k && line[k - 1] != '^') && line[k + 1] != '^')
    ensures j < |t| && Deposit(t, b, line, k) == t[j := t[j] + b[k]]
  {
  }

  /** A splitter with room on both sides sends its timelines to both. */
  lemma DepositBoth(t: seq<nat>, b: seq<nat>, line: string, k: nat, r: seq<nat>)
    requires RowOk(line, |b|) && |t| == |b| && k < |b| && r == Deposit(t, b, line, k) && b[k] != 0
    requires line[k] == '^' && 0 < k && line[k - 1] != '^' && line[k + 1] != '^'
    ensures Sum(r) == Sum(t) + b[k] + b[k]
  {
    var t1 := t[k - 1 := t[k - 1] + b[k]];
    DepositTwo(t, b, line, k, t1);
    Added(t, k - 1, b[k], t1);
    Added(t1, k + 1, b[k], r);
  }

  lemma DepositTwo(t: seq<nat>, b: seq<nat>, line: string, k: nat, t1: seq<nat>)
    requires RowOk(line, |b|) && |t| == |b| && k < |b| && b[k] != 0
    requires line[k] == '^' && 0 < k && line[k - 1] != '^' && line[k + 1] != '^'
    requires t1 == t[k - 1 := t[k - 1] + b[k]]
    ensures Deposit(t, b, line, k) == t1[k + 1 := t1[k + 1] + b[k]]
  {
    assert t1[k + 1] == t[k + 1];
  }

  /** `r` is `t` with `x` added at `k`. */
  lemma Added(t: seq<nat>, k: nat, x: nat, r: seq<nat>)
    requires k < |t| && r == t[k := t[k] + x]
    ensures Sum(r) == Sum(t) + x
  {
    SumUpdate(t, k, x);
  }

  /** Every timeline scattered lands in `tmp`: its total is what left the columns so far. */
  lemma {:induction false} ScatteredSum(b: seq<nat>, line: string, i: nat)
    requires RowOk(line, |b|) && i <= |b|
    ensures Sum(Scattered(b, line, i)) == Outgoing(b, line, i)
    decreases i
  {
    if i == 0 {
      SumZero(Scattered(b, line, 0));
    } else {
      ScatteredSum(b, line, i - 1);
      DepositSum(Scattered(b, line, i - 1), b, line, i - 1, Scattered(b, line, i));
    }
  }

  /** The scatter of the whole row is the next row of beams. */
  lemma ScatteredNext(b: seq<nat>, line: string)
    requires RowOk(line, |b|)
    ensures Scattered(b, line, |b|) == Next(b, line)
  {
    forall j | 0 <= j < |b| ensures Scattered(b, line, |b|)[j] == Next(b, line)[j] {
      ScatteredInto(b, line, |b|, j);
    }
  }

  /** One row of the loop of `resolve`: a fresh `tmp` receives every column
      with timelines, scattering at the splitters. The result is the next row
      of beams, the splitter hits of this row, and the row's timeline total
      is what leaves this one. */
  method Row(beams: array<nat>, line: string) returns (tmp: array<nat>, splits: nat)
    requires RowOk(line, beams.Length)
    ensures tmp.Length == beams.Length && tmp[..] == Next(beams[..], line)
    ensures splits == Splits(beams[..], line, beams.Length)
    ensures Sum(tmp[..]) == Outgoing(beams[..], line, beams.Length)
  {
    var size := beams.Length;
    ghost var b := beams[..];
    tmp := new nat[size](_ => 0);
    splits := 0;
    for index := 0 to size
      invariant tmp != beams && beams[..] == b
      invariant tmp.Length == size && tmp[..] == Scattered(b, line, index)
      invariant splits == Splits(b, line, index)
    {
      var paths := beams[index];
      if paths != 0 {
        if line[index] == '^' {
          if index > 0 && line[index - 1] != '^' {
            tmp[index - 1] := tmp[index - 1] + paths;
          }
          if index < size && line[index + 1] != '^' {
            tmp[index + 1] := tmp[index + 1] + paths;
          }
          splits := splits + 1;
        } else {
          tmp[index] := tmp[index] + paths;
        }
      }
    }
    ScatteredNext(b, line);
    ScatteredSum(b, line, size);
  }

  /** The total of the next row is what leaves this one. */
  lemma NextSum(b: seq<nat>, line: string)
    requires RowOk(line, |b|)
    ensures Sum(Next(b, line)) == Outgoing(b, line, |b|)
  {
    ScatteredNext(b, line);
    ScatteredSum(b, line, |b|);
  }

  /** Every splitter has room on both sides. */
  predicate Spread(line: string, size: nat)
    requires RowOk(line, size)
  {
    forall k :: 0 <= k < size && line[k] == '^' ==> 0 < k && line[k - 1] != '^' && line[k + 1] != '^'
  }

  /** The timelines that meet a splitter among the first `i` columns. */
  function AtSplitters(b: seq<nat>, line: string, i: nat): nat
    requires i <= |b| <= |line|
  {
    if i == 0 then 0 else AtSplitters(b, line, i - 1) + (if line[i - 1] == '^' then b[i - 1] else 0)
  }

  /** When every splitter has room on both sides, each timeline that meets one
      becomes two and none is lost: the next row carries the row's timelines
      plus those that met a splitter. */
  lemma TimelinesSplit(b: seq<nat>, line: string)
    requires RowOk(line, |b|) && Spread(line, |b|)
    ensures Sum(Next(b, line)) == Sum(b) + AtSplitters(b, line, |b|)
  {
    NextSum(b, line);
    OutgoingSpread(b, line, |b|);
    assert b[..|b|] == b;
  }

  lemma {:induction false} OutgoingSpread(b: seq<nat>, line: string, i: nat)
    requires RowOk(line, |b|) && Spread(line, |b|) && i <= |b|
    ensures Outgoing(b, line, i) == Sum(b[..i]) + AtSplitters(b, line, i)
    decreases i
  {
    if i > 0 {
      OutgoingSpread(b, line, i - 1);
      assert b[..i][..i - 1] == b[..i - 1];
    }
  }

  // ------------------------------------------------------------- resolve

  /** The first row: one timeline in the middle column. */
  function Initial(size: nat): (r: seq<nat>)
    ensures |r| == size
  {
    seq(size, j => if j == size / 2 then 1 else 0)
  }

  /** The beams after the given rows. */
  function Beams(lines: seq<string>, size: nat): (r: seq<nat>)
    requires forall k :: 0 <= k < |lines| ==> RowOk(lines[k], size)
    ensures |r| == size
  {
    if lines == [] then Initial(size)
    else
      var last := lines[|lines| - 1];
      assert RowOk(last, size);
      Next(Beams(lines[..|lines| - 1], size), last)
  }

  /** The splitter hits over the given rows. */
  function TotalSplits(lines: seq<string>, size: nat): nat
    requires forall k :: 0 <= k < |lines| ==> RowOk(lines[k], size)
  {
    if lines == [] then 0
    else
      var last := lines[|lines| - 1];
      assert RowOk(last, size);
      TotalSplits(lines[..|lines| - 1], size) + Splits(Beams(lines[..|lines| - 1], size), last, size)
  }

  /** `resolve`: part 1 counts the splitter hits of every row, part 2 sums
      the timelines after the last row. */
  method Resolve(lines: seq<string>, size: nat) returns (p1: nat, p2: nat)
    requires size >= 1 && forall k :: 0 <= k < |lines| ==> RowOk(lines[k], size)
    ensures p1 == TotalSplits(lines, size)
    ensures p2 == Sum(Beams(lines, size))
  {
    p1 := 0;
    var beams := new nat[size](_ => 0);
    beams[size / 2] := 1;
    assert beams[..] == Initial(size);
    for n := 0 to |lines|
      invariant beams.Length == size
      invariant beams[..] == Beams(lines[..n], size)
      invariant p1 == TotalSplits(lines[..n], size)
    {
      assert lines[..n + 1][..n] == lines[..n];
      var tmp, splits := Row(beams, lines[n]);
      p1 := p1 + splits;
      beams := tmp;
    }
    assert lines[..|lines|] == lines;
    p2 := Sum(beams[..]);
  }
}
