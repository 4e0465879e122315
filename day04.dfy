/** Day 4: rolls of paper `@` on a square grid. A forklift can take a roll
    with fewer than four rolls among its eight neighbours. `get_forklift`
    lists those rolls in row-major order; `resolve` removes them (part 1
    counts the first round) and repeats until no roll can be taken, part 2
    counting every roll removed. */
module Day04 {
  import opened Common

  /** A position `(x, y)`: column, then row. */
  type Pos = (nat, nat)

  /** The grid as rows of bytes, `n` by `n`. */
  predicate Square(g: seq<seq<char>>, n: nat)
  {
    |g| == n && forall y :: 0 <= y < n ==> |g[y]| == n
  }

  /** The neighbour offsets `(dx, dy)` in the order the source visits them. */
  const Offsets: seq<(int, int)> := [(-1, -1), (0, -1), (1, -1), (-1, 0), (1, 0), (-1, 1), (0, 1), (1, 1)]

  /** The offsets are the eight distinct steps to a neighbouring cell. */
  lemma OffsetsAreNeighbours()
    ensures |Offsets| == 8
    ensures forall i, j :: 0 <= i < j < 8 ==> Offsets[i] != Offsets[j]
    ensures forall dx: int, dy: int :: (dx, dy) in Offsets <==> -1 <= dx <= 1 && -1 <= dy <= 1 && (dx, dy) != (0, 0)
  {
  }

  /** A cell inside the grid holding a roll; cells outside hold none. */
  predicate Occupied(g: seq<seq<char>>, n: nat, x: int, y: int)
    requires Square(g, n)
  {
    0 <= x < n && 0 <= y < n && g[y][x] == '@'
  }

  /** Rolls among the first `d` neighbours of `(x, y)`. */
  function AdjacentUpTo(g: seq<seq<char>>, n: nat, x: int, y: int, d: nat): nat
    requires Square(g, n) && d <= 8
  {
    if d == 0 then 0
    else AdjacentUpTo(g, n, x, y, d - 1) + (if Occupied(g, n, x + Offsets[d - 1].0, y + Offsets[d - 1].1) then 1 else 0)
  }

  /** A roll the forklift can take. */
  predicate Removable(g: seq<seq<char>>, n: nat, x: nat, y: nat)
    requires Square(g, n)
  {
    Occupied(g, n, x, y) && AdjacentUpTo(g, n, x, y, 8) < 4
  }

  /** The removable rolls of row `y` left of column `x`, left to right. */
  function ScanRow(g: seq<seq<char>>, n: nat, y: nat, x: nat): seq<Pos>
    requires Square(g, n)
  {
    if x == 0 then [] else ScanRow(g, n, y, x - 1) + if Removable(g, n, x - 1, y) then [(x - 1, y)] else []
  }

  /** The removable rolls of the rows above `y`, in row-major order. */
  function ScanRows(g: seq<seq<char>>, n: nat, y: nat): seq<Pos>
    requires Square(g, n)
  {
    if y == 0 then [] else ScanRows(g, n, y - 1) + ScanRow(g, n, y - 1, n)
  }

  /** The list `get_forklift` returns. */
  function Scan(g: seq<seq<char>>, n: nat): seq<Pos>
    requires Square(g, n)
  {
    ScanRows(g, n, n)
  }

  /** `p` comes strictly before `q` in row-major order. */
  predicate Before(p: Pos, q: Pos)
  {
    p.1 < q.1 || (p.1 == q.1 && p.0 < q.0)
  }

  predicate RowMajor(s: seq<Pos>)
  {
    forall i, j :: 0 <= i < j < |s| ==> Before(s[i], s[j])
  }

  lemma {:induction false} ScanRowSpec(g: seq<seq<char>>, n: nat, y: nat, x: nat)
    requires Square(g, n) && x <= n
    ensures forall p :: p in ScanRow(g, n, y, x) <==> p.1 == y && p.0 < x && y < n && Removable(g, n, p.0, y)
    ensures RowMajor(ScanRow(g, n, y, x))
    decreases x
  {
    if x > 0 {
      ScanRowSpec(g, n, y, x - 1);
    }
  }

  lemma {:induction false} ScanRowsSpec(g: seq<seq<char>>, n: nat, y: nat)
    requires Square(g, n) && y <= n
    ensures forall p :: p in ScanRows(g, n, y) <==> p.1 < y && p.0 < n && Removable(g, n, p.0, p.1)
    ensures RowMajor(ScanRows(g, n, y))
    decreases y
  {
    if y > 0 {
      ScanRowsSpec(g, n, y - 1);
      ScanRowSpec(g, n, y - 1, n);
    }
  }

  /** `get_forklift` lists exactly the removable rolls, each once, in row-major order. */
  lemma ScanSpec(g: seq<seq<char>>, n: nat)
    requires Square(g, n)
    ensures forall p :: p in Scan(g, n) <==> p.0 < n && p.1 < n && Removable(g, n, p.0, p.1)
    ensures RowMajor(Scan(g, n))
  {
    ScanRowsSpec(g, n, n);
  }

  // ------------------------------------------------------ the array grid

  /** The contents of the array grid, row by row. */
  function Cells(grid: array2<char>): (g: seq<seq<char>>)
    reads grid
    ensures Square(g, grid.Length0) || grid.Length0 != grid.Length1
  {
    seq(grid.Length0, y reads grid requires 0 <= y < grid.Length0 =>
      seq(grid.Length1, x reads grid requires 0 <= x < grid.Length1 => grid[y, x]))
  }

  /** The count of `@` among the eight neighbours, skipping those off the grid. */
  method Adjacents(grid: array2<char>, x: nat, y: nat) returns (adjacents: nat)
    requires grid.Length0 == grid.Length1 && x < grid.Length0 && y < grid.Length0
    ensures adjacents == AdjacentUpTo(Cells(grid), grid.Length0, x, y, 8)
  {
    var n := grid.Length0;
    ghost var g := Cells(grid);
    adjacents := 0;
    for d := 0 to 8
      invariant adjacents == AdjacentUpTo(g, n, x, y, d)
    {
      var (dx, dy) := Offsets[d];
      if y + dy < 0 || y + dy >= n {
        continue;
      }
      if x + dx < 0 || x + dx >= n {
        continue;
      }
      if grid[y + dy, x + dx] == '@' {
        adjacents := adjacents + 1;
      }
    }
  }

  /** `get_forklift`: the removable rolls in row-major order; the grid is only read. */
  method Forklift(grid: array2<char>) returns (ret: seq<Pos>)
    requires grid.Length0 == grid.Length1
    ensures ret == Scan(Cells(grid), grid.Length0)
  {
    var n := grid.Length0;
    ghost var g := Cells(grid);
    ret := [];
    for y := 0 to n
      invariant ret == ScanRows(g, n, y)
    {
      for x := 0 to n
        invariant ret == ScanRows(g, n, y) + ScanRow(g, n, y, x)
      {
        if grid[y, x] != '@' {
          continue;
        }
        var adjacents := Adjacents(grid, x, y);
        if adjacents < 4 {
          ret := ret + [(x, y)];
        }
      }
    }
  }

  // ------------------------------------------------------- removing rolls

  /** The number of rolls in a row. */
  function RowCount(r: seq<char>): nat
  {
    if r == [] then 0 else RowCount(r[..|r| - 1]) + if r[|r| - 1] == '@' then 1 else 0
  }

  /** The number of rolls on the grid. */
  function Count(g: seq<seq<char>>): nat
  {
    if g == [] then 0 else Count(g[..|g| - 1]) + RowCount(g[|g| - 1])
  }

  lemma {:induction false} RowCountUpdate(r: seq<char>, x: nat, c: char)
    requires x < |r|
    ensures RowCount(r[x := c]) + (if r[x] == '@' then 1 else 0) == RowCount(r) + (if c == '@' then 1 else 0)
    decreases |r|
  {
    var t := r[x := c];
    if x < |r| - 1 {
      assert t[..|t| - 1] == r[..|r| - 1][x := c];
      RowCountUpdate(r[..|r| - 1], x, c);
    } else {
      assert t[..|t| - 1] == r[..|r| - 1];
    }
  }

  lemma {:induction false} CountUpdate(g: seq<seq<char>>, y: nat, row: seq<char>)
    requires y < |g|
    ensures Count(g[y := row]) + RowCount(g[y]) == Count(g) + RowCount(row)
    decreases |g|
  {
    var t := g[y := row];
    if y < |g| - 1 {
      assert t[..|t| - 1] == g[..|g| - 1][y := row];
      CountUpdate(g[..|g| - 1], y, row);
    } else {
      assert t[..|t| - 1] == g[..|g| - 1];
    }
  }

  /** One cell turned into `.`. */
  function Clear(g: seq<seq<char>>, n: nat, p: Pos): (r: seq<seq<char>>)
    requires Square(g, n) && p.0 < n && p.1 < n
    ensures Square(r, n)
    ensures forall y, x :: 0 <= y < n && 0 <= x < n ==> r[y][x] == if (x, y) == p then '.' else g[y][x]
  {
    g[p.1 := g[p.1][p.0 := '.']]
  }

  /** Clearing a roll takes exactly one roll off the grid; clearing anything else takes none. */
  lemma ClearCount(g: seq<seq<char>>, n: nat, p: Pos)
    requires Square(g, n) && p.0 < n && p.1 < n
    ensures Count(Clear(g, n, p)) + (if g[p.1][p.0] == '@' then 1 else 0) == Count(g)
  {
    RowCountUpdate(g[p.1], p.0, '.');
    CountUpdate(g, p.1, g[p.1][p.0 := '.']);
  }

  predicate InGrid(ps: seq<Pos>, n: nat)
  {
    forall i :: 0 <= i < |ps| ==> ps[i].0 < n && ps[i].1 < n
  }

  /** The grid after the listed cells, in order, are turned into `.`:
      those cells read `.`, every other cell is unchanged. */
  function Cleared(g: seq<seq<char>>, n: nat, ps: seq<Pos>): (r: seq<seq<char>>)
    requires Square(g, n) && InGrid(ps, n)
    ensures Square(r, n)
    ensures forall y, x :: 0 <= y < n && 0 <= x < n ==> r[y][x] == if (x, y) in ps then '.' else g[y][x]
  {
    if ps == [] then g else Clear(Cleared(g, n, ps[..|ps| - 1]), n, ps[|ps| - 1])
  }

  predicate Distinct(ps: seq<Pos>)
  {
    forall i, j :: 0 <= i < j < |ps| ==> ps[i] != ps[j]
  }

  /** Clearing distinct rolls takes exactly that many rolls off the grid. */
  lemma {:induction false} ClearedCount(g: seq<seq<char>>, n: nat, ps: seq<Pos>)
    requires Square(g, n) && InGrid(ps, n) && Distinct(ps)
    requires forall i :: 0 <= i < |ps| ==> g[ps[i].1][ps[i].0] == '@'
    ensures Count(Cleared(g, n, ps)) + |ps| == Count(g)
    decreases |ps|
  {
    if ps != [] {
      var init, last := ps[..|ps| - 1], ps[|ps| - 1];
      ClearedCount(g, n, init);
      assert last !in init by {
        forall i | 0 <= i < |init| ensures init[i] != last {
          assert ps[i] != ps[|ps| - 1];
        }
      }
      ClearCount(Cleared(g, n, init), n, last);
    }
  }

  /** A row-major list has no repeats. */
  lemma ScanRemovesRolls(g: seq<seq<char>>, n: nat)
    requires Square(g, n)
    ensures InGrid(Scan(g, n), n) && Distinct(Scan(g, n))
    ensures forall i :: 0 <= i < |Scan(g, n)| ==> g[Scan(g, n)[i].1][Scan(g, n)[i].0] == '@'
    ensures Scan(g, n) != [] ==> Count(Cleared(g, n, Scan(g, n))) < Count(g)
  {
    var s := Scan(g, n);
    ScanSpec(g, n);
    assert forall i :: 0 <= i < |s| ==> s[i] in s;
    if s != [] {
      ClearedCount(g, n, s);
    }
  }

  /** The rolls removed over all rounds, starting from `g`. */
  function Removed(g: seq<seq<char>>, n: nat): nat
    requires Square(g, n)
    decreases Count(g)
  {
    var s := Scan(g, n);
    if s == [] then 0
    else
      ScanRemovesRolls(g, n);
      |s| + Removed(Cleared(g, n, s), n)
  }

  /** The grid once no roll can be taken any more. */
  function Settled(g: seq<seq<char>>, n: nat): seq<seq<char>>
    requires Square(g, n)
    decreases Count(g)
  {
    var s := Scan(g, n);
    if s == [] then g
    else
      ScanRemovesRolls(g, n);
      Settled(Cleared(g, n, s), n)
  }

  /** The rounds end on a grid where no roll is removable, and part 2 is the
      number of rolls that left the grid. */
  lemma {:induction false} Settles(g: seq<seq<char>>, n: nat)
    requires Square(g, n)
    ensures Square(Settled(g, n), n)
    ensures forall x, y :: 0 <= x < n && 0 <= y < n ==> !Removable(Settled(g, n), n, x, y)
    ensures Removed(g, n) + Count(Settled(g, n)) == Count(g)
    decreases Count(g)
  {
    var s := Scan(g, n);
    ScanRemovesRolls(g, n);
    if s == [] {
      ScanSpec(g, n);
      forall x, y | 0 <= x < n && 0 <= y < n ensures !Removable(g, n, x, y) {
        assert (x, y) !in s;
      }
    } else {
      ClearedCount(g, n, s);
      Settles(Cleared(g, n, s), n);
    }
  }

  // ------------------------------------------------------------- resolve

  /** The byte the grid holds at `(x, y)` after reading the lines; 0 where no line reaches. */
  function Cell(lines: seq<string>, x: int, y: int): char
  {
    if 0 <= y < |lines| && 0 <= x < |lines[y]| then lines[y][x] else 0 as char
  }

  /** The grid read from the lines. */
  function Filled(lines: seq<string>, n: nat): (g: seq<seq<char>>)
    ensures Square(g, n)
  {
    seq(n, y => seq(n, x => Cell(lines, x, y)))
  }

  /** The lines fit the fixed grid; a longer line or an extra line would index out of it. */
  predicate Fits(lines: seq<string>, n: nat)
  {
    |lines| <= n && forall y :: 0 <= y < |lines| ==> |lines[y]| <= n
  }

  /** Reads the lines into a fresh `n` by `n` grid of zero bytes. */
  method Fill(lines: seq<string>, n: nat) returns (grid: array2<char>)
    requires Fits(lines, n)
    ensures fresh(grid) && grid.Length0 == n && grid.Length1 == n
    ensures Cells(grid) == Filled(lines, n)
  {
    grid := new char[n, n]((_, _) => 0 as char);
    for y := 0 to |lines|
      invariant forall b, a :: 0 <= b < n && 0 <= a < n ==> grid[b, a] == if b < y then Cell(lines, a, b) else 0 as char
    {
      var line := lines[y];
      for x := 0 to |line|
        invariant forall b, a :: 0 <= b < n && 0 <= a < n ==>
          grid[b, a] == if b < y || (b == y && a < x) then Cell(lines, a, b) else 0 as char
      {
        grid[y, x] := line[x];
      }
    }
    assert Cells(grid) == Filled(lines, n) by {
      forall b | 0 <= b < n ensures Cells(grid)[b] == Filled(lines, n)[b] {
      }
    }
  }

  /** Turns each listed cell into `.`. */
  method Remove(grid: array2<char>, ps: seq<Pos>)
    requires grid.Length0 == grid.Length1 && InGrid(ps, grid.Length0)
    modifies grid
    ensures Cells(grid) == Cleared(old(Cells(grid)), grid.Length0, ps)
  {
    var n := grid.Length0;
    ghost var g := Cells(grid);
    for i := 0 to |ps|
      invariant forall b, a :: 0 <= b < n && 0 <= a < n ==> grid[b, a] == if (a, b) in ps[..i] then '.' else g[b][a]
    {
      var (x, y) := ps[i];
      assert ps[..i + 1] == ps[..i] + [ps[i]];
      grid[y, x] := '.';
    }
    assert ps[..|ps|] == ps;
    assert Cells(grid) == Cleared(g, n, ps) by {
      forall b | 0 <= b < n ensures Cells(grid)[b] == Cleared(g, n, ps)[b] {
      }
    }
  }

  /** `resolve`: part 1 is the first round, part 2 every round until none is left. */
  method Resolve(lines: seq<string>, n: nat) returns (p1: nat, p2: nat)
    requires Fits(lines, n)
    ensures p1 == |Scan(Filled(lines, n), n)|
    ensures p2 == Removed(Filled(lines, n), n)
    ensures p1 <= p2
  {
    ghost var start := Filled(lines, n);
    var grid := Fill(lines, n);
    var toRemove := Forklift(grid);
    p1 := |toRemove|;
    ScanRemovesRolls(start, n);
    Remove(grid, toRemove);
    p2 := p1;
    while true
      invariant grid.Length0 == n && grid.Length1 == n
      invariant p2 + Removed(Cells(grid), n) == Removed(start, n)
      invariant p1 <= p2
      decreases Count(Cells(grid))
    {
      toRemove := Forklift(grid);
      if toRemove == [] {
        break;
      }
      p2 := p2 + |toRemove|;
      ScanRemovesRolls(Cells(grid), n);
      Remove(grid, toRemove);
    }
  }
}
