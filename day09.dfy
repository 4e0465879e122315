/** Day 9: red tiles at the corners of a rectilinear loop. Part 1 is the
    largest rectangle with two red tiles at opposite corners; part 2 the
    largest such rectangle that no edge of the loop's outer border (the tiles
    just outside each corner) crosses. */
module Day09 {
  import opened Common

  datatype Tile = Tile(x: int, y: int)

  function Abs(v: int): nat
  {
    if v < 0 then -v else v
  }

  /** `Tile::surface`: the number of tiles in the rectangle with corners `a` and `b`. */
  function Surface(a: Tile, b: Tile): int
  {
    (Abs(b.x - a.x) + 1) * (Abs(b.y - a.y) + 1)
  }

  /** The rectangle is the same from either corner, holds at least one tile,
      and holds a single one exactly when the corners coincide. */
  lemma SurfaceSpec(a: Tile, b: Tile)
    ensures Surface(a, b) == Surface(b, a)
    ensures Surface(a, b) >= 1
    ensures Surface(a, b) == 1 <==> a == b
  {
    var w, h := Abs(b.x - a.x) + 1, Abs(b.y - a.y) + 1;
    assert Abs(a.x - b.x) + 1 == w && Abs(a.y - b.y) + 1 == h;
    MulLe(1, 1, h);
    MulLe(1, w, h);
    if w > 1 {
      MulLe(2, w, h);
    } else if h > 1 {
      assert w * h == h;
    }
  }

  /** The cases of `check_surface`. */
  lemma SurfaceExamples()
    ensures Surface(Tile(1, 1), Tile(2, 1)) == 2 && Surface(Tile(1, 1), Tile(1, 3)) == 3
    ensures Surface(Tile(1, 1), Tile(2, 2)) == 4 && Surface(Tile(1, 1), Tile(4, 3)) == 12
  {
  }

  datatype Vector = Vector(dx: int, dy: int)

  /** `Tile::vector`: the step from `a` to `b`. */
  function VectorTo(a: Tile, b: Tile): Vector
  {
    Vector(b.x - a.x, b.y - a.y)
  }

  function Move(a: Tile, v: Vector): Tile
  {
    Tile(a.x + v.dx, a.y + v.dy)
  }

  /** Moving `a` by the vector to `b` reaches `b`; the vector back is its opposite. */
  lemma VectorSpec(a: Tile, b: Tile)
    ensures Move(a, VectorTo(a, b)) == b
    ensures VectorTo(b, a) == Vector(-VectorTo(a, b).dx, -VectorTo(a, b).dy)
  {
  }

  /** `Tile::from_str`: exactly two comma-separated fields, each an integer once trimmed. */
  function Parse(s: string): (r: Result<Tile>)
    ensures r.Ok? <==> |Split(s, ',')| == 2 && ParseInt(Trim(Split(s, ',')[0])).Some?
                                           && ParseInt(Trim(Split(s, ',')[1])).Some?
    ensures r.Ok? ==> r.value == Tile(ParseInt(Trim(Split(s, ',')[0])).value,
                                      ParseInt(Trim(Split(s, ',')[1])).value)
  {
    var positions := Split(s, ',');
    if |positions| != 2 then Err
    else
      match (ParseInt(Trim(positions[0])), ParseInt(Trim(positions[1])))
      case (Some(x), Some(y)) => Ok(Tile(x, y))
      case _ => Err
  }

  // ------------------------------------------------------------ segments

  /** `(v, (a, b))`: a border edge on line `v` (a column for a vertical edge,
      a row for a horizontal one) running from `a` to `b`. */
  datatype Segment = Segment(key: int, from: int, to: int)

  function Key(s: Segment): int
  {
    s.key
  }

  /** The edge's span, walked either way, meets `u0..u1`: the tests of the two
      orientations; an edge of one point panics instead. */
  predicate Overlaps(s: Segment, u0: int, u1: int)
  {
    if s.from > s.to then !(s.to > u1 || s.from < u0)
    else !(s.to < u0 || s.from > u1)
  }

  /** In either orientation the test is closed-interval intersection. */
  lemma OverlapsSpec(s: Segment, u0: int, u1: int)
    ensures Overlaps(s, u0, u1) <==>
              (if s.from < s.to then s.from else s.to) <= u1 && u0 <= (if s.from < s.to then s.to else s.from)
  {
  }

  /** The result of `binary_search_by_key`: `Ok(i)` when `s[i]` has the key,
      `Err(i)` with the position where it would be inserted. */
  datatype Search = Hit(index: nat) | Miss(index: nat)

  /** The first position from `k` on whose key exceeds `t`. */
  function Above(s: seq<Segment>, t: int, k: nat): (r: nat)
    requires k <= |s|
    ensures k <= r <= |s|
    ensures forall m :: k <= m < r ==> s[m].key <= t
    ensures r < |s| ==> s[r].key > t
    decreases |s| - k
  {
    if k == |s| || s[k].key > t then k else Above(s, t, k + 1)
  }

  /** `binary_search_by_key(&t, key)` on a list sorted by key: `Ok` at the last
      segment with key `t` when there is one, else `Err` at the insertion point. */
  function BinarySearch(s: seq<Segment>, t: int): Search
  {
    var r := Above(s, t, 0);
    if r > 0 && s[r - 1].key == t then Hit(r - 1) else Miss(r)
  }

  /** On a sorted list the search answers as the library promises: a hit has
      the key, and a miss sits between the smaller and the larger keys. */
  lemma BinarySearchSpec(s: seq<Segment>, t: int)
    requires SortedBy(s, Key)
    ensures BinarySearch(s, t).Hit? ==> BinarySearch(s, t).index < |s| && s[BinarySearch(s, t).index].key == t
    ensures BinarySearch(s, t).Miss? ==>
              var i := BinarySearch(s, t).index;
              i <= |s| && (forall m :: 0 <= m < i ==> s[m].key < t) && (forall m :: i <= m < |s| ==> s[m].key > t)
    ensures BinarySearch(s, t).Hit? <==> exists m :: 0 <= m < |s| && s[m].key == t
  {
    var r := Above(s, t, 0);
    forall m | r <= m < |s| ensures s[m].key > t {
      assert Key(s[r]) <= Key(s[m]);
    }
    if r > 0 && s[r - 1].key != t {
      forall m | 0 <= m < r ensures s[m].key < t {
        assert Key(s[m]) <= Key(s[r - 1]);
      }
    }
  }

  /** What the search loop can end with: an edge crosses, none does, the loop
      spins forever on a key below `v0`, or it reaches an edge of one point. */
  datatype Verdict = Crosses | Clear | Hangs | Panics

  /** The `while` loop of `is_segments_intersect` from position `index`. */
  function ScanFrom(s: seq<Segment>, index: nat, v0: int, v1: int, u0: int, u1: int): Verdict
    decreases |s| - index
  {
    if index >= |s| then Clear
    else if s[index].key > v1 then Clear
    else if s[index].key < v0 then Hangs
    else if s[index].from == s[index].to then Panics
    else if Overlaps(s[index], u0, u1) then Crosses
    else ScanFrom(s, index + 1, v0, v1, u0, u1)
  }

  /** Edge `m` lies on a line of `v0..v1` and meets `u0..u1`. */
  predicate Crossing(s: seq<Segment>, m: nat, v0: int, v1: int, u0: int, u1: int)
    requires m < |s|
  {
    v0 <= s[m].key <= v1 && Overlaps(s[m], u0, u1)
  }

  /** A reported crossing is a real one. */
  lemma {:induction false} ScanSound(s: seq<Segment>, index: nat, v0: int, v1: int, u0: int, u1: int)
    ensures ScanFrom(s, index, v0, v1, u0, u1).Crosses? ==>
              exists m :: index <= m < |s| && Crossing(s, m, v0, v1, u0, u1)
    decreases |s| - index
  {
    if index < |s| && v0 <= s[index].key <= v1 && s[index].from != s[index].to && !Overlaps(s[index], u0, u1) {
      ScanSound(s, index + 1, v0, v1, u0, u1);
      if ScanFrom(s, index, v0, v1, u0, u1).Crosses? {
        var m :| index + 1 <= m < |s| && Crossing(s, m, v0, v1, u0, u1);
      }
    } else if ScanFrom(s, index, v0, v1, u0, u1).Crosses? {
      assert Crossing(s, index, v0, v1, u0, u1);
    }
  }

  /** From a position where every key is at least `v0`, on a sorted list of
      edges of more than one point, the loop neither spins nor panics, and
      reports a crossing exactly when one lies ahead. */
  lemma {:induction false} ScanComplete(s: seq<Segment>, index: nat, v0: int, v1: int, u0: int, u1: int)
    requires SortedBy(s, Key) && Proper(s) && index <= |s|
    requires index < |s| ==> s[index].key >= v0
    ensures ScanFrom(s, index, v0, v1, u0, u1) == Crosses || ScanFrom(s, index, v0, v1, u0, u1) == Clear
    ensures ScanFrom(s, index, v0, v1, u0, u1).Crosses? <==>
              exists m :: index <= m < |s| && Crossing(s, m, v0, v1, u0, u1)
    decreases |s| - index
  {
    if index < |s| {
      if s[index].key > v1 {
        forall m | index <= m < |s| ensures !Crossing(s, m, v0, v1, u0, u1) {
          assert Key(s[index]) <= Key(s[m]);
        }
      } else if !Overlaps(s[index], u0, u1) {
        if index + 1 < |s| {
          assert Key(s[index]) <= Key(s[index + 1]);
        }
        ScanComplete(s, index + 1, v0, v1, u0, u1);
        if exists m :: index <= m < |s| && Crossing(s, m, v0, v1, u0, u1) {
          var m :| index <= m < |s| && Crossing(s, m, v0, v1, u0, u1);
          assert index + 1 <= m;
        }
      } else {
        assert Crossing(s, index, v0, v1, u0, u1);
      }
    }
  }

  /** No edge of a single point. */
  predicate Proper(s: seq<Segment>)
  {
    forall m :: 0 <= m < |s| ==> s[m].from != s[m].to
  }

  /** The start position as written: one past the search result, hit or miss. */
  function StartAsWritten(found: Search): nat
  {
    found.index + 1
  }

  /** `is_segments_intersect` as written. */
  function IntersectAsWritten(s: seq<Segment>, v0: int, v1: int, u0: int, u1: int): Verdict
  {
    ScanFrom(s, StartAsWritten(BinarySearch(s, v0 - 1)), v0, v1, u0, u1)
  }

  /** As written, a reported crossing is real. */
  lemma AsWrittenSound(s: seq<Segment>, v0: int, v1: int, u0: int, u1: int)
    ensures IntersectAsWritten(s, v0, v1, u0, u1).Crosses? ==>
              exists m :: 0 <= m < |s| && Crossing(s, m, v0, v1, u0, u1)
  {
    ScanSound(s, StartAsWritten(BinarySearch(s, v0 - 1)), v0, v1, u0, u1);
  }

  /** As written, a miss skips the first edge on or after line `v0`: the
      column-5 edge from 0 to 10 crosses rows 2..3 of columns 5..8, yet the
      search reports none. */
  lemma AsWrittenMisses()
    ensures var s := [Segment(5, 0, 10)];
            Crossing(s, 0, 5, 8, 2, 3) && IntersectAsWritten(s, 5, 8, 2, 3) == Clear
  {
    var s := [Segment(5, 0, 10)];
    assert Above(s, 4, 0) == 0;
  }

  /** The start position intended: one past a hit (past the keys `v0 - 1`), at a miss. */
  function Start(found: Search): nat
  {
    if found.Hit? then found.index + 1 else found.index
  }

  /** `is_segments_intersect` starting where intended. */
  function Intersect(s: seq<Segment>, v0: int, v1: int, u0: int, u1: int): Verdict
  {
    ScanFrom(s, Start(BinarySearch(s, v0 - 1)), v0, v1, u0, u1)
  }

  /** On a sorted list of edges of more than one point, the search neither
      spins nor panics and reports a crossing exactly when there is one. */
  lemma IntersectSpec(s: seq<Segment>, v0: int, v1: int, u0: int, u1: int)
    requires SortedBy(s, Key) && Proper(s)
    ensures Intersect(s, v0, v1, u0, u1) == Crosses || Intersect(s, v0, v1, u0, u1) == Clear
    ensures Intersect(s, v0, v1, u0, u1).Crosses? <==> exists m :: 0 <= m < |s| && Crossing(s, m, v0, v1, u0, u1)
  {
    var found := BinarySearch(s, v0 - 1);
    BinarySearchSpec(s, v0 - 1);
    var start := Start(found);
    if found.Hit? && start < |s| {
      assert s[start].key >= v0;
    }
    ScanComplete(s, start, v0, v1, u0, u1);
    forall m | 0 <= m < start ensures !Crossing(s, m, v0, v1, u0, u1) {
      if found.Hit? {
        assert Key(s[m]) <= Key(s[found.index]);
      }
    }
  }

  /** The search loop: the start from the binary search, then edge by edge
      until a line beyond `v1`. */
  method IsSegmentsIntersect(segments: seq<Segment>, v0: int, v1: int, u0: int, u1: int) returns (r: Verdict)
    ensures r == Intersect(segments, v0, v1, u0, u1)
  {
    var index := Start(BinarySearch(segments, v0 - 1));
    while index < |segments|
      invariant ScanFrom(segments, index, v0, v1, u0, u1) == Intersect(segments, v0, v1, u0, u1)
      decreases |segments| - index
    {
      var s := segments[index];
      if s.key > v1 {
        break;
      }
      if s.key < v0 {
        return Hangs;
      }
      if s.from > s.to {
        if s.to > u1 || s.from < u0 {
        } else {
          return Crosses;
        }
      } else if s.from < s.to {
        if s.to < u0 || s.from > u1 {
        } else {
          return Crosses;
        }
      } else {
        return Panics;
      }
      index := index + 1;
    }
    return Clear;
  }

  // ------------------------------------------------------------- corners

  function Sign(v: int): int
  {
    if v > 0 then 1 else if v < 0 then -1 else 0
  }

  /** The z component of the cross product: its sign says which way the path turns. */
  function Cross(p: Vector, v: Vector): int
  {
    p.dx * v.dy - p.dy * v.dx
  }

  /** The position after `i` round a loop of `n`. */
  function Next(n: nat, i: nat): (r: nat)
    requires i < n
    ensures r < n
  {
    if i + 1 < n then i + 1 else 0
  }

  /** The position before `i` round a loop of `n`. */
  function Prev(n: nat, i: nat): (r: nat)
    requires i < n
    ensures r < n
  {
    if i == 0 then n - 1 else i - 1
  }

  /** `(i + 1) % n` walks round the loop. */
  lemma Modulo(n: nat, i: nat)
    requires i < n
    ensures (i + 1) % n == Next(n, i)
  {
    if i + 1 == n {
      assert (i + 1) % n == 0;
    }
  }

  /** Each position is the one before the position after it. */
  lemma PrevNext(n: nat, i: nat)
    requires i < n
    ensures Prev(n, Next(n, i)) == i
  {
  }

  /** The step into tile `i`, from the tile before it round the loop. */
  function Incoming(t: seq<Tile>, i: nat): Vector
    requires i < |t|
  {
    VectorTo(t[Prev(|t|, i)], t[i])
  }

  /** The step out of tile `i`, to the tile after it round the loop. */
  function Outgoing(t: seq<Tile>, i: nat): Vector
    requires i < |t|
  {
    VectorTo(t[i], t[Next(|t|, i)])
  }

  /** The tile diagonally outside corner `c` between steps `prev` and `v`:
      ahead of the incoming step and behind the outgoing one on a positive
      turn, the other way round otherwise. */
  function Outside(c: Tile, prev: Vector, v: Vector): Tile
  {
    if Cross(prev, v) > 0 then Tile(c.x + Sign(prev.dx) - Sign(v.dx), c.y + Sign(prev.dy) - Sign(v.dy))
    else Tile(c.x - Sign(prev.dx) + Sign(v.dx), c.y - Sign(prev.dy) + Sign(v.dy))
  }

  /** A step along one axis. */
  predicate Straight(v: Vector)
  {
    (v.dx == 0) != (v.dy == 0)
  }

  /** Where the path turns a right angle, the outside tile is a diagonal neighbour of the corner. */
  lemma OutsideDiagonal(c: Tile, prev: Vector, v: Vector)
    requires Straight(prev) && Straight(v) && (prev.dx == 0) != (v.dx == 0)
    ensures Abs(Outside(c, prev, v).x - c.x) == 1 && Abs(Outside(c, prev, v).y - c.y) == 1
  {
  }

  /** The outside tile of corner `i`. */
  function Corner(t: seq<Tile>, i: nat): Tile
    requires i < |t|
  {
    Outside(t[i], Incoming(t, i), Outgoing(t, i))
  }

  function Corners(t: seq<Tile>): (r: seq<Tile>)
    requires |t| >= 1
    ensures |r| == |t|
  {
    seq(|t|, i requires 0 <= i < |t| => Corner(t, i))
  }

  /** The sum of the turn signs at the first `k` corners. */
  function Rotation(t: seq<Tile>, k: nat): int
    requires k <= |t|
  {
    if k == 0 then 0 else Rotation(t, k - 1) + Sign(Cross(Incoming(t, k - 1), Outgoing(t, k - 1)))
  }

  /** The number of turns one way minus the number the other way, at most one per corner. */
  lemma {:induction false} RotationBound(t: seq<Tile>, k: nat)
    requires k <= |t|
    ensures -(k as int) <= Rotation(t, k) <= k
  {
    if k > 0 {
      RotationBound(t, k - 1);
    }
  }

  /** The first loop of `resolve`: the outside tile of every corner and the rotation. */
  method Turns(tiles: seq<Tile>) returns (external: seq<Tile>, rotation: int)
    requires |tiles| >= 1
    ensures external == Corners(tiles)
    ensures rotation == Rotation(tiles, |tiles|)
  {
    var n := |tiles|;
    external := [];
    var prev := VectorTo(tiles[n - 1], tiles[0]);
    rotation := 0;
    for i := 0 to n
      invariant external == Corners(tiles)[..i]
      invariant rotation == Rotation(tiles, i)
      invariant i < n ==> prev == Incoming(tiles, i)
    {
      Modulo(n, i);
      var a, b := tiles[i], tiles[(i + 1) % n];
      var v := VectorTo(a, b);
      var product := prev.dx * v.dy - prev.dy * v.dx;
      rotation := rotation + Sign(product);
      var tile := if product > 0 then Tile(tiles[i].x + Sign(prev.dx) - Sign(v.dx), tiles[i].y + Sign(prev.dy) - Sign(v.dy))
                  else Tile(tiles[i].x - Sign(prev.dx) + Sign(v.dx), tiles[i].y - Sign(prev.dy) + Sign(v.dy));
      assert tile == Corner(tiles, i);
      assert Corners(tiles)[..i + 1] == Corners(tiles)[..i] + [tile];
      external := external + [tile];
      prev := v;
    }
  }

  // --------------------------------------------------------------- sides

  /** The border edges split into vertical and horizontal ones, or a diagonal edge (a panic). */
  datatype Sides = Sides(verticals: seq<Segment>, horizontals: seq<Segment>) | Diagonal

  /** The edges between consecutive outside tiles `0..k`, each to the next round the loop. */
  function SidesOf(e: seq<Tile>, k: nat): Sides
    requires 1 <= |e| && k <= |e|
  {
    if k == 0 then Sides([], [])
    else match SidesOf(e, k - 1)
      case Diagonal => Diagonal
      case Sides(vs, hs) =>
        var a, b := e[k - 1], e[Next(|e|, k - 1)];
        if a.x == b.x then Sides(vs + [Segment(a.x, a.y, b.y)], hs)
        else if a.y == b.y then Sides(vs, hs + [Segment(a.y, a.x, b.x)])
        else Diagonal
  }

  /** The edge from outside tile `i` to the next is neither vertical nor horizontal. */
  predicate Slanted(e: seq<Tile>, i: nat)
    requires i < |e|
  {
    e[i].x != e[Next(|e|, i)].x && e[i].y != e[Next(|e|, i)].y
  }

  /** Splitting fails exactly on a slanted edge. */
  lemma {:induction false} SidesDiagonal(e: seq<Tile>, k: nat)
    requires 1 <= |e| && k <= |e|
    ensures SidesOf(e, k).Diagonal? <==> exists i :: 0 <= i < k && Slanted(e, i)
  {
    if k > 0 {
      SidesDiagonal(e, k - 1);
      if SidesOf(e, k - 1).Sides? && Slanted(e, k - 1) {
        assert SidesOf(e, k).Diagonal?;
      }
    }
  }

  /** Edge `i` is on the list of its direction: a vertical one on its column,
      any other on its row. */
  predicate Listed(r: Sides, e: seq<Tile>, i: nat)
    requires i < |e|
  {
    var a, b := e[i], e[Next(|e|, i)];
    r.Sides? &&
    (a.x == b.x ==> Segment(a.x, a.y, b.y) in r.verticals) &&
    (a.x != b.x ==> Segment(a.y, a.x, b.x) in r.horizontals)
  }

  /** Without a slanted edge, every edge is on exactly one of the lists. */
  lemma {:induction false} SidesListed(e: seq<Tile>, k: nat)
    requires 1 <= |e| && k <= |e| && SidesOf(e, k).Sides?
    ensures |SidesOf(e, k).verticals| + |SidesOf(e, k).horizontals| == k
    ensures forall i :: 0 <= i < k ==> Listed(SidesOf(e, k), e, i)
  {
    if k > 0 {
      SidesListed(e, k - 1);
      var r, q := SidesOf(e, k - 1), SidesOf(e, k);
      assert q.verticals == r.verticals || q.verticals == r.verticals + [q.verticals[|q.verticals| - 1]];
      assert q.horizontals == r.horizontals || q.horizontals == r.horizontals + [q.horizontals[|q.horizontals| - 1]];
      forall i | 0 <= i < k ensures Listed(q, e, i) {
        if i < k - 1 {
          assert Listed(r, e, i);
        }
      }
    }
  }

  /** The second loop of `resolve`: each edge to its list, or a panic on a diagonal. */
  method Borders(external: seq<Tile>) returns (r: Sides)
    requires |external| >= 1
    ensures r == SidesOf(external, |external|)
  {
    var n := |external|;
    var verticals: seq<Segment> := [];
    var horizontals: seq<Segment> := [];
    for i := 0 to n
      invariant SidesOf(external, i) == Sides(verticals, horizontals)
    {
      Modulo(n, i);
      var a, b := external[i], external[(i + 1) % n];
      if a.x == b.x {
        verticals := verticals + [Segment(a.x, a.y, b.y)];
      } else if a.y == b.y {
        horizontals := horizontals + [Segment(a.y, a.x, b.x)];
      } else {
        assert Slanted(external, i);
        SidesDiagonal(external, n);
        return Diagonal;
      }
    }
    return Sides(verticals, horizontals);
  }

  // ---------------------------------------------------------- rectangles

  /** Neither search finds an edge crossing the rectangle with corners `a` and `b`. */
  predicate Clean(vs: seq<Segment>, hs: seq<Segment>, a: Tile, b: Tile)
  {
    Intersect(vs, Min(a.x, b.x), Max(a.x, b.x), Min(a.y, b.y), Max(a.y, b.y)) == Clear &&
    Intersect(hs, Min(a.y, b.y), Max(a.y, b.y), Min(a.x, b.x), Max(a.x, b.x)) == Clear
  }

  /** The result of `resolve`: a panic, a search that never ends, or the two answers. */
  datatype Outcome = Panicked | Hung | Answer(p1: int, p2: int)

  /** One pair of the nested loops: `p1` takes the surface if larger; a surface
      larger than `p2` is searched for crossing vertical, then horizontal edges,
      and replaces `p2` when neither search finds one. */
  function Consider(a: Tile, b: Tile, vs: seq<Segment>, hs: seq<Segment>, p1: int, p2: int): Outcome
  {
    var surface := Surface(a, b);
    var q1 := Max(p1, surface);
    if surface <= p2 then Answer(q1, p2)
    else
      match Intersect(vs, Min(a.x, b.x), Max(a.x, b.x), Min(a.y, b.y), Max(a.y, b.y))
      case Hangs => Hung
      case Panics => Panicked
      case Crosses => Answer(q1, p2)
      case Clear =>
        match Intersect(hs, Min(a.y, b.y), Max(a.y, b.y), Min(a.x, b.x), Max(a.x, b.x))
        case Hangs => Hung
        case Panics => Panicked
        case Crosses => Answer(q1, p2)
        case Clear => Answer(q1, surface)
  }

  /** The inner loop over `j` for row `i`, stopping at a panic or a hang. */
  function Row(t: seq<Tile>, vs: seq<Segment>, hs: seq<Segment>, i: nat, j: nat, acc: Outcome): Outcome
    requires i < j <= |t|
    decreases |t| - j
  {
    if j == |t| || !acc.Answer? then acc
    else Row(t, vs, hs, i, j + 1, Consider(t[i], t[j], vs, hs, acc.p1, acc.p2))
  }

  /** The outer loop over `i < |t| - 1`. */
  function Rows(t: seq<Tile>, vs: seq<Segment>, hs: seq<Segment>, i: nat, acc: Outcome): Outcome
    decreases |t| - i
  {
    if i + 1 >= |t| || !acc.Answer? then acc
    else Rows(t, vs, hs, i + 1, Row(t, vs, hs, i, i + 1, acc))
  }

  /** Pair `a < b` comes before pair `(i, j)` in the loops. */
  predicate Done(i: nat, j: nat, a: nat, b: nat)
  {
    a < i || (a == i && b < j)
  }

  /** `p1` is at least every surface of the pairs done. */
  ghost predicate Bound1(t: seq<Tile>, i: nat, j: nat, p1: int)
  {
    forall a, b :: 0 <= a < b < |t| && Done(i, j, a, b) ==> Surface(t[a], t[b]) <= p1
  }

  /** `p2` is at least every clean surface of the pairs done. */
  ghost predicate Bound2(t: seq<Tile>, vs: seq<Segment>, hs: seq<Segment>, i: nat, j: nat, p2: int)
  {
    forall a, b :: 0 <= a < b < |t| && Done(i, j, a, b) && Clean(vs, hs, t[a], t[b]) ==> Surface(t[a], t[b]) <= p2
  }

  /** `p1` is 0 or the surface of a pair done. */
  ghost predicate Reached1(t: seq<Tile>, i: nat, j: nat, p1: int)
  {
    p1 == 0 || exists a, b :: 0 <= a < b < |t| && Done(i, j, a, b) && Surface(t[a], t[b]) == p1
  }

  /** `p2` is 0 or the surface of a clean pair done. */
  ghost predicate Reached2(t: seq<Tile>, vs: seq<Segment>, hs: seq<Segment>, i: nat, j: nat, p2: int)
  {
    p2 == 0 || exists a, b :: 0 <= a < b < |t| && Done(i, j, a, b) && Clean(vs, hs, t[a], t[b]) && Surface(t[a], t[b]) == p2
  }

  /** Over the pairs done, `p1` is the largest surface and `p2` the largest clean one (0 for none). */
  ghost predicate Best(t: seq<Tile>, vs: seq<Segment>, hs: seq<Segment>, i: nat, j: nat, p1: int, p2: int)
  {
    0 <= p2 <= p1 && Bound1(t, i, j, p1) && Bound2(t, vs, hs, i, j, p2) && Reached1(t, i, j, p1) && Reached2(t, vs, hs, i, j, p2)
  }

  /** A clean pair ends with `p2` at least its surface. */
  lemma ConsiderClean(a: Tile, b: Tile, vs: seq<Segment>, hs: seq<Segment>, p1: int, p2: int)
    requires Consider(a, b, vs, hs, p1, p2).Answer?
    ensures var r := Consider(a, b, vs, hs, p1, p2);
            r.p1 == Max(p1, Surface(a, b)) && (r.p2 == p2 || (r.p2 == Surface(a, b) > p2 && Clean(vs, hs, a, b)))
    ensures Clean(vs, hs, a, b) ==> Consider(a, b, vs, hs, p1, p2).p2 == Max(p2, Surface(a, b))
  {
  }

  /** Considering pair `(i, j)` keeps `Best` with that pair done. */
  lemma ConsiderStep(t: seq<Tile>, vs: seq<Segment>, hs: seq<Segment>, i: nat, j: nat, p1: int, p2: int, q1: int, q2: int)
    requires i < j < |t| && Best(t, vs, hs, i, j, p1, p2)
    requires Consider(t[i], t[j], vs, hs, p1, p2) == Answer(q1, q2)
    ensures Best(t, vs, hs, i, j + 1, q1, q2)
  {
    var s := Surface(t[i], t[j]);
    SurfaceSpec(t[i], t[j]);
    ConsiderClean(t[i], t[j], vs, hs, p1, p2);
    forall a, b | 0 <= a < b < |t| && Done(i, j + 1, a, b) ensures Surface(t[a], t[b]) <= q1 {
      if !Done(i, j, a, b) {
        assert a == i && b == j;
      }
    }
    forall a, b | 0 <= a < b < |t| && Done(i, j + 1, a, b) && Clean(vs, hs, t[a], t[b]) ensures Surface(t[a], t[b]) <= q2 {
      if !Done(i, j, a, b) {
        assert a == i && b == j;
      }
    }
    if q1 != 0 && q1 == s {
      assert Done(i, j + 1, i, j);
    } else if q1 != 0 {
      var a, b :| 0 <= a < b < |t| && Done(i, j, a, b) && Surface(t[a], t[b]) == q1;
      assert Done(i, j + 1, a, b);
    }
    if q2 != 0 && q2 == p2 {
      var a, b :| 0 <= a < b < |t| && Done(i, j, a, b) && Clean(vs, hs, t[a], t[b]) && Surface(t[a], t[b]) == q2;
      assert Done(i, j + 1, a, b);
    } else if q2 != 0 {
      assert Done(i, j + 1, i, j);
    }
  }

  /** `Best` depends only on which pairs are done. */
  lemma BestSame(t: seq<Tile>, vs: seq<Segment>, hs: seq<Segment>, i: nat, j: nat, k: nat, l: nat, p1: int, p2: int)
    requires forall a, b :: 0 <= a < b < |t| ==> (Done(i, j, a, b) <==> Done(k, l, a, b))
    requires Best(t, vs, hs, i, j, p1, p2)
    ensures Best(t, vs, hs, k, l, p1, p2)
  {
    if p1 != 0 {
      var a, b :| 0 <= a < b < |t| && Done(i, j, a, b) && Surface(t[a], t[b]) == p1;
      assert Done(k, l, a, b);
    }
    if p2 != 0 {
      var a, b :| 0 <= a < b < |t| && Done(i, j, a, b) && Clean(vs, hs, t[a], t[b]) && Surface(t[a], t[b]) == p2;
      assert Done(k, l, a, b);
    }
  }

  /** One pair of a row that ends in an answer: the pair gives an answer, keeps
      `Best`, and the rest of the row ends in the same answer. */
  lemma RowStep(t: seq<Tile>, vs: seq<Segment>, hs: seq<Segment>, i: nat, j: nat,
                p1: int, p2: int, q1: int, q2: int)
    requires i < j < |t| && Best(t, vs, hs, i, j, p1, p2)
    requires Row(t, vs, hs, i, j, Answer(p1, p2)) == Answer(q1, q2)
    ensures var r := Consider(t[i], t[j], vs, hs, p1, p2);
            r.Answer? && Best(t, vs, hs, i, j + 1, r.p1, r.p2) && Row(t, vs, hs, i, j + 1, r) == Answer(q1, q2)
  {
    var r := Consider(t[i], t[j], vs, hs, p1, p2);
    assert Row(t, vs, hs, i, j, Answer(p1, p2)) == Row(t, vs, hs, i, j + 1, r);
    if r.Answer? {
      ConsiderStep(t, vs, hs, i, j, p1, p2, r.p1, r.p2);
    }
  }

  lemma {:induction false} RowBest(t: seq<Tile>, vs: seq<Segment>, hs: seq<Segment>, i: nat, j: nat,
                                   p1: int, p2: int, q1: int, q2: int)
    requires i < j <= |t| && Best(t, vs, hs, i, j, p1, p2)
    requires Row(t, vs, hs, i, j, Answer(p1, p2)) == Answer(q1, q2)
    ensures Best(t, vs, hs, i, |t|, q1, q2)
    decreases |t| - j
  {
    if j < |t| {
      RowStep(t, vs, hs, i, j, p1, p2, q1, q2);
      var r := Consider(t[i], t[j], vs, hs, p1, p2);
      RowBest(t, vs, hs, i, j + 1, r.p1, r.p2, q1, q2);
    }
  }

  /** A finished row leaves `Best` ready for the next one. */
  lemma NextRow(t: seq<Tile>, vs: seq<Segment>, hs: seq<Segment>, i: nat, p1: int, p2: int, q1: int, q2: int)
    requires i + 1 < |t| && Best(t, vs, hs, i, i + 1, p1, p2)
    requires Row(t, vs, hs, i, i + 1, Answer(p1, p2)) == Answer(q1, q2)
    ensures Best(t, vs, hs, i + 1, i + 2, q1, q2)
  {
    RowBest(t, vs, hs, i, i + 1, p1, p2, q1, q2);
    BestSame(t, vs, hs, i, |t|, i + 1, i + 2, q1, q2);
  }

  lemma {:induction false} RowsBest(t: seq<Tile>, vs: seq<Segment>, hs: seq<Segment>, i: nat,
                                    p1: int, p2: int, q1: int, q2: int)
    requires Best(t, vs, hs, i, i + 1, p1, p2)
    requires Rows(t, vs, hs, i, Answer(p1, p2)) == Answer(q1, q2)
    ensures Best(t, vs, hs, |t|, 0, q1, q2)
    decreases |t| - i
  {
    if i + 1 >= |t| {
      BestSame(t, vs, hs, i, i + 1, |t|, 0, p1, p2);
    } else {
      var r := Row(t, vs, hs, i, i + 1, Answer(p1, p2));
      assert Rows(t, vs, hs, i, Answer(p1, p2)) == Rows(t, vs, hs, i + 1, r);
      if r.Answer? {
        NextRow(t, vs, hs, i, p1, p2, r.p1, r.p2);
        RowsBest(t, vs, hs, i + 1, r.p1, r.p2, q1, q2);
      }
    }
  }

  /** When the loops finish, `p1` is the largest surface of all pairs and `p2`
      the largest clean one (0 when there is none), so `p2 <= p1`. */
  lemma PairsBest(t: seq<Tile>, vs: seq<Segment>, hs: seq<Segment>)
    ensures var r := Rows(t, vs, hs, 0, Answer(0, 0));
            r.Answer? ==> Best(t, vs, hs, |t|, 0, r.p1, r.p2)
  {
    var r := Rows(t, vs, hs, 0, Answer(0, 0));
    if r.Answer? {
      RowsBest(t, vs, hs, 0, 0, 0, r.p1, r.p2);
    }
  }

  /** A permutation of edges of more than one point has none of one point either. */
  lemma ProperPermutation(s: seq<Segment>, r: seq<Segment>)
    requires multiset(r) == multiset(s) && Proper(s)
    ensures Proper(r)
  {
    forall m | 0 <= m < |r| ensures r[m].from != r[m].to {
      assert r[m] in multiset(s);
      var k :| 0 <= k < |s| && s[k] == r[m];
    }
  }

  /** With sorted edge lists of more than one point, no pair hangs or panics. */
  lemma ConsiderAnswer(a: Tile, b: Tile, vs: seq<Segment>, hs: seq<Segment>, p1: int, p2: int)
    requires SortedBy(vs, Key) && Proper(vs) && SortedBy(hs, Key) && Proper(hs)
    ensures Consider(a, b, vs, hs, p1, p2).Answer?
  {
    IntersectSpec(vs, Min(a.x, b.x), Max(a.x, b.x), Min(a.y, b.y), Max(a.y, b.y));
    IntersectSpec(hs, Min(a.y, b.y), Max(a.y, b.y), Min(a.x, b.x), Max(a.x, b.x));
  }

  lemma {:induction false} RowAnswer(t: seq<Tile>, vs: seq<Segment>, hs: seq<Segment>, i: nat, j: nat, p1: int, p2: int)
    requires SortedBy(vs, Key) && Proper(vs) && SortedBy(hs, Key) && Proper(hs)
    requires i < j <= |t|
    ensures Row(t, vs, hs, i, j, Answer(p1, p2)).Answer?
    decreases |t| - j
  {
    if j < |t| {
      ConsiderAnswer(t[i], t[j], vs, hs, p1, p2);
      var r := Consider(t[i], t[j], vs, hs, p1, p2);
      RowAnswer(t, vs, hs, i, j + 1, r.p1, r.p2);
    }
  }

  /** With sorted edge lists of more than one point, the loops run to the end. */
  lemma {:induction false} RowsAnswer(t: seq<Tile>, vs: seq<Segment>, hs: seq<Segment>, i: nat, p1: int, p2: int)
    requires SortedBy(vs, Key) && Proper(vs) && SortedBy(hs, Key) && Proper(hs)
    ensures Rows(t, vs, hs, i, Answer(p1, p2)).Answer?
    decreases |t| - i
  {
    if i + 1 < |t| {
      RowAnswer(t, vs, hs, i, i + 1, p1, p2);
      var r := Row(t, vs, hs, i, i + 1, Answer(p1, p2));
      RowsAnswer(t, vs, hs, i + 1, r.p1, r.p2);
    }
  }

  /** A pair is clean exactly when no vertical edge lies within the rectangle's
      columns and meets its rows, and no horizontal edge lies within its rows
      and meets its columns. */
  lemma CleanSpec(vs: seq<Segment>, hs: seq<Segment>, a: Tile, b: Tile)
    requires SortedBy(vs, Key) && Proper(vs) && SortedBy(hs, Key) && Proper(hs)
    ensures Clean(vs, hs, a, b) <==>
              (forall m :: 0 <= m < |vs| ==> !Crossing(vs, m, Min(a.x, b.x), Max(a.x, b.x), Min(a.y, b.y), Max(a.y, b.y))) &&
              (forall m :: 0 <= m < |hs| ==> !Crossing(hs, m, Min(a.y, b.y), Max(a.y, b.y), Min(a.x, b.x), Max(a.x, b.x)))
  {
    IntersectSpec(vs, Min(a.x, b.x), Max(a.x, b.x), Min(a.y, b.y), Max(a.y, b.y));
    IntersectSpec(hs, Min(a.y, b.y), Max(a.y, b.y), Min(a.x, b.x), Max(a.x, b.x));
  }

  // -------------------------------------------------------------- resolve

  function TileOf(line: string): Option<Tile>
  {
    if Parse(line).Ok? then Some(Parse(line).value) else None
  }

  /** `resolve`: parse every line (a bad line panics), find the outside corners,
      check the clockwise rotation and the border edges, sort them by key and
      run the two nested loops over the pairs of red tiles. */
  function Solve(lines: seq<string>): Outcome
  {
    match MapAll(lines, TileOf)
    case None => Panicked
    case Some(t) =>
      if t == [] || Rotation(t, |t|) != 4 then Panicked
      else
        match SidesOf(Corners(t), |t|)
        case Diagonal => Panicked
        case Sides(vs, hs) => Rows(t, SortBy(vs, Key), SortBy(hs, Key), 0, Answer(0, 0))
  }

  /** The outcome of `resolve`: a panic on a bad line, no tile, a rotation other
      than 4 or a diagonal border; otherwise, when no border edge is a single
      point, the two answers, `p1` the largest surface of any two red tiles and
      `p2` the largest surface whose rectangle no border edge crosses. */
  lemma SolveSpec(lines: seq<string>)
    ensures MapAll(lines, TileOf).None? ==> Solve(lines) == Panicked
    ensures MapAll(lines, TileOf).Some? ==>
              var t := MapAll(lines, TileOf).value;
              (t == [] || Rotation(t, |t|) != 4 || SidesOf(Corners(t), |t|).Diagonal? ==> Solve(lines) == Panicked) &&
              (t != [] && Rotation(t, |t|) == 4 && SidesOf(Corners(t), |t|).Sides? ==>
                 var sides := SidesOf(Corners(t), |t|);
                 var vs, hs := SortBy(sides.verticals, Key), SortBy(sides.horizontals, Key);
                 (Proper(sides.verticals) && Proper(sides.horizontals) ==> Solve(lines).Answer?) &&
                 (Solve(lines).Answer? ==> Best(t, vs, hs, |t|, 0, Solve(lines).p1, Solve(lines).p2)))
  {
    if MapAll(lines, TileOf).Some? {
      var t := MapAll(lines, TileOf).value;
      if t != [] && Rotation(t, |t|) == 4 && SidesOf(Corners(t), |t|).Sides? {
        var sides := SidesOf(Corners(t), |t|);
        var vs, hs := SortBy(sides.verticals, Key), SortBy(sides.horizontals, Key);
        if Proper(sides.verticals) && Proper(sides.horizontals) {
          ProperPermutation(sides.verticals, vs);
          ProperPermutation(sides.horizontals, hs);
          RowsAnswer(t, vs, hs, 0, 0, 0);
        }
        PairsBest(t, vs, hs);
      }
    }
  }

  /** The body of the inner loop for the pair `a`, `b`. */
  method Rectangle(a: Tile, b: Tile, verticals: seq<Segment>, horizontals: seq<Segment>, p1: int, p2: int)
    returns (r: Outcome)
    ensures r == Consider(a, b, verticals, horizontals, p1, p2)
  {
    var surface := Surface(a, b);
    var q1 := Max(p1, surface);
    if surface <= p2 {
      return Answer(q1, p2);
    }
    var x0, x1 := a.x, b.x;
    if b.x <= a.x {
      x0, x1 := b.x, a.x;
    }
    var y0, y1 := a.y, b.y;
    if b.y <= a.y {
      y0, y1 := b.y, a.y;
    }
    var crossed := IsSegmentsIntersect(verticals, x0, x1, y0, y1);
    if crossed == Hangs || crossed == Panics {
      return if crossed == Hangs then Hung else Panicked;
    } else if crossed == Crosses {
      return Answer(q1, p2);
    }
    crossed := IsSegmentsIntersect(horizontals, y0, y1, x0, x1);
    if crossed == Hangs || crossed == Panics {
      return if crossed == Hangs then Hung else Panicked;
    } else if crossed == Crosses {
      return Answer(q1, p2);
    }
    return Answer(q1, surface);
  }

  /** The two nested loops of `resolve` over the pairs of red tiles. */
  method Pairs(tiles: seq<Tile>, verticals: seq<Segment>, horizontals: seq<Segment>) returns (r: Outcome)
    requires |tiles| >= 1
    ensures r == Rows(tiles, verticals, horizontals, 0, Answer(0, 0))
  {
    var n := |tiles|;
    var p1, p2 := 0, 0;
    for i := 0 to n - 1
      invariant Rows(tiles, verticals, horizontals, i, Answer(p1, p2)) == Rows(tiles, verticals, horizontals, 0, Answer(0, 0))
    {
      for j := i + 1 to n
        invariant Rows(tiles, verticals, horizontals, i + 1, Row(tiles, verticals, horizontals, i, j, Answer(p1, p2)))
                  == Rows(tiles, verticals, horizontals, 0, Answer(0, 0))
      {
        var next := Rectangle(tiles[i], tiles[j], verticals, horizontals, p1, p2);
        if !next.Answer? {
          return next;
        }
        p1, p2 := next.p1, next.p2;
      }
    }
    return Answer(p1, p2);
  }

  method Resolve(lines: seq<string>) returns (r: Outcome)
    ensures r == Solve(lines)
  {
    var parsed := MapAll(lines, TileOf);
    if parsed.None? {
      return Panicked;
    }
    var tiles := parsed.value;
    var n := |tiles|;
    if n == 0 {
      return Panicked;
    }
    var external, rotation := Turns(tiles);
    if rotation != 4 {
      return Panicked;
    }
    var sides := Borders(external);
    if sides.Diagonal? {
      return Panicked;
    }
    var verticals := SortBy(sides.verticals, Key);
    var horizontals := SortBy(sides.horizontals, Key);
    r := Pairs(tiles, verticals, horizontals);
  }
}
