/** Day 8: junction boxes in 3-D space. Every pair of boxes is a possible
    connection, tried from the shortest squared distance up. Circuits start as
    single boxes; a connection between boxes of two different circuits merges
    them. Part 1 multiplies the sizes of the three largest circuits after a
    fixed number of connections; part 2 multiplies the x coordinates of the
    two boxes whose connection leaves a single circuit. */
module Day08 {
  import opened Common

  datatype Junction = Junction(x: int, y: int, z: int)

  /** `square_distance`: the squared Euclidean distance. */
  function SquareDistance(a: Junction, b: Junction): int
  {
    (b.x - a.x) * (b.x - a.x) + (b.y - a.y) * (b.y - a.y) + (b.z - a.z) * (b.z - a.z)
  }

  lemma SquareZero(d: int)
    ensures d * d >= 0
    ensures d * d == 0 <==> d == 0
  {
    if d < 0 {
      MulLe(1, -d, -d);
    } else if d > 0 {
      MulLe(1, d, d);
    }
  }

  /** The distance is symmetric, never negative, and zero exactly between equal points. */
  lemma DistanceProperties(a: Junction, b: Junction)
    ensures SquareDistance(a, b) == SquareDistance(b, a)
    ensures SquareDistance(a, b) >= 0
    ensures SquareDistance(a, b) == 0 <==> a == b
  {
    SquareZero(b.x - a.x);
    SquareZero(b.y - a.y);
    SquareZero(b.z - a.z);
    assert (a.x - b.x) * (a.x - b.x) == (b.x - a.x) * (b.x - a.x);
    assert (a.y - b.y) * (a.y - b.y) == (b.y - a.y) * (b.y - a.y);
    assert (a.z - b.z) * (a.z - b.z) == (b.z - a.z) * (b.z - a.z);
  }

  /** `Junction::from_str`: exactly three comma-separated fields, each an
      integer once trimmed. */
  function Parse(s: string): (r: Result<Junction>)
    ensures r.Ok? <==> |Split(s, ',')| == 3 && forall k :: 0 <= k < 3 ==> ParseInt(Trim(Split(s, ',')[k])).Some?
    ensures r.Ok? ==> r.value == Junction(ParseInt(Trim(Split(s, ',')[0])).value,
                                          ParseInt(Trim(Split(s, ',')[1])).value,
                                          ParseInt(Trim(Split(s, ',')[2])).value)
  {
    var positions := Split(s, ',');
    if |positions| != 3 then Err
    else
      match (ParseInt(Trim(positions[0])), ParseInt(Trim(positions[1])), ParseInt(Trim(positions[2])))
      case (Some(x), Some(y), Some(z)) => Ok(Junction(x, y, z))
      case _ => Err
  }

  // --------------------------------------------------------- connections

  /** A possible connection: the squared distance between boxes `i < j`. */
  datatype Connection = Connection(distance: int, i: nat, j: nat)

  /** The connections from box `i` to the boxes `i < k < j`, in order. */
  function RowPairs(js: seq<Junction>, i: nat, j: nat): seq<Connection>
    requires i < |js| && j <= |js|
  {
    if j <= i + 1 then [] else RowPairs(js, i, j - 1) + [Connection(SquareDistance(js[i], js[j - 1]), i, j - 1)]
  }

  /** The connections from the boxes before `i` to every later box, in the order pushed. */
  function Pairs(js: seq<Junction>, i: nat): seq<Connection>
    requires i <= |js|
  {
    if i == 0 then [] else Pairs(js, i - 1) + RowPairs(js, i - 1, |js|)
  }

  /** Lexicographic order on `(i, j)`. */
  predicate Before(a: Connection, b: Connection)
  {
    a.i < b.i || (a.i == b.i && a.j < b.j)
  }

  predicate Ascending(cs: seq<Connection>)
  {
    forall p, q :: 0 <= p < q < |cs| ==> Before(cs[p], cs[q])
  }

  predicate NoRepeats(cs: seq<Connection>)
  {
    forall p, q :: 0 <= p < q < |cs| ==> cs[p] != cs[q]
  }

  /** A connection of `js`, with its distance. */
  predicate IsPair(js: seq<Junction>, c: Connection)
  {
    c.i < c.j < |js| && c.distance == SquareDistance(js[c.i], js[c.j])
  }

  lemma {:induction false} RowPairsSpec(js: seq<Junction>, i: nat, j: nat)
    requires i < |js| && j <= |js|
    ensures forall c :: c in RowPairs(js, i, j) <==> IsPair(js, c) && c.i == i && c.j < j
    ensures Ascending(RowPairs(js, i, j))
    decreases j
  {
    if j > i + 1 {
      RowPairsSpec(js, i, j - 1);
    }
  }

  lemma {:induction false} PairsSpec(js: seq<Junction>, i: nat)
    requires i <= |js|
    ensures forall c :: c in Pairs(js, i) <==> IsPair(js, c) && c.i < i
    ensures Ascending(Pairs(js, i))
    decreases i
  {
    if i > 0 {
      PairsSpec(js, i - 1);
      RowPairsSpec(js, i - 1, |js|);
    }
  }

  /** The list `connections` holds every pair `i < j` of boxes once, with its distance. */
  lemma ConnectionsSpec(js: seq<Junction>)
    requires |js| >= 1
    ensures forall c :: c in Pairs(js, |js| - 1) <==> IsPair(js, c)
    ensures NoRepeats(Pairs(js, |js| - 1))
  {
    PairsSpec(js, |js| - 1);
  }

  /** The nested loops pushing every pair `(distance, i, j)` with `i < j`. */
  method Connections(js: seq<Junction>) returns (connections: seq<Connection>)
    requires |js| >= 1
    ensures connections == Pairs(js, |js| - 1)
  {
    var size := |js|;
    connections := [];
    for i := 0 to size - 1
      invariant connections == Pairs(js, i)
    {
      for j := i + 1 to size
        invariant connections == Pairs(js, i) + RowPairs(js, i, j)
      {
        var distance := SquareDistance(js[i], js[j]);
        connections := connections + [Connection(distance, i, j)];
      }
    }
  }

  function Distance(c: Connection): int
  {
    c.distance
  }

  // ------------------------------------------------------------ circuits

  /** Circuits as lists of box indices. */
  type Circuits = seq<seq<nat>>

  /** The boxes of all circuits, with multiplicity. */
  function Elems(c: Circuits): multiset<nat>
  {
    if c == [] then multiset{} else Elems(c[..|c| - 1]) + multiset(c[|c| - 1])
  }

  /** Each of the boxes `0..n` once. */
  function Boxes(n: nat): multiset<nat>
  {
    if n == 0 then multiset{} else Boxes(n - 1) + multiset{n - 1}
  }

  lemma {:induction false} BoxesCount(n: nat, v: nat)
    ensures Boxes(n)[v] == if v < n then 1 else 0
    ensures |Boxes(n)| == n
  {
    if n > 0 {
      BoxesCount(n - 1, v);
    }
  }

  /** The circuits split the boxes `0..size`: none is empty and every box lies in exactly one. */
  predicate Partition(c: Circuits, size: nat)
  {
    (forall k :: 0 <= k < |c| ==> c[k] != []) && Elems(c) == Boxes(size)
  }

  /** One circuit per box, as the source starts. */
  function Singletons(size: nat): (c: Circuits)
    ensures |c| == size
  {
    seq(size, e requires 0 <= e < size => [e])
  }

  lemma {:induction false} SingletonsPartition(size: nat)
    ensures Partition(Singletons(size), size)
  {
    if size > 0 {
      SingletonsPartition(size - 1);
      assert Singletons(size)[..size - 1] == Singletons(size - 1);
    }
  }

  lemma {:induction false} ElemsAppend(a: Circuits, b: Circuits)
    ensures Elems(a + b) == Elems(a) + Elems(b)
    decreases |b|
  {
    if b == [] {
      assert a + b == a;
    } else {
      var n := |a + b|;
      ElemsAppend(a, b[..|b| - 1]);
      assert (a + b)[..n - 1] == a + b[..|b| - 1];
      assert (a + b)[n - 1] == b[|b| - 1];
    }
  }

  /** Every circuit's boxes are among all boxes. */
  lemma ElemsOne(c: Circuits, k: nat)
    requires k < |c|
    ensures multiset(c[k]) <= Elems(c)
  {
    assert c == c[..k] + [c[k]] + c[k + 1..];
    ElemsAppend(c[..k] + [c[k]], c[k + 1..]);
    ElemsAppend(c[..k], [c[k]]);
    var one: Circuits := [c[k]];
    assert one[..0] == [];
  }

  /** Two different circuits' boxes are both among all boxes. */
  lemma ElemsTwo(c: Circuits, k: nat, l: nat)
    requires k < l < |c|
    ensures multiset(c[k]) + multiset(c[l]) <= Elems(c)
  {
    assert c == c[..l] + [c[l]] + c[l + 1..];
    ElemsAppend(c[..l] + [c[l]], c[l + 1..]);
    ElemsAppend(c[..l], [c[l]]);
    var one: Circuits := [c[l]];
    assert one[..0] == [];
    ElemsOne(c[..l], k);
  }

  /** In a partition a box lies in at most one circuit. */
  lemma Disjoint(c: Circuits, size: nat, k: nat, l: nat, v: nat)
    requires Partition(c, size) && k < |c| && l < |c| && k != l && v in c[k]
    ensures v !in c[l]
  {
    BoxesCount(size, v);
    if k < l {
      ElemsTwo(c, k, l);
    } else {
      ElemsTwo(c, l, k);
    }
  }

  /** In a partition each box of `0..size` lies in some circuit. */
  lemma {:induction false} Covered(c: Circuits, v: nat)
    requires v in Elems(c)
    ensures exists k :: 0 <= k < |c| && v in c[k]
    decreases |c|
  {
    var init := c[..|c| - 1];
    if v in multiset(c[|c| - 1]) {
      assert v in c[|c| - 1];
    } else {
      Covered(init, v);
      var k :| 0 <= k < |init| && v in init[k];
      assert v in c[k];
    }
  }

  /** `position` from `from` on: the first circuit holding `i` or `j`. */
  function Find(c: Circuits, i: nat, j: nat, from: nat): (r: Option<nat>)
    ensures r.Some? ==> from <= r.value < |c| && (i in c[r.value] || j in c[r.value])
    ensures forall k :: from <= k < |c| && (r.None? || k < r.value) ==> i !in c[k] && j !in c[k]
    decreases |c| - from
  {
    if from >= |c| then None
    else if i in c[from] || j in c[from] then Some(from)
    else Find(c, i, j, from + 1)
  }

  /** `swap_remove(k)`: the last circuit takes the place of circuit `k`. */
  function SwapRemove(c: Circuits, k: nat): (r: Circuits)
    requires k < |c|
    ensures |r| == |c| - 1
  {
    c[k := c[|c| - 1]][..|c| - 1]
  }

  lemma {:induction false} ElemsUpdate(c: Circuits, f: nat, x: seq<nat>)
    requires f < |c|
    ensures Elems(c[f := x]) + multiset(c[f]) == Elems(c) + multiset(x)
    decreases |c|
  {
    var n := |c|;
    var t := c[f := x];
    var init := c[..n - 1];
    if f < n - 1 {
      assert t[..n - 1] == init[f := x];
      assert t[n - 1] == c[n - 1];
      assert init[f] == c[f];
      ElemsUpdate(init, f, x);
      calc {
        Elems(t) + multiset(c[f]);
        Elems(init[f := x]) + multiset(c[n - 1]) + multiset(c[f]);
        Elems(init) + multiset(x) + multiset(c[n - 1]);
        Elems(c) + multiset(x);
      }
    } else {
      assert t[..n - 1] == init;
      assert t[n - 1] == x;
    }
  }

  /** `swap_remove` takes out exactly the removed circuit's boxes. */
  lemma ElemsSwapRemove(c: Circuits, k: nat)
    requires k < |c|
    ensures Elems(SwapRemove(c, k)) + multiset(c[k]) == Elems(c)
  {
    var n := |c|;
    var last := c[n - 1];
    var t := c[k := last];
    var r := SwapRemove(c, k);
    ElemsUpdate(c, k, last);
    assert t[..n - 1] == r;
    assert t[n - 1] == last;
    assert Elems(t) == Elems(r) + multiset(last);
    var lhs := Elems(r) + multiset(c[k]);
    assert lhs + multiset(last) == Elems(c) + multiset(last);
    forall v ensures lhs[v] == Elems(c)[v] {
      assert (lhs + multiset(last))[v] == (Elems(c) + multiset(last))[v];
    }
    assert lhs == Elems(c);
  }

  /** What one connection does to the circuits. */
  datatype Link = Panicked | Kept | Merged(circuits: Circuits) | Joined

  /** One connection `(i, j)`: the first circuit holding either box; a later
      circuit holding either is `swap_remove`d and, unless a single circuit is
      left, appended to the first. An `unwrap` on no circuit at all panics. */
  function Connect(c: Circuits, i: nat, j: nat): Link
  {
    var first := Find(c, i, j, 0);
    if first.None? then Panicked
    else
      var second := Find(c, i, j, first.value + 1);
      if second.None? then Kept
      else
        var r := SwapRemove(c, second.value);
        if |r| == 1 then Joined
        else Merged(r[first.value := r[first.value] + c[second.value]])
  }

  /** Boxes `i` and `j` share a circuit. */
  predicate Together(c: Circuits, i: nat, j: nat)
  {
    exists k :: 0 <= k < |c| && i in c[k] && j in c[k]
  }

  lemma InSome(c: Circuits, size: nat, v: nat)
    requires Partition(c, size) && v < size
    ensures exists k :: 0 <= k < |c| && v in c[k]
  {
    BoxesCount(size, v);
    Covered(c, v);
  }

  /** A connection on a partition never panics; it keeps the circuits exactly
      when both boxes already share one, ends the search when two circuits were
      left, and otherwise merges two circuits into one, leaving a partition with
      one circuit fewer in which both boxes share a circuit. */
  lemma ConnectSpec(c: Circuits, size: nat, i: nat, j: nat)
    requires Partition(c, size) && i < size && j < size
    ensures !Connect(c, i, j).Panicked?
    ensures Connect(c, i, j).Kept? <==> Together(c, i, j)
    ensures Connect(c, i, j).Joined? <==> !Together(c, i, j) && |c| == 2
    ensures Connect(c, i, j).Merged? ==>
              var r := Connect(c, i, j).circuits;
              Partition(r, size) && |r| == |c| - 1 && Together(r, i, j)
  {
    InSome(c, size, i);
    InSome(c, size, j);
    var first := Find(c, i, j, 0);
    var f := first.value;
    var second := Find(c, i, j, f + 1);
    if second.None? {
      var ki :| 0 <= ki < |c| && i in c[ki];
      var kj :| 0 <= kj < |c| && j in c[kj];
      assert ki == f && kj == f;
    } else {
      var s := second.value;
      if Together(c, i, j) {
        var k :| 0 <= k < |c| && i in c[k] && j in c[k];
        if k != f {
          if i in c[f] { Disjoint(c, size, k, f, i); } else { Disjoint(c, size, k, f, j); }
        }
        if i in c[s] { Disjoint(c, size, f, s, i); } else { Disjoint(c, size, f, s, j); }
      }
      MergeSpec(c, size, i, j, f, s);
    }
  }

  lemma MergeSpec(c: Circuits, size: nat, i: nat, j: nat, f: nat, s: nat)
    requires Partition(c, size) && f < s < |c|
    requires (i in c[f] || j in c[f]) && (i in c[s] || j in c[s]) && !Together(c, i, j)
    ensures var r := SwapRemove(c, s);
            |r| >= 2 ==> Partition(r[f := r[f] + c[s]], size) && Together(r[f := r[f] + c[s]], i, j)
  {
    var r := SwapRemove(c, s);
    ElemsSwapRemove(c, s);
    if |r| >= 2 {
      var m := r[f := r[f] + c[s]];
      ElemsUpdate(r, f, r[f] + c[s]);
      assert r[f] == c[f];
      forall k | 0 <= k < |m| ensures m[k] != [] {
        if k != f {
          assert m[k] == r[k];
          if k == s { assert r[k] == c[|c| - 1]; } else { assert r[k] == c[k]; }
        }
      }
      var em := Elems(m);
      assert em + multiset(r[f]) == Elems(r) + multiset(r[f]) + multiset(c[s]);
      forall v ensures em[v] == Elems(c)[v] {
        assert (em + multiset(r[f]))[v] == (Elems(r) + multiset(r[f]) + multiset(c[s]))[v];
        assert (Elems(r) + multiset(c[s]))[v] == Elems(c)[v];
      }
      assert em == Elems(c);
      if i in c[f] {
        Disjoint(c, size, f, s, i);
      } else {
        Disjoint(c, size, f, s, j);
      }
      assert i in m[f] && j in m[f];
    }
  }

  // ---------------------------------------------------------------- play

  /** The circuit sizes, as collected into `p1`. */
  function Sizes(c: Circuits): (r: seq<nat>)
    ensures |r| == |c|
  {
    seq(|c|, k requires 0 <= k < |c| => |c[k]|)
  }

  lemma {:induction false} SizesElems(c: Circuits)
    ensures Sum(Sizes(c)) == |Elems(c)|
    decreases |c|
  {
    if c != [] {
      SizesElems(c[..|c| - 1]);
      assert Sizes(c)[..|c| - 1] == Sizes(c[..|c| - 1]);
    }
  }

  /** The sizes of a partition's circuits are positive and add up to the number of boxes. */
  lemma SizesSpec(c: Circuits, size: nat)
    requires Partition(c, size)
    ensures Sum(Sizes(c)) == size
    ensures forall k :: 0 <= k < |c| ==> Sizes(c)[k] > 0
  {
    SizesElems(c);
    BoxesCount(size, 0);
  }

  datatype Status = Running | Connected | Failed

  /** The loop's state: the circuits, the snapshot `p1`, the answer `p2`, and
      whether the loop went on, broke on a single circuit, or panicked. */
  datatype State = State(circuits: Circuits, p1: seq<nat>, p2: int, status: Status)

  function Initial(size: nat): State
  {
    State(Singletons(size), [], 0, Running)
  }

  /** After connection number `n` the sizes are recorded once `n == pairs - 1`. */
  function Snapshot(st: State, n: nat, pairs: nat): State
  {
    if n + 1 == pairs then st.(p1 := Sizes(st.circuits)) else st
  }

  /** One iteration of the loop over the sorted connections. */
  function Step(js: seq<Junction>, c: Connection, n: nat, pairs: nat, st: State): State
    requires c.i < |js| && c.j < |js|
  {
    match Connect(st.circuits, c.i, c.j)
    case Panicked => st.(status := Failed)
    case Joined => st.(p2 := js[c.i].x * js[c.j].x, status := Connected)
    case Kept => Snapshot(st, n, pairs)
    case Merged(r) => Snapshot(st.(circuits := r), n, pairs)
  }

  predicate AllPairs(js: seq<Junction>, cs: seq<Connection>)
  {
    forall q :: 0 <= q < |cs| ==> IsPair(js, cs[q])
  }

  /** The loop from connection `n` on, until it breaks or runs out of connections. */
  function Play(js: seq<Junction>, cs: seq<Connection>, pairs: nat, st: State, n: nat): State
    requires AllPairs(js, cs) && n <= |cs|
    decreases |cs| - n
  {
    if n == |cs| || !st.status.Running? then st
    else Play(js, cs, pairs, Step(js, cs[n], n, pairs, st), n + 1)
  }

  /** What the loop keeps: it never panics; while it runs the circuits split
      the boxes; a recorded snapshot lists positive sizes adding up to the
      number of boxes. */
  predicate Inv(st: State, size: nat)
  {
    && !st.status.Failed?
    && (st.status.Running? ==> Partition(st.circuits, size))
    && (st.p1 == [] || Sum(st.p1) == size)
    && (forall k :: 0 <= k < |st.p1| ==> st.p1[k] > 0)
  }

  lemma StepInv(js: seq<Junction>, c: Connection, n: nat, pairs: nat, st: State)
    requires IsPair(js, c) && Inv(st, |js|) && st.status.Running?
    ensures Inv(Step(js, c, n, pairs, st), |js|)
  {
    ConnectSpec(st.circuits, |js|, c.i, c.j);
    match Connect(st.circuits, c.i, c.j)
    case Joined =>
    case Kept =>
      SizesSpec(st.circuits, |js|);
    case Merged(r) =>
      SizesSpec(r, |js|);
  }

  lemma {:induction false} PlayInv(js: seq<Junction>, cs: seq<Connection>, pairs: nat, st: State, n: nat)
    requires AllPairs(js, cs) && n <= |cs| && Inv(st, |js|)
    ensures Inv(Play(js, cs, pairs, st, n), |js|)
    decreases |cs| - n
  {
    if n < |cs| && st.status.Running? {
      StepInv(js, cs[n], n, pairs, st);
      PlayInv(js, cs, pairs, Step(js, cs[n], n, pairs, st), n + 1);
    }
  }

  /** Boxes already sharing a circuit still share one after a merge. */
  lemma MergeTogether(c: Circuits, f: nat, s: nat, a: nat, b: nat)
    requires f < s < |c| && |c| >= 3 && Together(c, a, b)
    ensures var r := SwapRemove(c, s); Together(r[f := r[f] + c[s]], a, b)
  {
    var r := SwapRemove(c, s);
    var m := r[f := r[f] + c[s]];
    var k :| 0 <= k < |c| && a in c[k] && b in c[k];
    if k == s {
      assert m[f] == r[f] + c[s];
      assert a in m[f] && b in m[f];
    } else if k == |c| - 1 {
      assert m[s] == c[k];
      assert a in m[s] && b in m[s];
    } else if k == f {
      assert m[f] == c[f] + c[s];
      assert a in m[f] && b in m[f];
    } else {
      assert m[k] == c[k];
      assert a in m[k] && b in m[k];
    }
  }

  /** Every connection before `n` joins boxes sharing a circuit. */
  predicate Linked(c: Circuits, cs: seq<Connection>, n: nat)
    requires n <= |cs|
  {
    forall q :: 0 <= q < n ==> Together(c, cs[q].i, cs[q].j)
  }

  lemma StepLinked(js: seq<Junction>, cs: seq<Connection>, pairs: nat, st: State, n: nat)
    requires AllPairs(js, cs) && n < |cs| && Inv(st, |js|) && st.status.Running?
    requires Linked(st.circuits, cs, n) && |st.circuits| >= 2
    ensures var next := Step(js, cs[n], n, pairs, st);
            next.status.Running? ==> Linked(next.circuits, cs, n + 1) && |next.circuits| >= 2
  {
    var c := st.circuits;
    var i, j := cs[n].i, cs[n].j;
    ConnectSpec(c, |js|, i, j);
    match Connect(c, i, j)
    case Merged(m) =>
      var f := Find(c, i, j, 0).value;
      var s := Find(c, i, j, f + 1).value;
      forall q | 0 <= q < n ensures Together(m, cs[q].i, cs[q].j) {
        MergeTogether(c, f, s, cs[q].i, cs[q].j);
      }
    case _ =>
  }

  lemma {:induction false} PlayLinked(js: seq<Junction>, cs: seq<Connection>, pairs: nat, st: State, n: nat)
    requires AllPairs(js, cs) && n <= |cs| && Inv(st, |js|)
    requires st.status.Running? ==> Linked(st.circuits, cs, n) && |st.circuits| >= 2
    ensures var last := Play(js, cs, pairs, st, n);
            last.status.Running? ==> Linked(last.circuits, cs, |cs|) && |last.circuits| >= 2
    decreases |cs| - n
  {
    if n < |cs| && st.status.Running? {
      StepInv(js, cs[n], n, pairs, st);
      StepLinked(js, cs, pairs, st, n);
      PlayLinked(js, cs, pairs, Step(js, cs[n], n, pairs, st), n + 1);
    }
  }

  /** `cs` lists every connection of `js`. */
  ghost predicate Complete(js: seq<Junction>, cs: seq<Connection>)
  {
    forall c :: IsPair(js, c) ==> c in cs
  }

  /** In a partition of two or more circuits, some pair of boxes does not share a circuit. */
  lemma Apart(js: seq<Junction>, cs: seq<Connection>, c: Circuits)
    requires Partition(c, |js|) && |c| >= 2 && Complete(js, cs)
    ensures !Linked(c, cs, |cs|)
  {
    var size := |js|;
    var v, w := c[0][0], c[1][0];
    ElemsOne(c, 0);
    ElemsOne(c, 1);
    BoxesCount(size, v);
    BoxesCount(size, w);
    Disjoint(c, size, 0, 1, v);
    var a, b := if v < w then v else w, if v < w then w else v;
    var conn := Connection(SquareDistance(js[a], js[b]), a, b);
    assert IsPair(js, conn);
    var q :| 0 <= q < |cs| && cs[q] == conn;
    if Together(c, a, b) {
      var k :| 0 <= k < |c| && a in c[k] && b in c[k];
      if k != 0 {
        Disjoint(c, size, 0, k, v);
      } else {
        Disjoint(c, size, 1, 0, w);
      }
    }
  }

  /** With two boxes or more and every connection on the list, the loop always
      ends by joining the last two circuits: part 2 always gets its answer. */
  lemma AlwaysConnected(js: seq<Junction>, cs: seq<Connection>, pairs: nat)
    requires |js| >= 2 && AllPairs(js, cs) && Complete(js, cs)
    ensures Play(js, cs, pairs, Initial(|js|), 0).status.Connected?
  {
    SingletonsPartition(|js|);
    PlayInv(js, cs, pairs, Initial(|js|), 0);
    PlayLinked(js, cs, pairs, Initial(|js|), 0);
    var last := Play(js, cs, pairs, Initial(|js|), 0);
    if last.status.Running? {
      Apart(js, cs, last.circuits);
    }
  }

  // -------------------------------------------------------------- answer

  function Reverse(s: seq<nat>): (r: seq<nat>)
    ensures |r| == |s| && multiset(r) == multiset(s)
    ensures forall k :: 0 <= k < |s| ==> r[k] == s[|s| - 1 - k]
  {
    if s == [] then []
    else
      assert s == s[..|s| - 1] + [s[|s| - 1]];
      [s[|s| - 1]] + Reverse(s[..|s| - 1])
  }

  function Identity(v: nat): int { v }

  /** `sort_unstable`, `rev` and `take(3)`: the three largest sizes, largest first. */
  function Largest(sizes: seq<nat>): seq<nat>
  {
    var t := Reverse(SortBy(sizes, Identity));
    t[..if |t| < 3 then |t| else 3]
  }

  /** Reversing an ascending sequence gives a descending one. */
  lemma ReverseDescending(t: seq<nat>)
    requires SortedBy(t, Identity)
    ensures forall a, b :: 0 <= a < b < |t| ==> Reverse(t)[a] >= Reverse(t)[b]
  {
    forall a, b | 0 <= a < b < |t| ensures Reverse(t)[a] >= Reverse(t)[b] {
      assert Identity(t[|t| - 1 - b]) <= Identity(t[|t| - 1 - a]);
    }
  }

  /** What a prefix leaves behind is the suffix. */
  lemma PrefixRest(u: seq<nat>, m: nat)
    requires m <= |u|
    ensures multiset(u[..m]) <= multiset(u)
    ensures multiset(u) - multiset(u[..m]) == multiset(u[m..])
  {
    assert u == u[..m] + u[m..];
    assert multiset(u) == multiset(u[..m]) + multiset(u[m..]);
  }

  /** The three (or fewer) sizes taken are some of the sizes, largest first,
      and no size left behind is larger than any taken. */
  lemma LargestSpec(sizes: seq<nat>)
    ensures |Largest(sizes)| == if |sizes| < 3 then |sizes| else 3
    ensures multiset(Largest(sizes)) <= multiset(sizes)
    ensures forall a, b :: 0 <= a < b < |Largest(sizes)| ==> Largest(sizes)[a] >= Largest(sizes)[b]
    ensures forall v, k :: v in multiset(sizes) - multiset(Largest(sizes)) && 0 <= k < |Largest(sizes)| ==>
              v <= Largest(sizes)[k]
  {
    var t := SortBy(sizes, Identity);
    ReverseDescending(t);
    Top(sizes, Reverse(t), |Largest(sizes)|);
  }

  /** The first `m` of a descending arrangement `u` of `sizes`. */
  lemma Top(sizes: seq<nat>, u: seq<nat>, m: nat)
    requires m <= |u| && multiset(u) == multiset(sizes)
    requires forall a, b :: 0 <= a < b < |u| ==> u[a] >= u[b]
    ensures multiset(u[..m]) <= multiset(sizes)
    ensures forall v, k :: v in multiset(sizes) - multiset(u[..m]) && 0 <= k < m ==> v <= u[k]
  {
    PrefixRest(u, m);
    Behind(u, m);
  }

  /** In a descending sequence nothing after position `m` exceeds what comes before. */
  lemma Behind(u: seq<nat>, m: nat)
    requires m <= |u|
    requires forall a, b :: 0 <= a < b < |u| ==> u[a] >= u[b]
    ensures forall v, k :: v in multiset(u[m..]) && 0 <= k < m ==> v <= u[k]
  {
    forall v, k | v in multiset(u[m..]) && 0 <= k < m ensures v <= u[k] {
      assert v in u[m..];
      var p :| m <= p < |u| && u[p] == v;
    }
  }

  /** With positive sizes, part 1's product is positive. */
  lemma LargestPositive(sizes: seq<nat>)
    requires forall k :: 0 <= k < |sizes| ==> sizes[k] > 0
    ensures Product(Largest(sizes)) > 0
  {
    LargestSpec(sizes);
    var r := Largest(sizes);
    forall k | 0 <= k < |r| ensures r[k] > 0 {
      assert r[k] in multiset(sizes);
    }
    ProductPositive(r);
  }

  function JunctionOf(line: string): Option<Junction>
  {
    if Parse(line).Ok? then Some(Parse(line).value) else None
  }

  /** The connections sorted by distance list every connection once. */
  lemma SortedPairs(js: seq<Junction>)
    requires |js| >= 1
    ensures var cs := SortBy(Pairs(js, |js| - 1), Distance);
            AllPairs(js, cs) && Complete(js, cs)
  {
    ConnectionsSpec(js);
    var ps := Pairs(js, |js| - 1);
    var cs := SortBy(ps, Distance);
    forall q | 0 <= q < |cs| ensures IsPair(js, cs[q]) {
      assert cs[q] in multiset(ps);
    }
    forall c | IsPair(js, c) ensures c in cs {
      assert c in multiset(cs);
    }
  }

  datatype Outcome = Panics | Answer(p1: nat, p2: int)

  /** The loop's last state, over the connections sorted by distance. */
  function Final(js: seq<Junction>, pairs: nat): State
    requires |js| >= 1
  {
    SortedPairs(js);
    Play(js, SortBy(Pairs(js, |js| - 1), Distance), pairs, Initial(|js|), 0)
  }

  /** The whole puzzle: a line that does not parse panics, and so does an
      empty input (`size - 1` underflows). */
  function Solve(lines: seq<string>, pairs: nat): Outcome
  {
    match MapAll(lines, JunctionOf)
    case None => Panics
    case Some(js) =>
      if js == [] then Panics
      else Answer(Product(Largest(Final(js, pairs).p1)), Final(js, pairs).p2)
  }

  /** The puzzle panics exactly on a line that is not a junction or on no line at all. */
  lemma SolvePanics(lines: seq<string>, pairs: nat)
    ensures Solve(lines, pairs).Panics? <==>
              lines == [] || exists k :: 0 <= k < |lines| && Parse(lines[k]).Err?
  {
    MapAllSpec(lines, JunctionOf);
    if MapAll(lines, JunctionOf).None? {
      var k :| 0 <= k < |lines| && JunctionOf(lines[k]).None?;
      assert Parse(lines[k]).Err?;
    } else if lines != [] {
      assert forall k :: 0 <= k < |lines| ==> JunctionOf(lines[k]).Some?;
    }
  }

  /** Part 1 is positive and, with two boxes or more, the loop ends by
      joining the last two circuits, so `p2` is always set. */
  lemma FinalSpec(js: seq<Junction>, pairs: nat)
    requires |js| >= 1
    ensures Product(Largest(Final(js, pairs).p1)) > 0
    ensures |js| >= 2 ==> Final(js, pairs).status.Connected?
  {
    var cs := SortBy(Pairs(js, |js| - 1), Distance);
    SortedPairs(js);
    SingletonsPartition(|js|);
    PlayInv(js, cs, pairs, Initial(|js|), 0);
    LargestPositive(Final(js, pairs).p1);
    if |js| >= 2 {
      AlwaysConnected(js, cs, pairs);
    }
  }

  /** The loop state once connection `n` ran without joining everything. */
  lemma PlayStep(js: seq<Junction>, cs: seq<Connection>, pairs: nat, st: State, n: nat, next: State)
    requires AllPairs(js, cs) && n < |cs| && st.status.Running?
    requires next == Step(js, cs[n], n, pairs, st)
    ensures Play(js, cs, pairs, st, n) == Play(js, cs, pairs, next, n + 1)
  {
  }

  lemma FinalStart(js: seq<Junction>, pairs: nat, cs: seq<Connection>)
    requires |js| >= 1 && cs == SortBy(Pairs(js, |js| - 1), Distance) && AllPairs(js, cs)
    ensures Final(js, pairs) == Play(js, cs, pairs, Initial(|js|), 0)
  {
  }

  /** One connection on the circuits: find the first circuit holding either
      box, `swap_remove` a later one and `extend` the first with it, or report
      that a single circuit was left. */
  method ConnectBoxes(circuits: Circuits, size: nat, i: nat, j: nat) returns (next: Circuits, joined: bool)
    requires Partition(circuits, size) && i < size && j < size
    ensures joined <==> Connect(circuits, i, j).Joined?
    ensures Connect(circuits, i, j).Kept? ==> next == circuits
    ensures Connect(circuits, i, j).Merged? ==> next == Connect(circuits, i, j).circuits
  {
    ConnectSpec(circuits, size, i, j);
    var first := Find(circuits, i, j, 0).value;
    var second := Find(circuits, i, j, first + 1);
    next := circuits;
    joined := false;
    if second.Some? {
      var toMerge := circuits[second.value];
      next := SwapRemove(circuits, second.value);
      if |next| == 1 {
        joined := true;
        return;
      }
      next := next[first := next[first] + toMerge];
    }
  }

  /** The loop over the sorted connections, from singleton circuits: returns
      the snapshot `p1` and the answer `p2`. */
  method Merge(junctions: seq<Junction>, sorted: seq<Connection>, pairs: nat) returns (p1: seq<nat>, p2: int)
    requires |junctions| >= 1 && AllPairs(junctions, sorted)
    ensures p1 == Play(junctions, sorted, pairs, Initial(|junctions|), 0).p1
    ensures p2 == Play(junctions, sorted, pairs, Initial(|junctions|), 0).p2
  {
    var size := |junctions|;
    SingletonsPartition(size);
    var circuits := Singletons(size);
    p1, p2 := [], 0;
    var n := 0;
    while n < |sorted|
      invariant n <= |sorted|
      invariant Inv(State(circuits, p1, p2, Running), size)
      invariant Play(junctions, sorted, pairs, Initial(size), 0) == Play(junctions, sorted, pairs, State(circuits, p1, p2, Running), n)
      decreases |sorted| - n
    {
      var i, j := sorted[n].i, sorted[n].j;
      ghost var st := State(circuits, p1, p2, Running);
      StepInv(junctions, sorted[n], n, pairs, st);
      var joined;
      circuits, joined := ConnectBoxes(circuits, size, i, j);
      if joined {
        p2 := junctions[i].x * junctions[j].x;
        PlayStep(junctions, sorted, pairs, st, n, State(st.circuits, p1, p2, Connected));
        return;
      }
      if n + 1 == pairs {
        p1 := Sizes(circuits);
      }
      PlayStep(junctions, sorted, pairs, st, n, State(circuits, p1, p2, Running));
      n := n + 1;
    }
  }

  /** `resolve`: parse the boxes, list and sort the connections, merge the
      circuits, then multiply the three largest snapshot sizes. */
  method Resolve(lines: seq<string>, pairs: nat) returns (r: Outcome)
    ensures r == Solve(lines, pairs)
  {
    var parsed := MapAll(lines, JunctionOf);
    if parsed.None? {
      return Panics;
    }
    var junctions := parsed.value;
    if |junctions| == 0 {
      return Panics;
    }
    var connections := Connections(junctions);
    var sorted := SortBy(connections, Distance);
    SortedPairs(junctions);
    FinalStart(junctions, pairs, sorted);
    var p1, p2 := Merge(junctions, sorted, pairs);
    return Answer(Product(Largest(p1)), p2);
  }
}
