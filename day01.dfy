/** Day 1: a safe dial with positions 0..99, starting at 50. Each line is a
    rotation: a direction byte (`L` turns down, anything else up) followed by
    a number of clicks. Part 1 counts the rotations that leave the dial on 0;
    part 2 counts every single click that lands on 0, computed per rotation
    from the Euclidean quotient of the unwrapped position. */
module Day01 {
  import opened Common

  const DialSize: int := 100
  const StartDial: int := 50

  /** A rotation as the fold reads it: a direction byte, then decimal digits. */
  predicate Rotation(line: string)
  {
    |line| >= 1 && AllDigits(line[1..])
  }

  function Clicks(line: string): nat
    requires Rotation(line)
  {
    DecimalValue(line[1..])
  }

  /** The result of one step of the fold: the new dial and the two increments. */
  datatype Turned = Turned(dial: int, p1: int, p2: int)

  /** One step of the fold: `div_euclid`/`rem_euclid` of the unwrapped dial
      (Dafny's `/` and `%` by a positive constant are the Euclidean ones). */
  function Turn(dial: int, line: string): (t: Turned)
    requires Rotation(line)
  {
    var left := line[0] == 'L';
    var clicks := Clicks(line);
    var newDial := if left then dial - clicks else dial + clicks;
    var div := newDial / DialSize;
    var rem := newDial % DialSize;
    var p1 := if rem == 0 then 1 else 0;
    var abs := if div < 0 then -div else div;
    var p2 := abs + if left then (if rem == 0 then 1 else 0) - (if dial == 0 then 1 else 0) else 0;
    Turned(rem, p1, p2)
  }

  // ------------------------------------------------- the click-by-click dial

  /** One notch of the dial, wrapping between 99 and 0. */
  function Click(d: int, left: bool): int
  {
    if left then (if d == 0 then DialSize - 1 else d - 1)
    else (if d == DialSize - 1 then 0 else d + 1)
  }

  /** The dial after `k` single notches from `d`. */
  function Position(d: int, left: bool, k: nat): int
  {
    if k == 0 then d else Click(Position(d, left, k - 1), left)
  }

  /** How many of the first `n` notches from `d` stop on 0. */
  function Hits(d: int, left: bool, n: nat): nat
  {
    if n == 0 then 0 else Hits(d, left, n - 1) + (if Position(d, left, n) == 0 then 1 else 0)
  }

  /** Notching `k` times is one jump of `k` reduced modulo the dial size. */
  lemma {:induction false} PositionJump(d: int, left: bool, k: nat)
    requires 0 <= d < DialSize
    ensures Position(d, left, k) == (if left then d - k else d + k) % DialSize
  {
    if k > 0 {
      PositionJump(d, left, k - 1);
    }
  }

  /** Crossing one unit changes the Euclidean quotient by one exactly at a multiple of the dial size. */
  lemma FloorStep(x: int)
    ensures (x + 1) / DialSize == x / DialSize + (if (x + 1) % DialSize == 0 then 1 else 0)
  {
  }

  /** Part 2's closed form: for a dial in range the count of notches landing on 0
      is `|div|` turning up, and `|div| + [rem == 0] - [dial == 0]` turning down. */
  lemma {:induction false} HitsClosedForm(d: int, left: bool, n: nat)
    requires 0 <= d < DialSize
    ensures !left ==> Hits(d, left, n) == (d + n) / DialSize
    ensures left ==> Hits(d, left, n) == -((d - n) / DialSize) + (if (d - n) % DialSize == 0 then 1 else 0) - (if d == 0 then 1 else 0)
  {
    if n > 0 {
      HitsClosedForm(d, left, n - 1);
      PositionJump(d, left, n);
      if left {
        FloorStep(d - n);
      } else {
        FloorStep(d + n - 1);
      }
    }
  }

  /** One rotation: the new dial is where the notches end, it stays on the dial,
      part 1 flags a stop on 0 and part 2 is the number of notches that land on 0. */
  lemma TurnCounts(dial: int, line: string)
    requires 0 <= dial < DialSize && Rotation(line)
    ensures Turn(dial, line).dial == Position(dial, line[0] == 'L', Clicks(line))
    ensures 0 <= Turn(dial, line).dial < DialSize
    ensures Turn(dial, line).p1 == if Turn(dial, line).dial == 0 then 1 else 0
    ensures Turn(dial, line).p2 == Hits(dial, line[0] == 'L', Clicks(line))
  {
    var left := line[0] == 'L';
    PositionJump(dial, left, Clicks(line));
    HitsClosedForm(dial, left, Clicks(line));
  }

  // ------------------------------------------------------------- resolve

  datatype State = State(dial: int, p1: int, p2: int)

  /** The fold of `resolve` over the first lines, from `(50, 0, 0)`. */
  function Run(lines: seq<string>): State
    requires forall k :: 0 <= k < |lines| ==> Rotation(lines[k])
  {
    if lines == [] then State(StartDial, 0, 0)
    else
      var s := Run(lines[..|lines| - 1]);
      var t := Turn(s.dial, lines[|lines| - 1]);
      State(t.dial, s.p1 + t.p1, s.p2 + t.p2)
  }

  /** Part 1 by the definition: the rotations after which the dial reads 0. */
  function StopsOnZero(lines: seq<string>): nat
    requires forall k :: 0 <= k < |lines| ==> Rotation(lines[k])
  {
    if lines == [] then 0
    else StopsOnZero(lines[..|lines| - 1]) + (if Run(lines).dial == 0 then 1 else 0)
  }

  /** Part 2 by the definition: every notch of every rotation that lands on 0. */
  function NotchesOnZero(lines: seq<string>): nat
    requires forall k :: 0 <= k < |lines| ==> Rotation(lines[k])
  {
    if lines == [] then 0
    else
      var last := lines[|lines| - 1];
      assert Rotation(last);
      NotchesOnZero(lines[..|lines| - 1]) + Hits(Run(lines[..|lines| - 1]).dial, last[0] == 'L', Clicks(last))
  }

  /** `resolve`: the dial stays on the dial, part 1 counts the stops on 0 and
      part 2 the notches that land on 0. */
  lemma {:induction false} RunCounts(lines: seq<string>)
    requires forall k :: 0 <= k < |lines| ==> Rotation(lines[k])
    ensures 0 <= Run(lines).dial < DialSize
    ensures Run(lines).p1 == StopsOnZero(lines)
    ensures Run(lines).p2 == NotchesOnZero(lines)
    decreases |lines|
  {
    if lines != [] {
      var init := lines[..|lines| - 1];
      RunCounts(init);
      TurnCounts(Run(init).dial, lines[|lines| - 1]);
    }
  }

  /** `resolve`: the pair of totals. */
  function Resolve(lines: seq<string>): (r: (int, int))
    requires forall k :: 0 <= k < |lines| ==> Rotation(lines[k])
    ensures r.0 == StopsOnZero(lines) && r.1 == NotchesOnZero(lines)
  {
    RunCounts(lines);
    (Run(lines).p1, Run(lines).p2)
  }
}
