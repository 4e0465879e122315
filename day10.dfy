/** Day 10: machines whose lights are toggled by buttons.

    A button flips a fixed set of lights (at most 32, one bit each of a `u32`).
    Part 1 asks for the fewest presses, each button at most once, that turn the
    all-off panel into a target pattern; part 2 asks for presses, now repeatable,
    that toggle each light an exact number of times ("joules"). Part 2 is solved
    bit-plane by bit-plane: a candidate set of buttons matching the parity of
    the counts is pressed once, the rest is halved, and the answer is the least
    `presses + 2 * (cost of the halved counts)` over the candidates. */
module Day10 {
  import opened Common
  import opened Bits

  // ============================================================= buttons

  /** A button: the mask of the lights it toggles, and those lights in input order. */
  datatype Button = Button(mask: nat, leds: seq<nat>)

  /** The lights listed inside a button token: every digit, in order (commas skipped). */
  function Digits(s: string): (r: seq<nat>)
    ensures forall k :: 0 <= k < |r| ==> r[k] < 10
  {
    if s == [] then []
    else Digits(s[..|s| - 1]) + (if IsDigit(s[|s| - 1]) then [DigitValue(s[|s| - 1])] else [])
  }

  /** The OR of `1 << d` over the listed lights. */
  function MaskOf(leds: seq<nat>): nat
  {
    if leds == [] then 0 else Or(MaskOf(leds[..|leds| - 1]), Pow2(leds[|leds| - 1]))
  }

  /** A mask has exactly the bits of the lights it was built from. */
  lemma {:induction false} MaskOfBits(leds: seq<nat>, i: nat)
    ensures Bit(MaskOf(leds), i) <==> i in leds
    decreases |leds|
  {
    if leds == [] {
      ZeroBit(i);
    } else {
      var init := leds[..|leds| - 1];
      MaskOfBits(init, i);
      OrBit(MaskOf(init), Pow2(leds[|leds| - 1]), i);
      Pow2Bit(leds[|leds| - 1], i);
      assert leds == init + [leds[|leds| - 1]];
    }
  }

  predicate ValidInner(s: string)
  {
    forall k :: 0 <= k < |s| ==> s[k] == ',' || IsDigit(s[k])
  }

  /** The button whose lights are listed (between the parentheses) in `inner`. */
  function LightsButton(inner: string): Result<Button>
  {
    if ValidInner(inner) then
      var leds := Digits(inner);
      Ok(Button(MaskOf(leds), leds))
    else Err
  }

  /** The button a token denotes, or the parse error. */
  function ButtonOf(s: string): Result<Button>
  {
    if |s| >= 2 && s[0] == '(' && s[|s| - 1] == ')' then LightsButton(s[1..|s| - 1]) else Err
  }

  lemma DigitsSnoc(s: string, c: char)
    ensures Digits(s + [c]) == Digits(s) + (if IsDigit(c) then [DigitValue(c)] else [])
  {
    assert (s + [c])[..|s|] == s;
  }

  lemma MaskOfSnoc(leds: seq<nat>, d: nat)
    ensures MaskOf(leds + [d]) == Or(MaskOf(leds), Pow2(d))
  {
    assert (leds + [d])[..|leds|] == leds;
  }

  /** The loop of `Button::from_str` over the bytes between the parentheses: a comma
      is skipped, a digit is pushed as a light and its bit OR-ed into the mask, and
      any other byte is a parse error. */
  method ScanLights(inner: string) returns (r: Result<Button>)
    ensures r.Ok? <==> ValidInner(inner)
    ensures r.Ok? ==> r.value.leds == Digits(inner) && r.value.mask == MaskOf(r.value.leds)
  {
    var leds: seq<nat> := [];
    var mask: nat := 0;
    var k := 0;
    assert inner[..0] == [];
    while k < |inner|
      invariant 0 <= k <= |inner|
      invariant ValidInner(inner[..k])
      invariant leds == Digits(inner[..k]) && mask == MaskOf(leds)
    {
      var c := inner[k];
      ValidInnerSnoc(inner, k);
      if c == ',' {
        DigitsSnoc(inner[..k], c);
      } else if IsDigit(c) {
        var index := DigitValue(c);
        DigitsSnoc(inner[..k], c);
        MaskOfSnoc(leds, index);
        leds := leds + [index];
        mask := Or(mask, Pow2(index));
      } else {
        return Err;
      }
      k := k + 1;
    }
    assert inner[..k] == inner;
    return Ok(Button(mask, leds));
  }

  /** One more byte of the scan: the prefix stays valid exactly when the byte is a comma or a digit. */
  lemma ValidInnerSnoc(inner: string, k: nat)
    requires k < |inner| && ValidInner(inner[..k])
    ensures inner[..k + 1] == inner[..k] + [inner[k]]
    ensures ValidInner(inner[..k + 1]) <==> inner[k] == ',' || IsDigit(inner[k])
    ensures !(inner[k] == ',' || IsDigit(inner[k])) ==> !ValidInner(inner)
  {
    assert inner[..k + 1] == inner[..k] + [inner[k]];
    assert inner[..k + 1][k] == inner[k];
  }

  /** `Button::from_str`: the token must open with `(` and close with `)`. */
  method ParseButton(s: string) returns (r: Result<Button>)
    requires |s| > 0
    ensures r == ButtonOf(s)
  {
    if s[0] != '(' || s[|s| - 1] != ')' {
      return Err;
    }
    r := ScanLights(s[1..|s| - 1]);
  }

  lemma ExampleDigits()
    ensures Digits("1,2,3,5") == [1, 2, 3, 5]
  {
    DigitsSnoc("", '1');
    assert "" + ['1'] == "1";
    DigitsSnoc("1", ',');
    assert "1" + [','] == "1,";
    DigitsSnoc("1,", '2');
    assert "1," + ['2'] == "1,2";
    DigitsSnoc("1,2", ',');
    assert "1,2" + [','] == "1,2,";
    DigitsSnoc("1,2,", '3');
    assert "1,2," + ['3'] == "1,2,3";
    DigitsSnoc("1,2,3", ',');
    assert "1,2,3" + [','] == "1,2,3,";
    DigitsSnoc("1,2,3,", '5');
    assert "1,2,3," + ['5'] == "1,2,3,5";
  }

  /** OR-ing in a bit that is not yet set adds its value. */
  lemma {:induction false} OrNewBit(a: nat, d: nat)
    requires !Bit(a, d)
    ensures Or(a, Pow2(d)) == a + Pow2(d)
  {
    if a != 0 && d > 0 {
      OrNewBit(a / 2, d - 1);
    }
  }

  lemma ExampleMask()
    ensures MaskOf([1, 2, 3, 5]) == 0x2E
  {
    MaskOfSnoc([], 1);
    assert [] + [1] == [1];
    MaskOfSnoc([1], 2);
    assert [1] + [2] == [1, 2];
    OrNewBit(2, 2);
    MaskOfSnoc([1, 2], 3);
    assert [1, 2] + [3] == [1, 2, 3];
    OrNewBit(6, 3);
    MaskOfSnoc([1, 2, 3], 5);
    assert [1, 2, 3] + [5] == [1, 2, 3, 5];
    OrNewBit(14, 5);
  }

  /** The unit test of `Button::from_str`. */
  lemma ButtonExamples()
    ensures ButtonOf("(1,2,3,5)") == Ok(Button(0x2E, [1, 2, 3, 5]))
    ensures ButtonOf("(1,2,a,5)") == Err
  {
    assert "(1,2,3,5)"[1..8] == "1,2,3,5";
    assert ValidInner("1,2,3,5");
    ExampleDigits();
    ExampleMask();
    assert "(1,2,a,5)"[1..8] == "1,2,a,5";
    assert "1,2,a,5"[4] == 'a';
  }

  // ======================================================== combinations

  /** Indices of the buttons pressed once each, most recently chosen last. */
  type Combination = seq<nat>

  predicate InRange(buttons: seq<Button>, index: nat, c: Combination)
  {
    forall k :: 0 <= k < |c| ==> index <= c[k] < |buttons|
  }

  predicate StrictlyDecreasing(c: Combination)
  {
    forall a, b :: 0 <= a < b < |c| ==> c[a] > c[b]
  }

  /** The first pressed button, `0` for none. */
  function Head(c: Combination): nat
  {
    if c == [] then 0 else c[0]
  }

  /** A set of distinct buttons from `buttons[index..]`, listed from the highest index down. */
  predicate IsCombination(buttons: seq<Button>, index: nat, c: Combination)
  {
    InRange(buttons, index, c) && StrictlyDecreasing(c)
  }

  /** The combined toggle of the buttons of `c`. */
  function XorOf(buttons: seq<Button>, c: Combination): nat
    requires InRange(buttons, 0, c)
  {
    if c == [] then 0 else Xor(XorOf(buttons, c[..|c| - 1]), buttons[c[|c| - 1]].mask)
  }

  /** `combi.push(index)` for every combination of `cs`. */
  function PushAll(cs: seq<Combination>, index: nat): (r: seq<Combination>)
    ensures |r| == |cs| && forall k :: 0 <= k < |cs| ==> r[k] == cs[k] + [index]
  {
    if cs == [] then [] else PushAll(cs[..|cs| - 1], index) + [cs[|cs| - 1] + [index]]
  }

  /** `find_combinations`: the subsets of `buttons[index..]` whose toggles take the
      lights from `leds` to `objective` (`FindCombinationsSpec`). The subsets that
      skip button `index` come first, and `None` stands for the empty answer. */
  function FindCombinations(buttons: seq<Button>, index: nat, leds: nat, objective: nat): (r: Option<seq<Combination>>)
    requires index <= |buttons|
    ensures r != Some([])
    decreases |buttons| - index
  {
    if index < |buttons| then
      var skip := FindCombinations(buttons, index + 1, leds, objective);
      var ret := if skip.Some? then skip.value else [];
      var pressed := FindCombinations(buttons, index + 1, Xor(leds, buttons[index].mask), objective);
      var all := if pressed.Some? then ret + PushAll(pressed.value, index) else ret;
      if all == [] then None else Some(all)
    else if leds == objective then Some([[]])
    else None
  }

  /** The lights `find_combinations` recurses on after pressing button `index`,
      written there with `&`, `!` and `|`, are `leds ^ mask`: the pressed branch
      of `FindCombinations` is the source's. */
  lemma ToggledLights(buttons: seq<Button>, index: nat, leds: nat, objective: nat)
    requires index < |buttons| && leds <= MaxU32 && buttons[index].mask <= MaxU32
    ensures var mask := buttons[index].mask;
      FindCombinations(buttons, index + 1, Or(And(leds, Not(mask)), Xor(And(leds, mask), mask)), objective)
      == FindCombinations(buttons, index + 1, Xor(leds, mask), objective)
  {
    ToggleIsXor(leds, buttons[index].mask);
  }

  lemma XorOfSnoc(buttons: seq<Button>, d: Combination, i: nat)
    requires InRange(buttons, 0, d) && i < |buttons|
    ensures InRange(buttons, 0, d + [i])
    ensures XorOf(buttons, d + [i]) == Xor(XorOf(buttons, d), buttons[i].mask)
  {
    assert (d + [i])[..|d|] == d;
  }

  /** Pressing button `index` on top of a subset of the later buttons. */
  lemma PushCombination(buttons: seq<Button>, index: nat, leds: nat, objective: nat, d: Combination)
    requires index < |buttons|
    requires IsCombination(buttons, index + 1, d) && Xor(Xor(leds, buttons[index].mask), XorOf(buttons, d)) == objective
    ensures IsCombination(buttons, index, d + [index]) && Xor(leds, XorOf(buttons, d + [index])) == objective
  {
    XorOfSnoc(buttons, d, index);
    var mask := buttons[index].mask;
    XorSwap(leds, XorOf(buttons, d), mask);
  }

  /** A listed subset that the skipping branch did not produce comes from the pressing branch. */
  lemma FromPressed(buttons: seq<Button>, index: nat, leds: nat, objective: nat, c: Combination)
    requires index < |buttons|
    requires FindCombinations(buttons, index, leds, objective).Some?
    requires c in FindCombinations(buttons, index, leds, objective).value
    requires var skip := FindCombinations(buttons, index + 1, leds, objective); skip.None? || c !in skip.value
    ensures var p := FindCombinations(buttons, index + 1, Xor(leds, buttons[index].mask), objective);
      p.Some? && exists k :: 0 <= k < |p.value| && c == p.value[k] + [index]
  {
  }

  /** Every listed subset is a subset of `buttons[index..]` and reaches the objective. */
  lemma {:induction false} FindCombinationsSound(buttons: seq<Button>, index: nat, leds: nat, objective: nat, c: Combination)
    requires index <= |buttons|
    requires FindCombinations(buttons, index, leds, objective).Some?
    requires c in FindCombinations(buttons, index, leds, objective).value
    ensures IsCombination(buttons, index, c) && Xor(leds, XorOf(buttons, c)) == objective
    decreases |buttons| - index
  {
    if index < |buttons| {
      var skip := FindCombinations(buttons, index + 1, leds, objective);
      if skip.Some? && c in skip.value {
        FindCombinationsSound(buttons, index + 1, leds, objective, c);
      } else {
        var mask := buttons[index].mask;
        FromPressed(buttons, index, leds, objective, c);
        var pressed := FindCombinations(buttons, index + 1, Xor(leds, mask), objective);
        var k :| 0 <= k < |pressed.value| && c == pressed.value[k] + [index];
        FindCombinationsSound(buttons, index + 1, Xor(leds, mask), objective, pressed.value[k]);
        PushCombination(buttons, index, leds, objective, pressed.value[k]);
      }
    }
  }

  /** A subset listed for the later buttons is listed again when button `index` is skipped. */
  lemma ListedSkipping(buttons: seq<Button>, index: nat, leds: nat, objective: nat, c: Combination)
    requires index < |buttons|
    requires FindCombinations(buttons, index + 1, leds, objective).Some?
    requires c in FindCombinations(buttons, index + 1, leds, objective).value
    ensures FindCombinations(buttons, index, leds, objective).Some?
    ensures c in FindCombinations(buttons, index, leds, objective).value
  {
  }

  /** A subset listed for the later buttons after pressing button `index` is listed
      with `index` appended. */
  lemma ListedPressing(buttons: seq<Button>, index: nat, leds: nat, objective: nat, d: Combination)
    requires index < |buttons|
    requires FindCombinations(buttons, index + 1, Xor(leds, buttons[index].mask), objective).Some?
    requires d in FindCombinations(buttons, index + 1, Xor(leds, buttons[index].mask), objective).value
    ensures FindCombinations(buttons, index, leds, objective).Some?
    ensures d + [index] in FindCombinations(buttons, index, leds, objective).value
  {
    var pressed := FindCombinations(buttons, index + 1, Xor(leds, buttons[index].mask), objective).value;
    var k :| 0 <= k < |pressed| && pressed[k] == d;
    assert PushAll(pressed, index)[k] == d + [index];
  }

  /** Every subset of `buttons[index..]` that reaches the objective is listed. */
  lemma {:induction false} FindCombinationsComplete(buttons: seq<Button>, index: nat, leds: nat, objective: nat, c: Combination)
    requires index <= |buttons|
    requires IsCombination(buttons, index, c) && Xor(leds, XorOf(buttons, c)) == objective
    ensures FindCombinations(buttons, index, leds, objective).Some?
    ensures c in FindCombinations(buttons, index, leds, objective).value
    decreases |buttons| - index
  {
    if index == |buttons| {
      assert c == [] || index <= Head(c) < |buttons|;
    } else if c != [] && c[|c| - 1] == index {
      var mask := buttons[index].mask;
      var d := c[..|c| - 1];
      assert c == d + [index];
      assert IsCombination(buttons, index + 1, d) by {
        forall k | 0 <= k < |d| ensures index + 1 <= d[k] {
          assert c[k] > c[|c| - 1];
        }
      }
      XorOfSnoc(buttons, d, index);
      XorSwap(leds, XorOf(buttons, d), mask);
      FindCombinationsComplete(buttons, index + 1, Xor(leds, mask), objective, d);
      ListedPressing(buttons, index, leds, objective, d);
    } else {
      assert IsCombination(buttons, index + 1, c) by {
        forall k | 0 <= k < |c| ensures index + 1 <= c[k] {
          if k < |c| - 1 {
            assert c[k] > c[|c| - 1];
          }
        }
      }
      FindCombinationsComplete(buttons, index + 1, leds, objective, c);
      ListedSkipping(buttons, index, leds, objective, c);
    }
  }

  /** What `find_combinations` computes: exactly the subsets of `buttons[index..]`
      (each listed as a strictly decreasing sequence of indices) whose toggles take
      `leds` to `objective`, and `None` exactly when there is none. */
  lemma FindCombinationsSpec(buttons: seq<Button>, index: nat, leds: nat, objective: nat)
    requires index <= |buttons|
    ensures var r := FindCombinations(buttons, index, leds, objective);
      (r.None? <==> forall c :: !(IsCombination(buttons, index, c) && Xor(leds, XorOf(buttons, c)) == objective))
      && (r.Some? ==> forall c :: c in r.value <==> IsCombination(buttons, index, c) && Xor(leds, XorOf(buttons, c)) == objective)
  {
    var r := FindCombinations(buttons, index, leds, objective);
    forall c | IsCombination(buttons, index, c) && Xor(leds, XorOf(buttons, c)) == objective
      ensures r.Some? && c in r.value
    {
      FindCombinationsComplete(buttons, index, leds, objective, c);
    }
    if r.Some? {
      forall c | c in r.value
        ensures IsCombination(buttons, index, c) && Xor(leds, XorOf(buttons, c)) == objective
      {
        FindCombinationsSound(buttons, index, leds, objective, c);
      }
      assert r.value[0] in r.value;
    }
  }

  predicate DistinctCombinations(cs: seq<Combination>)
  {
    forall a, b :: 0 <= a < b < |cs| ==> cs[a] != cs[b]
  }

  lemma PushAllDistinct(cs: seq<Combination>, index: nat)
    requires DistinctCombinations(cs)
    ensures DistinctCombinations(PushAll(cs, index))
  {
    var r := PushAll(cs, index);
    forall a, b | 0 <= a < b < |r| ensures r[a] != r[b] {
      assert r[a][..|cs[a]|] == cs[a] && r[b][..|cs[b]|] == cs[b];
    }
  }

  lemma AppendDistinct(xs: seq<Combination>, ys: seq<Combination>)
    requires DistinctCombinations(xs) && DistinctCombinations(ys)
    requires forall x, y :: x in xs && y in ys ==> x != y
    ensures DistinctCombinations(xs + ys)
  {
    var r := xs + ys;
    forall a, b | 0 <= a < b < |r| ensures r[a] != r[b] {
      if b < |xs| {
        assert r[a] == xs[a] && r[b] == xs[b];
      } else if a < |xs| {
        assert r[a] in xs && r[b] in ys;
      } else {
        assert r[a] == ys[a - |xs|] && r[b] == ys[b - |xs|];
      }
    }
  }

  /** A subset that skips button `index` differs from every subset that presses it. */
  lemma SkipDiffersFromPushed(buttons: seq<Button>, index: nat, x: Combination, y: Combination)
    requires IsCombination(buttons, index + 1, x)
    requires y != [] && y[|y| - 1] == index
    ensures x != y
  {
    assert x != [] ==> index + 1 <= x[|x| - 1];
  }

  /** The subsets that skip button `index` and those that press it are different. */
  lemma SkippedNotPushed(buttons: seq<Button>, index: nat, leds: nat, objective: nat, ret: seq<Combination>, pushed: seq<Combination>)
    requires index < |buttons|
    requires forall x :: x in ret ==> IsCombination(buttons, index + 1, x)
    requires forall k :: 0 <= k < |pushed| ==> pushed[k] != [] && pushed[k][|pushed[k]| - 1] == index
    ensures forall x, y :: x in ret && y in pushed ==> x != y
  {
    forall x, y | x in ret && y in pushed ensures x != y {
      var k :| 0 <= k < |pushed| && pushed[k] == y;
      SkipDiffersFromPushed(buttons, index, x, y);
    }
  }

  /** One level of the search: if both recursive searches list no subset twice,
      neither does their union. */
  lemma DistinctStep(buttons: seq<Button>, index: nat, leds: nat, objective: nat)
    requires index < |buttons|
    requires var skip := FindCombinations(buttons, index + 1, leds, objective);
      skip.Some? ==> DistinctCombinations(skip.value)
    requires var pressed := FindCombinations(buttons, index + 1, Xor(leds, buttons[index].mask), objective);
      pressed.Some? ==> DistinctCombinations(pressed.value)
    ensures var r := FindCombinations(buttons, index, leds, objective);
      r.Some? ==> DistinctCombinations(r.value)
  {
    var r := FindCombinations(buttons, index, leds, objective);
    if r.Some? {
      var skip := FindCombinations(buttons, index + 1, leds, objective);
      var ret := if skip.Some? then skip.value else [];
      var pressed := FindCombinations(buttons, index + 1, Xor(leds, buttons[index].mask), objective);
      var pushed := if pressed.Some? then PushAll(pressed.value, index) else [];
      if pressed.Some? {
        PushAllDistinct(pressed.value, index);
      }
      forall x | x in ret ensures IsCombination(buttons, index + 1, x) {
        FindCombinationsSound(buttons, index + 1, leds, objective, x);
      }
      SkippedNotPushed(buttons, index, leds, objective, ret, pushed);
      AppendDistinct(ret, pushed);
      assert r.value == ret + pushed;
    }
  }

  /** No subset is listed twice. */
  lemma {:induction false} FindCombinationsDistinct(buttons: seq<Button>, index: nat, leds: nat, objective: nat)
    requires index <= |buttons|
    ensures var r := FindCombinations(buttons, index, leds, objective);
      r.Some? ==> DistinctCombinations(r.value)
    decreases |buttons| - index
  {
    if index < |buttons| {
      FindCombinationsDistinct(buttons, index + 1, leds, objective);
      FindCombinationsDistinct(buttons, index + 1, Xor(leds, buttons[index].mask), objective);
      DistinctStep(buttons, index, leds, objective);
    }
  }

  /** The six buttons of the unit tests of `find_combinations` and `find_joules`:
      `(3)`, `(1,3)`, `(2)`, `(2,3)`, `(0,2)` and `(0,1)`. */
  function ExampleButtons(): seq<Button>
  {
    [Button(8, [3]), Button(10, [1, 3]), Button(4, [2]), Button(12, [2, 3]), Button(5, [0, 2]), Button(3, [0, 1])]
  }

  /** The unit test of `find_combinations` (pattern `0b110`): buttons 5 and 4 are listed. */
  lemma CombinationsExample1()
    ensures FindCombinations(ExampleButtons(), 0, 0, 6).Some?
    ensures [5, 4] in FindCombinations(ExampleButtons(), 0, 0, 6).value
  {
    var b := ExampleButtons();
    assert XorOf(b, [5]) == 3;
    assert XorOf(b, [5, 4]) == 6;
    assert Xor(0, 6) == 6;
    FindCombinationsComplete(b, 0, 0, 6, [5, 4]);
  }

  /** Buttons 3 and 1 are listed. */
  lemma CombinationsExample2()
    ensures FindCombinations(ExampleButtons(), 0, 0, 6).Some?
    ensures [3, 1] in FindCombinations(ExampleButtons(), 0, 0, 6).value
  {
    var b := ExampleButtons();
    assert XorOf(b, [3]) == 12;
    assert XorOf(b, [3, 1]) == 6;
    assert Xor(0, 6) == 6;
    FindCombinationsComplete(b, 0, 0, 6, [3, 1]);
  }

  /** Buttons 5, 4, 3, 2 and 0 toggle `0b110`. */
  lemma ExampleFiveToggles()
    ensures InRange(ExampleButtons(), 0, [5, 4, 3, 2, 0])
    ensures XorOf(ExampleButtons(), [5, 4, 3, 2, 0]) == 6
  {
    var b := ExampleButtons();
    assert XorOf(b, [5]) == 3;
    assert XorOf(b, [5, 4]) == 6;
    assert XorOf(b, [5, 4, 3]) == 10;
    assert [5, 4, 3, 2][..3] == [5, 4, 3];
    assert Xor(10, 4) == 14;
    assert XorOf(b, [5, 4, 3, 2]) == 14;
    assert [5, 4, 3, 2, 0][..4] == [5, 4, 3, 2];
    assert Xor(14, 8) == 6;
  }

  /** Buttons 5, 4, 3, 2 and 0 are listed. */
  lemma CombinationsExample3()
    ensures FindCombinations(ExampleButtons(), 0, 0, 6).Some?
    ensures [5, 4, 3, 2, 0] in FindCombinations(ExampleButtons(), 0, 0, 6).value
  {
    ExampleFiveToggles();
    assert Xor(0, 6) == 6;
    FindCombinationsComplete(ExampleButtons(), 0, 0, 6, [5, 4, 3, 2, 0]);
  }

  /** Buttons 2, 1 and 0 are listed. */
  lemma CombinationsExample4()
    ensures FindCombinations(ExampleButtons(), 0, 0, 6).Some?
    ensures [2, 1, 0] in FindCombinations(ExampleButtons(), 0, 0, 6).value
  {
    var b := ExampleButtons();
    assert XorOf(b, [2]) == 4;
    assert XorOf(b, [2, 1]) == 14;
    assert XorOf(b, [2, 1, 0]) == 6;
    assert Xor(0, 6) == 6;
    FindCombinationsComplete(b, 0, 0, 6, [2, 1, 0]);
  }

  // =============================================================== cache

  /** The memo of `find_combinations_cached`, keyed by objective. */
  type Cache = map<nat, Option<seq<Combination>>>

  /** Every entry holds the uncached answer for its key. */
  ghost predicate CacheCoherent(buttons: seq<Button>, cache: Cache)
  {
    forall k :: k in cache ==> cache[k] == FindCombinations(buttons, 0, 0, k)
  }

  /** `find_combinations_cached`: a hit returns the stored answer and leaves the memo
      as it is; a miss computes the answer and stores it under `objective`. */
  method FindCombinationsCached(buttons: seq<Button>, objective: nat, cache: Cache) returns (r: Option<seq<Combination>>, cache': Cache)
    ensures objective in cache ==> r == cache[objective] && cache' == cache
    ensures objective !in cache ==> r == FindCombinations(buttons, 0, 0, objective) && cache' == cache[objective := r]
    ensures CacheCoherent(buttons, cache) ==> r == FindCombinations(buttons, 0, 0, objective) && CacheCoherent(buttons, cache')
  {
    if objective in cache {
      r := cache[objective];
      cache' := cache;
    } else {
      r := FindCombinations(buttons, 0, 0, objective);
      cache' := cache[objective := r];
    }
  }

  // ============================================================== joules

  /** No light is listed twice. */
  predicate NoDuplicates(s: seq<nat>)
  {
    forall a, b :: 0 <= a < b < |s| ==> s[a] != s[b]
  }

  /** What `find_joules` needs of a button: its mask is that of its lights, each
      light is listed once (else the parity assertion fails) and every light has a
      count (else `j[led]` is out of bounds). */
  predicate ValidButton(b: Button, n: nat)
  {
    b.mask == MaskOf(b.leds) && NoDuplicates(b.leds) && forall k :: 0 <= k < |b.leds| ==> b.leds[k] < n
  }

  /** Button `b` is valid (stated on its index, so that a proof asks for it by name). */
  predicate ValidAt(buttons: seq<Button>, b: nat, n: nat)
  {
    b < |buttons| && ValidButton(buttons[b], n)
  }

  predicate ValidButtons(buttons: seq<Button>, n: nat)
  {
    forall b: nat :: b < |buttons| ==> ValidAt(buttons, b, n)
  }

  predicate AllZero(j: seq<nat>)
  {
    forall i :: 0 <= i < |j| ==> j[i] == 0
  }

  /** The parity mask of the counts, `joules.iter().rev().fold(0, |acc, j| 2 * acc + j % 2)`. */
  function ParityMask(j: seq<nat>): nat
  {
    if j == [] then 0 else 2 * ParityMask(j[1..]) + j[0] % 2
  }

  /** Bit `i` of the parity mask is set exactly when count `i` is odd. */
  lemma {:induction false} ParityMaskBits(j: seq<nat>, i: nat)
    ensures Bit(ParityMask(j), i) <==> i < |j| && j[i] % 2 == 1
    decreases |j|
  {
    if j == [] {
      ZeroBit(i);
    } else {
      DoubleBit(ParityMask(j[1..]), j[0] % 2, i);
      if i > 0 {
        ParityMaskBits(j[1..], i - 1);
      }
    }
  }

  /** With at most 32 counts the parity mask fits in a `u32`. */
  lemma {:induction false} ParityMaskBound(j: seq<nat>)
    ensures ParityMask(j) < Pow2(|j|)
    decreases |j|
  {
    if j != [] {
      ParityMaskBound(j[1..]);
    }
  }

  /** The lights decremented by pressing the buttons of `c` once each, in order. */
  function Pressed(buttons: seq<Button>, c: Combination): seq<nat>
    requires InRange(buttons, 0, c)
  {
    if c == [] then [] else Pressed(buttons, c[..|c| - 1]) + buttons[c[|c| - 1]].leds
  }

  lemma {:induction false} PressedBound(buttons: seq<Button>, c: Combination, n: nat)
    requires ValidButtons(buttons, n) && InRange(buttons, 0, c)
    ensures forall k :: 0 <= k < |Pressed(buttons, c)| ==> Pressed(buttons, c)[k] < n
    decreases |c|
  {
    if c != [] {
      PressedBound(buttons, c[..|c| - 1], n);
      assert ValidAt(buttons, c[|c| - 1], n);
    }
  }

  /** The decrement loop of `find_joules`: each listed light takes one from its
      count, and the candidate is dropped (`None`) when a count is already zero. */
  function Subtract(j: seq<nat>, lights: seq<nat>): (r: Option<seq<nat>>)
    ensures r.Some? ==> |r.value| == |j|
  {
    if lights == [] then Some(j)
    else match Subtract(j, lights[..|lights| - 1])
      case None => None
      case Some(rest) =>
        var led := lights[|lights| - 1];
        if led < |rest| && rest[led] > 0 then Some(rest[led := rest[led] - 1]) else None
  }

  /** One more decrement, as the loop of `find_joules` performs it. */
  lemma SubtractSnoc(j: seq<nat>, lights: seq<nat>, led: nat)
    ensures Subtract(j, lights + [led])
            == match Subtract(j, lights)
               case None => None
               case Some(rest) => if led < |rest| && rest[led] > 0 then Some(rest[led := rest[led] - 1]) else None
  {
    assert (lights + [led])[..|lights|] == lights;
  }

  /** Once a count would go below zero the candidate stays dropped, whatever follows. */
  lemma {:induction false} SubtractNoneAppend(j: seq<nat>, a: seq<nat>, b: seq<nat>)
    requires Subtract(j, a).None?
    ensures Subtract(j, a + b).None?
    decreases |b|
  {
    if b == [] {
      assert a + b == a;
    } else {
      var init := b[..|b| - 1];
      SubtractNoneAppend(j, a, init);
      assert a + b == (a + init) + [b[|b| - 1]];
      SubtractSnoc(j, a + init, b[|b| - 1]);
    }
  }

  /** The decrements succeed exactly when no light is listed more often than its
      count, and then each count has lost the number of times its light is listed:
      the order of the decrements does not matter. */
  lemma {:induction false} SubtractSpec(j: seq<nat>, lights: seq<nat>)
    requires forall k :: 0 <= k < |lights| ==> lights[k] < |j|
    ensures Subtract(j, lights).Some? <==> forall i :: 0 <= i < |j| ==> multiset(lights)[i] <= j[i]
    ensures Subtract(j, lights).Some? ==>
              forall i :: 0 <= i < |j| ==> Subtract(j, lights).value[i] == j[i] - multiset(lights)[i]
    decreases |lights|
  {
    if lights != [] {
      var init: seq<nat> := lights[..|lights| - 1];
      var led := lights[|lights| - 1];
      assert lights == init + [led];
      assert multiset(lights) == multiset(init) + multiset{led};
      SubtractSpec(j, init);
      if Subtract(j, init).None? {
        var i: nat :| i < |j| && multiset(init)[i] > j[i];
        assert multiset(lights)[i] > j[i];
      } else if Subtract(j, init).value[led] == 0 {
        assert multiset(lights)[led] > j[led];
      }
    }
  }

  /** Halving every count (the source asserts each is even first). */
  function Halve(j: seq<nat>): (r: seq<nat>)
    ensures |r| == |j| && forall i :: 0 <= i < |j| ==> 2 * r[i] <= j[i] < 2 * r[i] + 2
  {
    if j == [] then [] else Halve(j[..|j| - 1]) + [j[|j| - 1] / 2]
  }

  /** A light listed once counts once. */
  lemma {:induction false} NoDuplicatesCount(s: seq<nat>, x: nat)
    requires NoDuplicates(s)
    ensures multiset(s)[x] == if x in s then 1 else 0
    decreases |s|
  {
    if s != [] {
      var init := s[..|s| - 1];
      assert s == init + [s[|s| - 1]];
      NoDuplicatesCount(init, x);
    }
  }

  lemma PressedCount(buttons: seq<Button>, c: Combination, i: nat)
    requires InRange(buttons, 0, c) && c != []
    ensures multiset(Pressed(buttons, c))[i]
            == multiset(Pressed(buttons, c[..|c| - 1]))[i] + multiset(buttons[c[|c| - 1]].leds)[i]
  {
    assert Pressed(buttons, c) == Pressed(buttons, c[..|c| - 1]) + buttons[c[|c| - 1]].leds;
  }

  /** A valid button presses each of its lights once, and its mask has exactly their bits. */
  lemma ButtonBitCount(b: Button, n: nat, i: nat)
    requires ValidButton(b, n)
    ensures multiset(b.leds)[i] <= 1 && (Bit(b.mask, i) <==> multiset(b.leds)[i] == 1)
  {
    MaskOfBits(b.leds, i);
    NoDuplicatesCount(b.leds, i);
  }

  lemma XorOfBit(buttons: seq<Button>, c: Combination, i: nat)
    requires InRange(buttons, 0, c) && c != []
    ensures Bit(XorOf(buttons, c), i) <==> (Bit(XorOf(buttons, c[..|c| - 1]), i) != Bit(buttons[c[|c| - 1]].mask, i))
  {
    XorBit(XorOf(buttons, c[..|c| - 1]), buttons[c[|c| - 1]].mask, i);
  }

  /** Bit `i` of the combined toggle is the parity of the number of presses of light `i`. */
  lemma {:induction false} PressedParity(buttons: seq<Button>, n: nat, c: Combination, i: nat)
    requires ValidButtons(buttons, n) && InRange(buttons, 0, c)
    ensures Bit(XorOf(buttons, c), i) <==> multiset(Pressed(buttons, c))[i] % 2 == 1
    decreases |c|
  {
    if c == [] {
      ZeroBit(i);
    } else {
      var init := c[..|c| - 1];
      var b := buttons[c[|c| - 1]];
      PressedParity(buttons, n, init, i);
      assert ValidAt(buttons, c[|c| - 1], n);
      ButtonBitCount(b, n, i);
      XorOfBit(buttons, c, i);
      PressedCount(buttons, c, i);
      OddSum(Bit(XorOf(buttons, c), i), Bit(XorOf(buttons, init), i), Bit(b.mask, i),
             multiset(Pressed(buttons, init))[i], multiset(b.leds)[i], multiset(Pressed(buttons, c))[i]);
    }
  }

  /** Adding at most one press flips the parity exactly when it adds one. */
  lemma OddSum(now: bool, was: bool, flip: bool, before: nat, here: nat, total: nat)
    requires (was <==> before % 2 == 1) && (flip <==> here == 1) && (now <==> was != flip)
    requires here <= 1 && total == before + here
    ensures now <==> total % 2 == 1
  {
  }

  lemma EvenDifference(a: nat, b: nat, d: nat)
    requires d == a - b && a % 2 == b % 2
    ensures d % 2 == 0
  {
  }

  /** Each light is pressed as often, modulo 2, as its count says. */
  lemma CountParity(buttons: seq<Button>, j: seq<nat>, c: Combination, i: nat)
    requires ValidButtons(buttons, |j|) && InRange(buttons, 0, c)
    requires XorOf(buttons, c) == ParityMask(j) && i < |j|
    ensures multiset(Pressed(buttons, c))[i] % 2 == j[i] % 2
  {
    PressedParity(buttons, |j|, c, i);
    ParityMaskBits(j, i);
  }

  lemma SubtractEvenAt(buttons: seq<Button>, j: seq<nat>, c: Combination, i: nat)
    requires ValidButtons(buttons, |j|) && InRange(buttons, 0, c)
    requires XorOf(buttons, c) == ParityMask(j)
    requires PressedFits(buttons, j, c) && Subtract(j, Pressed(buttons, c)).Some?
    requires i < |j|
    ensures Subtract(j, Pressed(buttons, c)).value[i] % 2 == 0
  {
    var l: seq<nat> := Pressed(buttons, c);
    var m: nat := multiset(l)[i];
    var d: nat := Subtract(j, l).value[i];
    assert d == j[i] - m by {
      SubtractSpec(j, l);
    }
    CountParity(buttons, j, c, i);
    EvenDifference(j[i], m, d);
  }

  /** After the decrements of a combination matching the parity mask, every count
      is even: the assertion before the halving never fails. */
  lemma SubtractEven(buttons: seq<Button>, j: seq<nat>, c: Combination)
    requires ValidButtons(buttons, |j|) && InRange(buttons, 0, c)
    requires XorOf(buttons, c) == ParityMask(j)
    requires PressedFits(buttons, j, c) && Subtract(j, Pressed(buttons, c)).Some?
    ensures forall i :: 0 <= i < |j| ==> Subtract(j, Pressed(buttons, c)).value[i] % 2 == 0
  {
    forall i: nat | i < |j| ensures Subtract(j, Pressed(buttons, c)).value[i] % 2 == 0 {
      SubtractEvenAt(buttons, j, c, i);
    }
  }

  /** Every pressed light has a count. */
  predicate PressedFits(buttons: seq<Button>, j: seq<nat>, c: Combination)
    requires InRange(buttons, 0, c)
  {
    forall k :: 0 <= k < |Pressed(buttons, c)| ==> Pressed(buttons, c)[k] < |j|
  }

  /** The smaller of two optional costs, absent ones ignored (`Iterator::min` over a `filter_map`). */
  function OptMin(a: Option<nat>, b: Option<nat>): (r: Option<nat>)
    ensures r.None? <==> a.None? && b.None?
    ensures r.Some? ==> (r == a || r == b) && (a.Some? ==> r.value <= a.value) && (b.Some? ==> r.value <= b.value)
  {
    if a.None? then b
    else if b.None? then a
    else if b.value < a.value then b
    else a
  }

  /** A combination matching the parity of the counts. */
  predicate Matching(buttons: seq<Button>, j: seq<nat>, c: Combination)
  {
    IsCombination(buttons, 0, c) && Xor(0, XorOf(buttons, c)) == ParityMask(j)
  }

  predicate AllMatching(buttons: seq<Button>, j: seq<nat>, cs: seq<Combination>)
  {
    forall k :: 0 <= k < |cs| ==> Matching(buttons, j, cs[k])
  }

  /** `find_joules` as a recursive definition: zero presses for all-zero counts, else
      the best candidate among the combinations matching the parity of the counts. */
  function Joules(buttons: seq<Button>, j: seq<nat>): Option<nat>
    requires ValidButtons(buttons, |j|)
    decreases Sum(j), 1, 0
  {
    if AllZero(j) then Some(0)
    else
      var found := FindCombinations(buttons, 0, 0, ParityMask(j));
      FoundMatching(buttons, j);
      match found
      case None => None
      case Some(cs) => BestCandidate(buttons, j, cs)
  }

  /** The combinations found all match the parity of the counts. */
  lemma FoundMatching(buttons: seq<Button>, j: seq<nat>)
    ensures FindCombinations(buttons, 0, 0, ParityMask(j)).Some? ==>
              AllMatching(buttons, j, FindCombinations(buttons, 0, 0, ParityMask(j)).value)
  {
    FindCombinationsSpec(buttons, 0, 0, ParityMask(j));
  }

  /** The minimum over `cs` of the candidates' costs, `None` if none is feasible. */
  function BestCandidate(buttons: seq<Button>, j: seq<nat>, cs: seq<Combination>): Option<nat>
    requires ValidButtons(buttons, |j|) && !AllZero(j)
    requires AllMatching(buttons, j, cs)
    decreases Sum(j), 0, |cs|
  {
    if cs == [] then None
    else OptMin(BestCandidate(buttons, j, cs[..|cs| - 1]), Candidate(buttons, j, cs[|cs| - 1]))
  }

  /** One candidate: press the buttons of `c` once, halve the remaining counts and
      solve them recursively, at a cost of `|c| + 2 * m`. */
  function Candidate(buttons: seq<Button>, j: seq<nat>, c: Combination): Option<nat>
    requires ValidButtons(buttons, |j|) && !AllZero(j) && Matching(buttons, j, c)
    decreases Sum(j), 0, 0
  {
    CandidateDecreases(buttons, j, c);
    match Subtract(j, Pressed(buttons, c))
    case None => None
    case Some(r) =>
      match Joules(buttons, Halve(r))
      case None => None
      case Some(m) => Some(|c| + 2 * m)
  }

  /** A kept candidate halves to a smaller total count, which bounds the recursion. */
  lemma CandidateDecreases(buttons: seq<Button>, j: seq<nat>, c: Combination)
    requires ValidButtons(buttons, |j|) && !AllZero(j) && Matching(buttons, j, c)
    ensures Subtract(j, Pressed(buttons, c)).Some? ==> Sum(Halve(Subtract(j, Pressed(buttons, c)).value)) < Sum(j)
  {
    if Subtract(j, Pressed(buttons, c)).Some? {
      PressedBound(buttons, c, |j|);
      SubtractSpec(j, Pressed(buttons, c));
      HalveLess(j, Subtract(j, Pressed(buttons, c)).value);
    }
  }

  /** Subtracting and halving strictly lowers the total count, which bounds the recursion. */
  lemma HalveLess(j: seq<nat>, r: seq<nat>)
    requires |r| == |j| && forall i :: 0 <= i < |j| ==> r[i] <= j[i]
    requires !AllZero(j)
    ensures Sum(Halve(r)) < Sum(j)
  {
    var k :| 0 <= k < |j| && j[k] != 0;
    SumLess(Halve(r), j, k);
  }

  /** The `min` of a list of optional costs, the dropped ones (`None`) ignored. */
  function MinOf(xs: seq<Option<nat>>): Option<nat>
  {
    if xs == [] then None else OptMin(MinOf(xs[..|xs| - 1]), xs[|xs| - 1])
  }

  /** `MinOf` is `None` exactly when every cost is, and otherwise one of the costs
      and no more than any other. */
  lemma {:induction false} MinOfSpec(xs: seq<Option<nat>>)
    ensures MinOf(xs).None? <==> forall k :: 0 <= k < |xs| ==> xs[k].None?
    ensures MinOf(xs).Some? ==>
              (exists k :: 0 <= k < |xs| && xs[k] == MinOf(xs))
              && forall k :: 0 <= k < |xs| && xs[k].Some? ==> MinOf(xs).value <= xs[k].value
    decreases |xs|
  {
    if xs != [] {
      var init := xs[..|xs| - 1];
      MinOfSpec(init);
      assert forall k :: 0 <= k < |init| ==> xs[k] == init[k];
      var best := MinOf(xs);
      if best.Some? && best != xs[|xs| - 1] {
        var k :| 0 <= k < |init| && init[k] == best;
        assert xs[k] == best;
      }
    }
  }

  /** The cost of each candidate, in order. */
  function Costs(buttons: seq<Button>, j: seq<nat>, cs: seq<Combination>): (r: seq<Option<nat>>)
    requires ValidButtons(buttons, |j|) && !AllZero(j)
    requires AllMatching(buttons, j, cs)
    ensures |r| == |cs| && forall k :: 0 <= k < |cs| ==> r[k] == Candidate(buttons, j, cs[k])
  {
    seq(|cs|, k requires 0 <= k < |cs| => Candidate(buttons, j, cs[k]))
  }

  /** `BestCandidate` is the `min` of the candidates' costs. */
  lemma {:induction false} BestCandidateMin(buttons: seq<Button>, j: seq<nat>, cs: seq<Combination>)
    requires ValidButtons(buttons, |j|) && !AllZero(j)
    requires AllMatching(buttons, j, cs)
    ensures BestCandidate(buttons, j, cs) == MinOf(Costs(buttons, j, cs))
    decreases |cs|
  {
    if cs != [] {
      var init := cs[..|cs| - 1];
      BestCandidateMin(buttons, j, init);
      assert Costs(buttons, j, cs)[..|cs| - 1] == Costs(buttons, j, init);
    }
  }

  /** The minimum in `BestCandidate` is taken over the feasible candidates only:
      `None` exactly when every candidate is dropped, otherwise the cost of some
      candidate and no more than any other. */
  lemma BestCandidateSpec(buttons: seq<Button>, j: seq<nat>, cs: seq<Combination>)
    requires ValidButtons(buttons, |j|) && !AllZero(j)
    requires AllMatching(buttons, j, cs)
    ensures BestCandidate(buttons, j, cs).None? <==> forall k :: 0 <= k < |cs| ==> Candidate(buttons, j, cs[k]).None?
    ensures BestCandidate(buttons, j, cs).Some? ==>
              (exists k :: 0 <= k < |cs| && Candidate(buttons, j, cs[k]) == BestCandidate(buttons, j, cs))
              && forall k :: 0 <= k < |cs| && Candidate(buttons, j, cs[k]).Some? ==>
                   BestCandidate(buttons, j, cs).value <= Candidate(buttons, j, cs[k]).value
  {
    BestCandidateMin(buttons, j, cs);
    MinOfSpec(Costs(buttons, j, cs));
  }

  lemma PressedSnoc(buttons: seq<Button>, c: Combination, k: nat)
    requires InRange(buttons, 0, c) && k < |c|
    ensures Pressed(buttons, c[..k + 1]) == Pressed(buttons, c[..k]) + buttons[c[k]].leds
  {
    assert c[..k + 1][..k] == c[..k];
  }

  /** The lights of a prefix of a combination come first among all its lights. */
  lemma {:induction false} PressedPrefix(buttons: seq<Button>, c: Combination, k: nat)
    requires InRange(buttons, 0, c) && k <= |c|
    ensures exists rest :: Pressed(buttons, c) == Pressed(buttons, c[..k]) + rest
    decreases |c| - k
  {
    if k == |c| {
      assert c[..k] == c;
      assert Pressed(buttons, c) == Pressed(buttons, c[..k]) + [];
    } else {
      PressedPrefix(buttons, c, k + 1);
      var rest :| Pressed(buttons, c) == Pressed(buttons, c[..k + 1]) + rest;
      PressedSnoc(buttons, c, k);
      assert Pressed(buttons, c) == Pressed(buttons, c[..k]) + (buttons[c[k]].leds + rest);
    }
  }

  lemma JoulesNone(buttons: seq<Button>, j: seq<nat>)
    requires ValidButtons(buttons, |j|) && !AllZero(j)
    requires FindCombinations(buttons, 0, 0, ParityMask(j)).None?
    ensures Joules(buttons, j).None?
  {
  }

  lemma JoulesSome(buttons: seq<Button>, j: seq<nat>)
    requires ValidButtons(buttons, |j|) && !AllZero(j)
    requires FindCombinations(buttons, 0, 0, ParityMask(j)).Some?
    ensures AllMatching(buttons, j, FindCombinations(buttons, 0, 0, ParityMask(j)).value)
    ensures Joules(buttons, j) == BestCandidate(buttons, j, FindCombinations(buttons, 0, 0, ParityMask(j)).value)
  {
    FindCombinationsSpec(buttons, 0, 0, ParityMask(j));
  }

  /** `joules.iter().all(|&j| j == 0)`. */
  method AllZeroScan(joules: seq<nat>) returns (b: bool)
    ensures b <==> AllZero(joules)
  {
    var i := 0;
    while i < |joules| && joules[i] == 0
      invariant 0 <= i <= |joules| && forall t :: 0 <= t < i ==> joules[t] == 0
    {
      i := i + 1;
    }
    b := i == |joules|;
  }

  /** The parity fold of `find_joules`, from the last count to the first. */
  method ParityFold(joules: seq<nat>) returns (leds: nat)
    ensures leds == ParityMask(joules)
  {
    leds := 0;
    var k := |joules|;
    while k > 0
      invariant 0 <= k <= |joules| && leds == ParityMask(joules[k..])
    {
      k := k - 1;
      assert joules[k..][1..] == joules[k + 1..];
      leds := 2 * leds + if joules[k] % 2 == 0 then 0 else 1;
    }
    assert joules[0..] == joules;
  }

  /** `find_joules`, threading the memo of `find_combinations_cached` through the
      recursion: it returns `Joules(buttons, joules)` and keeps the memo coherent. */
  method FindJoules(buttons: seq<Button>, joules: seq<nat>, cache: Cache) returns (r: Option<nat>, cache': Cache)
    requires ValidButtons(buttons, |joules|) && |joules| <= 32
    requires CacheCoherent(buttons, cache)
    ensures r == Joules(buttons, joules)
    ensures CacheCoherent(buttons, cache') && cache.Keys <= cache'.Keys
    decreases Sum(joules), 2
  {
    var zero := AllZeroScan(joules);
    if zero {
      return Some(0), cache;
    }
    var leds := ParityFold(joules);
    var found;
    found, cache' := FindCombinationsCached(buttons, leds, cache);
    if found.None? {
      JoulesNone(buttons, joules);
      return None, cache';
    }
    JoulesSome(buttons, joules);
    r, cache' := MinCandidate(buttons, joules, found.value, cache');
  }

  /** `filter_map(..).min()` over the combinations matching the parity of the counts. */
  method MinCandidate(buttons: seq<Button>, joules: seq<nat>, v: seq<Combination>, cache: Cache)
      returns (r: Option<nat>, cache': Cache)
    requires ValidButtons(buttons, |joules|) && |joules| <= 32 && !AllZero(joules)
    requires AllMatching(buttons, joules, v)
    requires CacheCoherent(buttons, cache)
    ensures r == BestCandidate(buttons, joules, v)
    ensures CacheCoherent(buttons, cache') && cache.Keys <= cache'.Keys
    decreases Sum(joules), 1
  {
    r, cache' := None, cache;
    var n := 0;
    while n < |v|
      invariant n <= |v| && r == BestCandidate(buttons, joules, v[..n])
      invariant CacheCoherent(buttons, cache') && cache.Keys <= cache'.Keys
    {
      var candidate;
      candidate, cache' := TryCandidate(buttons, joules, v[n], cache');
      assert v[..n + 1][..n] == v[..n];
      r := OptMin(r, candidate);
      n := n + 1;
    }
    assert v[..n] == v;
  }

  /** A kept candidate leaves even counts, and halving them lowers the total. */
  lemma CandidateKept(buttons: seq<Button>, j: seq<nat>, c: Combination)
    requires ValidButtons(buttons, |j|) && !AllZero(j) && Matching(buttons, j, c)
    requires Subtract(j, Pressed(buttons, c)).Some?
    ensures forall i :: 0 <= i < |j| ==> Subtract(j, Pressed(buttons, c)).value[i] % 2 == 0
    ensures Sum(Halve(Subtract(j, Pressed(buttons, c)).value)) < Sum(j)
  {
    PressedBound(buttons, c, |j|);
    SubtractSpec(j, Pressed(buttons, c));
    SubtractEven(buttons, j, c);
    HalveLess(j, Subtract(j, Pressed(buttons, c)).value);
  }

  /** Its cost is `|c| + 2 * m` where `m` solves the halved counts. */
  lemma CandidateCost(buttons: seq<Button>, j: seq<nat>, c: Combination, rest: seq<nat>)
    requires ValidButtons(buttons, |j|) && !AllZero(j) && Matching(buttons, j, c)
    requires Subtract(j, Pressed(buttons, c)).Some? && Subtract(j, Pressed(buttons, c)).value == rest
    ensures Candidate(buttons, j, c).Some? <==> Joules(buttons, Halve(rest)).Some?
    ensures Candidate(buttons, j, c).Some? ==>
              Candidate(buttons, j, c).value == |c| + 2 * Joules(buttons, Halve(rest)).value
  {
  }

  /** The inner decrement loop of `find_joules`: the lights `leds` of one button,
      in order, on counts `j` already decremented for `done`; `None` as soon as a
      count is already zero. */
  method DecrementButton(joules: seq<nat>, done: seq<nat>, leds: seq<nat>, j: seq<nat>) returns (r: Option<seq<nat>>)
    requires Subtract(joules, done).Some? && Subtract(joules, done).value == j
    ensures r == Subtract(joules, done + leds)
  {
    var cur := j;
    var m := 0;
    assert done + leds[..0] == done;
    while m < |leds|
      invariant m <= |leds| && Subtract(joules, done + leds[..m]) == Some(cur)
    {
      var led := leds[m];
      SubtractSnoc(joules, done + leds[..m], led);
      assert done + leds[..m + 1] == (done + leds[..m]) + [led];
      if led < |cur| && cur[led] > 0 {
        cur := cur[led := cur[led] - 1];
      } else {
        SubtractNoneAppend(joules, done + leds[..m + 1], leds[m + 1..]);
        assert done + leds == (done + leds[..m + 1]) + leds[m + 1..];
        return None;
      }
      m := m + 1;
    }
    assert leds[..m] == leds;
    r := Some(cur);
  }

  /** The decrement loops of `find_joules` on a copy of the counts: every light of
      every button of `combi`, in order, or `None` as soon as a count is already zero. */
  method Decrement(buttons: seq<Button>, joules: seq<nat>, combi: Combination) returns (r: Option<seq<nat>>)
    requires InRange(buttons, 0, combi)
    ensures r == Subtract(joules, Pressed(buttons, combi))
  {
    var j := joules;
    var k := 0;
    assert combi[..0] == [];
    while k < |combi|
      invariant k <= |combi| && Subtract(joules, Pressed(buttons, combi[..k])) == Some(j)
    {
      var next := DecrementButton(joules, Pressed(buttons, combi[..k]), buttons[combi[k]].leds, j);
      PressedSnoc(buttons, combi, k);
      if next.None? {
        PressedPrefix(buttons, combi, k + 1);
        var rest :| Pressed(buttons, combi) == Pressed(buttons, combi[..k + 1]) + rest;
        SubtractNoneAppend(joules, Pressed(buttons, combi[..k + 1]), rest);
        return None;
      }
      j := next.value;
      k := k + 1;
    }
    assert combi[..k] == combi;
    r := Some(j);
  }

  /** The halving loop: every count is even (the source asserts it) and is halved in place. */
  method HalveAll(rest: seq<nat>) returns (j: seq<nat>)
    requires forall i :: 0 <= i < |rest| ==> rest[i] % 2 == 0
    ensures j == Halve(rest)
  {
    j := rest;
    var i := 0;
    while i < |j|
      invariant i <= |j| == |rest|
      invariant forall t :: 0 <= t < i ==> j[t] == rest[t] / 2
      invariant forall t :: i <= t < |j| ==> j[t] == rest[t]
    {
      assert j[i] % 2 == 0;
      j := j[i := j[i] / 2];
      i := i + 1;
    }
  }

  /** The closure of `filter_map` in `find_joules`: decrement a copy of the counts
      for every light of every button of `combi` (dropping the candidate when a
      count is already zero), halve them, and recurse. */
  method TryCandidate(buttons: seq<Button>, joules: seq<nat>, combi: Combination, cache: Cache)
      returns (r: Option<nat>, cache': Cache)
    requires ValidButtons(buttons, |joules|) && |joules| <= 32
    requires !AllZero(joules) && Matching(buttons, joules, combi)
    requires CacheCoherent(buttons, cache)
    ensures r == Candidate(buttons, joules, combi)
    ensures CacheCoherent(buttons, cache') && cache.Keys <= cache'.Keys
    decreases Sum(joules), 0
  {
    var subtracted := Decrement(buttons, joules, combi);
    if subtracted.None? {
      return None, cache;
    }
    var rest := subtracted.value;
    CandidateKept(buttons, joules, combi);
    CandidateCost(buttons, joules, combi, rest);
    var j := HalveAll(rest);
    var m;
    m, cache' := FindJoules(buttons, j, cache);
    r := if m.Some? then Some(|combi| + 2 * m.value) else None;
  }

  // ============================================================= resolve

  /** The light pattern `[.##.]` folded from its last byte to its first: `.` is an
      off bit, `#` an on bit, and any other byte (the brackets) is skipped. */
  function PatternMask(s: string): nat
  {
    if s == [] then 0
    else if s[0] == '.' then 2 * PatternMask(s[1..])
    else if s[0] == '#' then 2 * PatternMask(s[1..]) + 1
    else PatternMask(s[1..])
  }

  /** The lamps of a pattern, leftmost first. */
  function Lamps(s: string): (r: string)
    ensures forall k :: 0 <= k < |r| ==> r[k] == '.' || r[k] == '#'
  {
    if s == [] then [] else (if s[0] == '.' || s[0] == '#' then [s[0]] else []) + Lamps(s[1..])
  }

  /** The leftmost lamp is bit 0, and a bit is set exactly when its lamp is `#`. */
  lemma {:induction false} PatternMaskBits(s: string, i: nat)
    ensures Bit(PatternMask(s), i) <==> i < |Lamps(s)| && Lamps(s)[i] == '#'
    decreases |s|
  {
    if s == [] {
      ZeroBit(i);
    } else if s[0] == '.' || s[0] == '#' {
      DoubleBit(PatternMask(s[1..]), if s[0] == '#' then 1 else 0, i);
      if i > 0 {
        PatternMaskBits(s[1..], i - 1);
      }
    } else {
      PatternMaskBits(s[1..], i);
    }
  }

  lemma PatternExample()
    ensures PatternMask("[.##.]") == 6
  {
    assert PatternMask("]") == 0;
    assert "[.##.]"[1..] == ".##.]" && ".##.]"[1..] == "##.]" && "##.]"[1..] == "#.]";
    assert "#.]"[1..] == ".]" && ".]"[1..] == "]";
  }

  /** The counts `{3,5,4,7}`: a digit extends the last count, a comma starts a new
      count, and any other byte (the braces) is skipped. */
  function JoltagesOf(s: string): (r: seq<nat>)
    ensures |r| >= 1
  {
    if s == [] then [0]
    else
      var r := JoltagesOf(s[..|s| - 1]);
      var c := s[|s| - 1];
      if IsDigit(c) then r[|r| - 1 := 10 * r[|r| - 1] + DigitValue(c)]
      else if c == ',' then r + [0]
      else r
  }

  /** The digits of a piece read as a decimal number, other bytes skipped. */
  function DigitsValue(s: string): nat
  {
    if s == [] then 0
    else if IsDigit(s[|s| - 1]) then 10 * DigitsValue(s[..|s| - 1]) + DigitValue(s[|s| - 1])
    else DigitsValue(s[..|s| - 1])
  }

  /** There is one count per comma-separated piece, and it is the number its digits spell. */
  lemma {:induction false} JoltagesSplit(s: string)
    ensures |JoltagesOf(s)| == |Split(s, ',')|
    ensures forall k :: 0 <= k < |JoltagesOf(s)| ==> JoltagesOf(s)[k] == DigitsValue(Split(s, ',')[k])
    decreases |s|
  {
    if s != [] {
      var init := s[..|s| - 1];
      var c := s[|s| - 1];
      JoltagesSplit(init);
      var p := Split(init, ',');
      if c != ',' {
        var last := p[|p| - 1];
        assert (last + [c])[..|last|] == last;
      }
    }
  }

  /** The loop of `resolve` over the bytes of the counts token. */
  method ParseJoltages(s: string) returns (r: seq<nat>)
    ensures r == JoltagesOf(s)
  {
    r := [0];
    var k := 0;
    while k < |s|
      invariant 0 <= k <= |s| && r == JoltagesOf(s[..k])
    {
      var c := s[k];
      assert s[..k + 1][..k] == s[..k];
      if IsDigit(c) {
        r := r[|r| - 1 := 10 * r[|r| - 1] + DigitValue(c)];
      } else if c == ',' {
        r := r + [0];
      }
      k := k + 1;
    }
    assert s[..k] == s;
  }

  /** A machine: the target pattern, its buttons and the counts. */
  datatype Machine = Machine(lights: nat, buttons: seq<Button>, joltages: seq<nat>)

  /** A button token, `None` where `Button::from_str(s).unwrap()` panics. */
  function ButtonOption(s: string): Option<Button>
  {
    match ButtonOf(s)
    case Err => None
    case Ok(b) => Some(b)
  }

  /** One input line: the pattern, then the buttons, then the counts; `None` when the
      line has fewer than two words or a button fails to parse. */
  function MachineOf(line: string): Option<Machine>
  {
    var words := Words(line);
    if |words| < 2 then None
    else match MapAll(words[1..|words| - 1], ButtonOption)
      case None => None
      case Some(bs) => Some(Machine(PatternMask(words[0]), bs, JoltagesOf(words[|words| - 1])))
  }

  /** The `map` closure of `resolve` over one line. */
  method ParseMachine(line: string) returns (r: Option<Machine>)
    ensures r == MachineOf(line)
  {
    var words := Words(line);
    if |words| < 2 {
      return None;
    }
    var middle := words[1..|words| - 1];
    var buttons: seq<Button> := [];
    var k := 0;
    while k < |middle|
      invariant k <= |middle| && MapAll(middle[..k], ButtonOption) == Some(buttons)
    {
      var b := ParseButton(middle[k]);
      assert middle[..k + 1] == middle[..k] + [middle[k]];
      MapAllSnoc(middle[..k], middle[k], ButtonOption);
      if b.Err? {
        MapAllSpec(middle, ButtonOption);
        return None;
      }
      buttons := buttons + [b.value];
      k := k + 1;
    }
    assert middle[..k] == middle;
    var joltages := ParseJoltages(words[|words| - 1]);
    r := Some(Machine(PatternMask(words[0]), buttons, joltages));
  }

  /** `combis.iter().map(|v| v.len()).min()`. */
  function MinLength(cs: seq<Combination>): (r: nat)
    requires cs != []
    ensures exists k :: 0 <= k < |cs| && |cs[k]| == r
    ensures forall k :: 0 <= k < |cs| ==> r <= |cs[k]|
  {
    if |cs| == 1 then |cs[0]|
    else
      var m := MinLength(cs[..|cs| - 1]);
      if |cs[|cs| - 1]| < m then |cs[|cs| - 1]| else m
  }

  /** Part 1 of one machine: the length of the shortest combination reaching the pattern. */
  function Presses(buttons: seq<Button>, lights: nat): Option<nat>
  {
    match FindCombinations(buttons, 0, 0, lights)
    case None => None
    case Some(cs) => Some(MinLength(cs))
  }

  /** Part 1 is the fewest distinct buttons whose toggles give the pattern, and there
      is no answer exactly when no set of buttons gives it. */
  lemma FewestPresses(buttons: seq<Button>, lights: nat)
    ensures Presses(buttons, lights).None? <==>
              forall c :: !(IsCombination(buttons, 0, c) && XorOf(buttons, c) == lights)
    ensures Presses(buttons, lights).Some? ==>
              (exists c :: IsCombination(buttons, 0, c) && XorOf(buttons, c) == lights
                           && |c| == Presses(buttons, lights).value)
              && forall c :: IsCombination(buttons, 0, c) && XorOf(buttons, c) == lights ==>
                               Presses(buttons, lights).value <= |c|
  {
    FindCombinationsSpec(buttons, 0, 0, lights);
    var found := FindCombinations(buttons, 0, 0, lights);
    if found.Some? {
      var cs := found.value;
      var k :| 0 <= k < |cs| && |cs[k]| == MinLength(cs);
      assert cs[k] in cs;
      forall c | IsCombination(buttons, 0, c) && XorOf(buttons, c) == lights
        ensures MinLength(cs) <= |c|
      {
        var t :| 0 <= t < |cs| && cs[t] == c;
      }
    }
  }

  /** What `resolve` needs of a machine for `find_joules`: valid buttons, and at most
      32 counts so that their parity mask fits in a `u32`. */
  predicate MachineFits(m: Machine)
  {
    ValidButtons(m.buttons, |m.joltages|) && |m.joltages| <= 32
  }

  /** The two answers of one machine, `None` where `resolve` unwraps a `None`. */
  function MachineAnswer(m: Machine): Option<(nat, nat)>
    requires MachineFits(m)
  {
    match Presses(m.buttons, m.lights)
    case None => None
    case Some(p1) =>
      match Joules(m.buttons, m.joltages)
      case None => None
      case Some(p2) => Some((p1, p2))
  }

  /** The `fold` closure of `resolve` on one machine, with a fresh memo shared by both
      parts; `ok` is false where `resolve` unwraps a `None`. */
  method SolveMachine(m: Machine) returns (ok: bool, p1: nat, p2: nat)
    requires MachineFits(m)
    ensures ok == MachineAnswer(m).Some?
    ensures ok ==> MachineAnswer(m).value.0 == p1 && MachineAnswer(m).value.1 == p2
  {
    var cache: Cache := map[];
    var combis;
    combis, cache := FindCombinationsCached(m.buttons, m.lights, cache);
    if combis.None? {
      return false, 0, 0;
    }
    var joules;
    joules, cache := FindJoules(m.buttons, m.joltages, cache);
    if joules.None? {
      return false, 0, 0;
    }
    ok, p1, p2 := true, MinLength(combis.value), joules.value;
  }

  predicate AllFit(ms: seq<Machine>)
  {
    forall k :: 0 <= k < |ms| ==> MachineFits(ms[k])
  }

  function AddPair(a: Option<(nat, nat)>, b: Option<(nat, nat)>): Option<(nat, nat)>
  {
    if a.Some? && b.Some? then Some((a.value.0 + b.value.0, a.value.1 + b.value.1)) else None
  }

  /** The answers summed over the machines, `None` if any machine panics. */
  function Totals(ms: seq<Machine>): Option<(nat, nat)>
    requires AllFit(ms)
  {
    if ms == [] then Some((0, 0))
    else AddPair(Totals(ms[..|ms| - 1]), MachineAnswer(ms[|ms| - 1]))
  }

  /** A machine that panics makes the whole of `resolve` panic. */
  lemma {:induction false} TotalsNone(ms: seq<Machine>, k: nat)
    requires AllFit(ms) && k < |ms| && MachineAnswer(ms[k]).None?
    ensures Totals(ms).None?
    decreases |ms|
  {
    if k < |ms| - 1 {
      TotalsNone(ms[..|ms| - 1], k);
    }
  }

  /** Summing per chunk and adding the chunk totals gives the same answers, so the
      parallel `fold`/`reduce` of `resolve` agrees with this sequential sum however
      the machines are split. */
  lemma {:induction false} TotalsAppend(a: seq<Machine>, b: seq<Machine>)
    requires AllFit(a) && AllFit(b)
    ensures AllFit(a + b) && Totals(a + b) == AddPair(Totals(a), Totals(b))
    decreases |b|
  {
    assert AllFit(a + b) by {
      forall k | 0 <= k < |a + b| ensures MachineFits((a + b)[k]) {
        if k >= |a| {
          assert (a + b)[k] == b[k - |a|];
        }
      }
    }
    if b == [] {
      assert a + b == a;
    } else {
      var init := b[..|b| - 1];
      assert (a + b)[..|a + b| - 1] == a + init;
      assert (a + b)[|a + b| - 1] == b[|b| - 1];
      TotalsAppend(a, init);
      AddPairAssoc(Totals(a), Totals(init), MachineAnswer(b[|b| - 1]));
    }
  }

  lemma AddPairAssoc(x: Option<(nat, nat)>, y: Option<(nat, nat)>, z: Option<(nat, nat)>)
    ensures AddPair(AddPair(x, y), z) == AddPair(x, AddPair(y, z))
  {
  }

  /** One more machine with an answer adds it to the running totals. */
  lemma TotalsSnoc(ms: seq<Machine>, k: nat, p1: nat, p2: nat, q1: nat, q2: nat)
    requires AllFit(ms) && k < |ms|
    requires Totals(ms[..k]).Some? && Totals(ms[..k]).value.0 == p1 && Totals(ms[..k]).value.1 == p2
    requires MachineAnswer(ms[k]).Some? && MachineAnswer(ms[k]).value.0 == q1 && MachineAnswer(ms[k]).value.1 == q2
    ensures Totals(ms[..k + 1]).Some? && Totals(ms[..k + 1]).value.0 == p1 + q1 && Totals(ms[..k + 1]).value.1 == p2 + q2
  {
    assert ms[..k + 1][..k] == ms[..k];
    assert ms[..k + 1][k] == ms[k];
  }

  /** One step of the sum: machine `k` added to the totals of the machines before it,
      or the panic of the whole sum. */
  method AddMachine(ms: seq<Machine>, k: nat, p1: nat, p2: nat) returns (ok: bool, s1: nat, s2: nat)
    requires AllFit(ms) && k < |ms|
    requires Totals(ms[..k]).Some? && Totals(ms[..k]).value.0 == p1 && Totals(ms[..k]).value.1 == p2
    ensures ok ==> Totals(ms[..k + 1]).Some? && Totals(ms[..k + 1]).value.0 == s1 && Totals(ms[..k + 1]).value.1 == s2
    ensures !ok ==> Totals(ms).None?
  {
    var q1, q2;
    ok, q1, q2 := SolveMachine(ms[k]);
    if !ok {
      TotalsNone(ms, k);
      return false, 0, 0;
    }
    TotalsSnoc(ms, k, p1, p2, q1, q2);
    s1, s2 := p1 + q1, p2 + q2;
  }

  /** The sum over the machines, taken sequentially. */
  method SolveAll(ms: seq<Machine>) returns (r: Option<(nat, nat)>)
    requires AllFit(ms)
    ensures r == Totals(ms)
  {
    var p1, p2 := 0, 0;
    var k := 0;
    while k < |ms|
      invariant k <= |ms| && Totals(ms[..k]).Some? && Totals(ms[..k]).value.0 == p1 && Totals(ms[..k]).value.1 == p2
    {
      var ok;
      ok, p1, p2 := AddMachine(ms, k, p1, p2);
      if !ok {
        return None;
      }
      k := k + 1;
    }
    assert ms[..k] == ms;
    r := Some((p1, p2));
  }

  /** `resolve`: parse every line (a line that does not parse panics), then sum the
      answers of the machines. */
  method Resolve(lines: seq<string>) returns (r: Option<(nat, nat)>)
    requires MapAll(lines, MachineOf).Some? ==> AllFit(MapAll(lines, MachineOf).value)
    ensures MapAll(lines, MachineOf).None? ==> r.None?
    ensures MapAll(lines, MachineOf).Some? ==> r == Totals(MapAll(lines, MachineOf).value)
  {
    var ms: seq<Machine> := [];
    var k := 0;
    while k < |lines|
      invariant k <= |lines| && MapAll(lines[..k], MachineOf).Some? && MapAll(lines[..k], MachineOf).value == ms
    {
      var m := ParseMachine(lines[k]);
      if m.None? {
        MapAllFails(lines, k, MachineOf);
        return None;
      }
      MapAllStep(lines, k, ms, MachineOf);
      ms := ms + [m.value];
      k := k + 1;
    }
    assert lines[..k] == lines;
    r := SolveAll(ms);
  }
}
